/**
 Section text cut into overlapping chunks (_token_windows, _atoms, chunk_sections and _trailing_tokens
 in src/finvet/rag/parser.py).
 */
module Chunker {
  import opened Wrappers
  import opened Sequences

  datatype Tokenizer = Tokenizer(encode: string -> seq<nat>, decode: seq<nat> -> string)

  /** What the chunker relies on: decoding undoes encoding and distributes, and a decoded slice does not grow. */
  ghost predicate Lawful(tok: Tokenizer) {
    && (forall s :: tok.decode(tok.encode(s)) == s)
    && (forall a, b :: tok.decode(a + b) == tok.decode(a) + tok.decode(b))
    && (forall s, i, j :: 0 <= i <= j <= |tok.encode(s)| ==> |tok.encode(tok.decode(tok.encode(s)[i..j]))| <= j - i)
  }

  /** split gives the stripped lines of a section and sentences those of a paragraph; either may be empty. */
  datatype Config = Config(tok: Tokenizer, lines: string -> seq<string>, sentences: string -> seq<string>,
                           max: int, overlap: int)

  predicate Accepted(c: Config) {
    0 <= c.overlap < c.max
  }

  function Count(c: Config, text: string): nat {
    |c.tok.encode(text)|
  }

  // ----- token windows -----

  function Min(a: int, b: int): int {
    if a <= b then a else b
  }

  /** Where the i-th window starts: one every max - overlap tokens. */
  function StartOf(c: Config, i: nat): nat
    requires Accepted(c)
  {
    if i == 0 then 0 else StartOf(c, i - 1) + c.max - c.overlap
  }

  function WindowAt(ids: seq<nat>, i: nat, c: Config): seq<nat>
    requires Accepted(c) && StartOf(c, i) <= |ids|
  {
    ids[StartOf(c, i)..Min(StartOf(c, i) + c.max, |ids|)]
  }

  /** ceil((n - overlap) / (max - overlap)) */
  function WindowCount(n: nat, c: Config): nat
    requires Accepted(c) && n > c.max
  {
    (n - c.overlap + (c.max - c.overlap) - 1) / (c.max - c.overlap)
  }

  lemma {:induction false} StartIsMultiple(c: Config, i: nat)
    requires Accepted(c)
    ensures StartOf(c, i) == i * (c.max - c.overlap)
  {
    if i > 0 {
      StartIsMultiple(c, i - 1);
    }
  }

  /** i is a window's number exactly when its start is more than overlap tokens before the end. */
  lemma WindowNumbers(n: nat, c: Config, i: nat)
    requires Accepted(c) && n > c.max
    ensures i < WindowCount(n, c) <==> StartOf(c, i) + c.overlap < n
  {
    StartIsMultiple(c, i);
    CeilingDivision(n - c.overlap, c.max - c.overlap, i);
  }

  lemma CeilingDivision(m: nat, step: nat, i: nat)
    requires step > 0
    ensures i < (m + step - 1) / step <==> i * step < m
  {
    var q := (m + step - 1) / step;
    assert q * step <= m + step - 1 < q * step + step;
    if i < q {
      Product(i + 1, q, step);
    } else {
      Product(q, i, step);
    }
  }

  lemma Product(a: nat, b: nat, step: nat)
    requires a <= b
    ensures a * step <= b * step
  {
  }

  /** The text of the first n windows. */
  function FirstWindows(c: Config, ids: seq<nat>, n: nat): (r: seq<string>)
    requires Accepted(c) && |ids| > c.max && n <= WindowCount(|ids|, c)
    ensures |r| == n
  {
    if n == 0 then []
    else
      WindowNumbers(|ids|, c, n - 1);
      FirstWindows(c, ids, n - 1) + [c.tok.decode(WindowAt(ids, n - 1, c))]
  }

  function Windows(c: Config, text: string): seq<string>
    requires Accepted(c)
  {
    var ids := c.tok.encode(text);
    if |ids| <= c.max then [text] else FirstWindows(c, ids, WindowCount(|ids|, c))
  }

  method TokenWindows(c: Config, text: string) returns (windows: seq<string>)
    requires Accepted(c)
    ensures windows == Windows(c, text)
  {
    var ids := c.tok.encode(text);
    if |ids| <= c.max {
      return [text];
    }
    var step, start := c.max - c.overlap, 0;
    windows := [];
    while start < |ids|
      invariant start == StartOf(c, |windows|) && |windows| < WindowCount(|ids|, c)
      invariant windows == FirstWindows(c, ids, |windows|)
      decreases |ids| - start
    {
      WindowNumbers(|ids|, c, |windows|);
      WindowNumbers(|ids|, c, |windows| + 1);
      windows := windows + [c.tok.decode(ids[start..Min(start + c.max, |ids|)])];
      if start + c.max >= |ids| {
        return;
      }
      start := start + step;
    }
    WindowNumbers(|ids|, c, |windows|);
  }

  /**
   Neighbouring windows share exactly overlap tokens, the last of one being the first of the next, and
   each window has at most max tokens of which at least one is new.
   */
  lemma NeighboursShareOverlap(ids: seq<nat>, c: Config, i: nat)
    requires Accepted(c) && |ids| > c.max && i < WindowCount(|ids|, c)
    ensures StartOf(c, i) <= |ids| && c.overlap < |WindowAt(ids, i, c)| <= c.max
    ensures i + 1 < WindowCount(|ids|, c) ==>
      && StartOf(c, i + 1) <= |ids| && |WindowAt(ids, i, c)| == c.max
      && WindowAt(ids, i, c)[c.max - c.overlap..] == WindowAt(ids, i + 1, c)[..c.overlap]
  {
    WindowNumbers(|ids|, c, i);
    WindowNumbers(|ids|, c, i + 1);
    if i + 1 < WindowCount(|ids|, c) {
      var start, next := StartOf(c, i), StartOf(c, i + 1);
      assert start + c.max == next + c.overlap && next + c.overlap < |ids|;
      assert WindowAt(ids, i, c)[c.max - c.overlap..] == ids[next..next + c.overlap];
      assert WindowAt(ids, i + 1, c)[..c.overlap] == ids[next..next + c.overlap];
    }
  }

  /** The first n windows with the prefix each shares with its predecessor left out. */
  function Stitched(ids: seq<nat>, c: Config, n: nat): seq<nat>
    requires Accepted(c) && |ids| > c.max && n <= WindowCount(|ids|, c)
  {
    if n == 0 then []
    else
      NeighboursShareOverlap(ids, c, n - 1);
      var w := WindowAt(ids, n - 1, c);
      Stitched(ids, c, n - 1) + if n == 1 then w else w[c.overlap..]
  }

  lemma {:induction false} StitchedPrefix(ids: seq<nat>, c: Config, n: nat)
    requires Accepted(c) && |ids| > c.max && 0 < n <= WindowCount(|ids|, c)
    ensures Stitched(ids, c, n) == ids[..Min(StartOf(c, n - 1) + c.max, |ids|)]
  {
    WindowNumbers(|ids|, c, n - 1);
    if n > 1 {
      StitchedPrefix(ids, c, n - 1);
      NextWindowStitches(ids, c, n);
    }
  }

  lemma NextWindowStitches(ids: seq<nat>, c: Config, n: nat)
    requires Accepted(c) && |ids| > c.max && 1 < n && StartOf(c, n - 1) + c.overlap < |ids|
    ensures ids[..Min(StartOf(c, n - 2) + c.max, |ids|)] + WindowAt(ids, n - 1, c)[c.overlap..]
         == ids[..Min(StartOf(c, n - 1) + c.max, |ids|)]
  {
    var start := StartOf(c, n - 1);
    assert StartOf(c, n - 2) + c.max == start + c.overlap;
    JoinSlices(ids, start, Min(start + c.max, |ids|), c.overlap);
  }

  lemma JoinSlices(ids: seq<nat>, start: nat, stop: nat, overlap: nat)
    requires start + overlap <= stop <= |ids|
    ensures ids[..start + overlap] + ids[start..stop][overlap..] == ids[..stop]
  {
  }

  /** Leaving out the shared prefixes, the windows are the text again. */
  lemma WindowsStitchBack(c: Config, text: string)
    requires Accepted(c) && Lawful(c.tok) && Count(c, text) > c.max
    ensures var ids := c.tok.encode(text);
      Stitched(ids, c, WindowCount(|ids|, c)) == ids && c.tok.decode(Stitched(ids, c, WindowCount(|ids|, c))) == text
  {
    var ids := c.tok.encode(text);
    var k := WindowCount(|ids|, c);
    WindowNumbers(|ids|, c, 0);
    StitchedPrefix(ids, c, k);
    WindowNumbers(|ids|, c, k);
  }

  lemma {:induction false} FirstWindowsFit(c: Config, text: string, n: nat)
    requires Accepted(c) && Lawful(c.tok)
    requires var ids := c.tok.encode(text); |ids| > c.max && n <= WindowCount(|ids|, c)
    ensures Fits(c, FirstWindows(c, c.tok.encode(text), n))
  {
    if n > 0 {
      var ids := c.tok.encode(text);
      FirstWindowsFit(c, text, n - 1);
      WindowNumbers(|ids|, c, n - 1);
      assert Count(c, c.tok.decode(WindowAt(ids, n - 1, c))) <= c.max;
    }
  }

  lemma WindowsFit(c: Config, text: string)
    requires Accepted(c) && Lawful(c.tok)
    ensures Fits(c, Windows(c, text))
  {
    var ids := c.tok.encode(text);
    if |ids| > c.max {
      FirstWindowsFit(c, text, WindowCount(|ids|, c));
    }
  }

  ghost predicate Fits(c: Config, texts: seq<string>) {
    forall t :: t in texts ==> Count(c, t) <= c.max
  }

  // ----- atoms -----

  function SentenceAtoms(c: Config, sentence: string): seq<string>
    requires Accepted(c)
  {
    if sentence == "" then [] else Windows(c, sentence)
  }

  function LineAtoms(c: Config, line: string): seq<string>
    requires Accepted(c)
  {
    if line == "" then []
    else if Count(c, line) <= c.max then [line]
    else FlatMap(c.sentences(line), s => SentenceAtoms(c, s))
  }

  function AtomsOf(c: Config, text: string): seq<string>
    requires Accepted(c)
  {
    FlatMap(c.lines(text), line => LineAtoms(c, line))
  }

  method Atoms(c: Config, text: string) returns (atoms: seq<string>)
    requires Accepted(c)
    ensures atoms == AtomsOf(c, text)
  {
    var lines := c.lines(text);
    atoms := [];
    for i := 0 to |lines|
      invariant atoms == FlatMap(lines[..i], line => LineAtoms(c, line))
    {
      assert lines[..i + 1][..i] == lines[..i];
      var line := lines[i];
      if line == "" {
        continue;
      }
      if Count(c, line) <= c.max {
        atoms := atoms + [line];
        continue;
      }
      var more := LongLineAtoms(c, line);
      atoms := atoms + more;
    }
    assert lines[..|lines|] == lines;
  }

  method LongLineAtoms(c: Config, line: string) returns (atoms: seq<string>)
    requires Accepted(c)
    ensures atoms == FlatMap(c.sentences(line), s => SentenceAtoms(c, s))
  {
    var sentences := c.sentences(line);
    atoms := [];
    for i := 0 to |sentences|
      invariant atoms == FlatMap(sentences[..i], s => SentenceAtoms(c, s))
    {
      assert sentences[..i + 1][..i] == sentences[..i];
      var sentence := sentences[i];
      if sentence == "" {
        continue;
      }
      if Count(c, sentence) <= c.max {
        atoms := atoms + [sentence];
      } else {
        var windows := TokenWindows(c, sentence);
        atoms := atoms + windows;
      }
    }
    assert sentences[..|sentences|] == sentences;
  }

  /** No atom is over the ceiling, whatever the splitters return. */
  lemma AtomsFit(c: Config, text: string)
    requires Accepted(c) && Lawful(c.tok)
    ensures Fits(c, AtomsOf(c, text))
  {
    forall a | a in AtomsOf(c, text) ensures Count(c, a) <= c.max {
      FlatMapMembers(c.lines(text), line => LineAtoms(c, line), a);
      var line :| line in c.lines(text) && a in LineAtoms(c, line);
      if Count(c, line) > c.max {
        FlatMapMembers(c.sentences(line), s => SentenceAtoms(c, s), a);
        var sentence :| sentence in c.sentences(line) && a in SentenceAtoms(c, sentence);
        WindowsFit(c, sentence);
      }
    }
  }

  // ----- what the atoms are, said of the lines and the sentences -----

  function Concat<T>(groups: seq<seq<T>>): seq<T> {
    if groups == [] then [] else Concat(groups[..|groups| - 1]) + groups[|groups| - 1]
  }

  /**
   A sentence that fits is one atom. A longer one is cut every max - overlap tokens into windows of max
   tokens, until one reaches its end.
   */
  ghost predicate OfSentence(c: Config, sentence: string, group: seq<string>)
    requires Accepted(c)
  {
    var ids, step := c.tok.encode(sentence), c.max - c.overlap;
    if sentence == "" then group == []
    else if |ids| <= c.max then group == [sentence]
    else
      && group != [] && (|group| - 1) * step + c.overlap < |ids| <= (|group| - 1) * step + c.max
      && forall k :: 0 <= k < |group| ==> SlicedAt(c, ids, k * step, group[k])
  }

  /** An empty line gives nothing, one that fits is one atom, a longer one is cut at its sentences. */
  ghost predicate OfLine(c: Config, line: string, groups: seq<seq<string>>)
    requires Accepted(c)
  {
    if line == "" then groups == []
    else if |c.tok.encode(line)| <= c.max then groups == [[line]]
    else
      && |groups| == |c.sentences(line)|
      && forall j :: 0 <= j < |groups| ==> OfSentence(c, c.sentences(line)[j], groups[j])
  }

  /** blocks holds what each line of the text gives, in order. */
  ghost predicate OfText(c: Config, text: string, blocks: seq<seq<seq<string>>>)
    requires Accepted(c)
  {
    |blocks| == |c.lines(text)| && forall i :: 0 <= i < |blocks| ==> OfLine(c, c.lines(text)[i], blocks[i])
  }

  lemma WindowStart(c: Config, n: nat, k: nat)
    requires Accepted(c) && n > c.max && k < WindowCount(n, c)
    ensures StartOf(c, k) == k * (c.max - c.overlap) && StartOf(c, k) + c.overlap < n
    ensures k == WindowCount(n, c) - 1 <==> n <= StartOf(c, k) + c.max
  {
    StartIsMultiple(c, k);
    WindowNumbers(n, c, k);
    WindowNumbers(n, c, k + 1);
  }

  lemma {:induction false} FirstWindowsAt(c: Config, ids: seq<nat>, n: nat, k: nat)
    requires Accepted(c) && |ids| > c.max && k < n <= WindowCount(|ids|, c)
    ensures StartOf(c, k) <= |ids| && FirstWindows(c, ids, n)[k] == c.tok.decode(WindowAt(ids, k, c))
  {
    WindowNumbers(|ids|, c, k);
    if k < n - 1 {
      FirstWindowsAt(c, ids, n - 1, k);
    }
  }

  lemma SentenceIsCut(c: Config, sentence: string)
    requires Accepted(c)
    ensures OfSentence(c, sentence, SentenceAtoms(c, sentence))
  {
    var ids := c.tok.encode(sentence);
    if sentence != "" && |ids| > c.max {
      WindowNumbers(|ids|, c, 0);
      WindowStart(c, |ids|, WindowCount(|ids|, c) - 1);
      forall k | 0 <= k < WindowCount(|ids|, c)
        ensures SlicedAt(c, ids, k * (c.max - c.overlap), FirstWindows(c, ids, WindowCount(|ids|, c))[k])
      {
        StartIsMultiple(c, k);
        WindowIsSlice(c, ids, WindowCount(|ids|, c), k);
      }
    }
  }

  /** The text of the max tokens from start on, or of as many as there are. */
  ghost predicate SlicedAt(c: Config, ids: seq<nat>, start: int, text: string) {
    && 0 <= start <= |ids| && c.max >= 0
    && text == c.tok.decode(if start + c.max < |ids| then ids[start..start + c.max] else ids[start..])
  }

  lemma WindowIsSlice(c: Config, ids: seq<nat>, n: nat, k: nat)
    requires Accepted(c) && |ids| > c.max && k < n <= WindowCount(|ids|, c)
    ensures SlicedAt(c, ids, StartOf(c, k), FirstWindows(c, ids, n)[k])
  {
    FirstWindowsAt(c, ids, n, k);
    SliceOfWindow(c, ids, StartOf(c, k));
  }

  lemma SliceOfWindow(c: Config, ids: seq<nat>, start: nat)
    requires Accepted(c) && start <= |ids|
    ensures SlicedAt(c, ids, start, c.tok.decode(ids[start..Min(start + c.max, |ids|)]))
  {
    assert ids[start..|ids|] == ids[start..];
  }

  lemma LineIsCut(c: Config, line: string) returns (groups: seq<seq<string>>)
    requires Accepted(c)
    ensures OfLine(c, line, groups) && Concat(groups) == LineAtoms(c, line)
  {
    if line == "" {
      groups := [];
    } else if Count(c, line) <= c.max {
      groups := [[line]];
      assert groups[..0] == [];
    } else {
      groups := SentencesAreCut(c, c.sentences(line));
    }
  }

  lemma {:induction false} SentencesAreCut(c: Config, sentences: seq<string>) returns (groups: seq<seq<string>>)
    requires Accepted(c)
    ensures |groups| == |sentences| && forall j :: 0 <= j < |groups| ==> OfSentence(c, sentences[j], groups[j])
    ensures Concat(groups) == FlatMap(sentences, s => SentenceAtoms(c, s))
  {
    if sentences == [] {
      groups := [];
    } else {
      var front, last := sentences[..|sentences| - 1], sentences[|sentences| - 1];
      var rest := SentencesAreCut(c, front);
      SentenceIsCut(c, last);
      groups := rest + [SentenceAtoms(c, last)];
      assert groups[..|rest|] == rest;
    }
  }

  lemma {:induction false} LinesAreCut(c: Config, lines: seq<string>) returns (blocks: seq<seq<seq<string>>>)
    requires Accepted(c)
    ensures |blocks| == |lines| && forall i :: 0 <= i < |blocks| ==> OfLine(c, lines[i], blocks[i])
    ensures Concat(Concat(blocks)) == FlatMap(lines, line => LineAtoms(c, line))
  {
    if lines == [] {
      blocks := [];
    } else {
      var front, last := lines[..|lines| - 1], lines[|lines| - 1];
      var rest := LinesAreCut(c, front);
      var groups := LineIsCut(c, last);
      blocks := rest + [groups];
      assert blocks[..|rest|] == rest;
      ConcatSum(Concat(rest), groups);
    }
  }

  lemma {:induction false} ConcatSum<T>(a: seq<seq<T>>, b: seq<seq<T>>)
    ensures Concat(a + b) == Concat(a) + Concat(b)
  {
    if b == [] {
      assert a + b == a;
    } else {
      assert (a + b)[..|a + b| - 1] == a + b[..|b| - 1];
      ConcatSum(a, b[..|b| - 1]);
    }
  }

  /** The atoms are, in order, what the lines give and nothing else. */
  lemma AtomsAreTheText(c: Config, text: string)
    requires Accepted(c)
    ensures exists blocks :: OfText(c, text, blocks) && Concat(Concat(blocks)) == AtomsOf(c, text)
  {
    var blocks := LinesAreCut(c, c.lines(text));
    assert OfText(c, text, blocks);
  }

  /** And there is only one way to cut a text so. */
  lemma OneCut(c: Config, text: string, x: seq<seq<seq<string>>>, y: seq<seq<seq<string>>>)
    requires Accepted(c) && OfText(c, text, x) && OfText(c, text, y)
    ensures x == y
  {
    forall i | 0 <= i < |x| ensures x[i] == y[i] {
      OneCutOfLine(c, c.lines(text)[i], x[i], y[i]);
    }
  }

  lemma OneCutOfLine(c: Config, line: string, x: seq<seq<string>>, y: seq<seq<string>>)
    requires Accepted(c) && OfLine(c, line, x) && OfLine(c, line, y)
    ensures x == y
  {
    if line != "" && |c.tok.encode(line)| > c.max {
      forall j | 0 <= j < |x| ensures x[j] == y[j] {
        OneCutOfSentence(c, c.sentences(line)[j], x[j], y[j]);
      }
    }
  }

  lemma OneCutOfSentence(c: Config, sentence: string, x: seq<string>, y: seq<string>)
    requires Accepted(c) && OfSentence(c, sentence, x) && OfSentence(c, sentence, y)
    ensures x == y
  {
    if sentence != "" && |c.tok.encode(sentence)| > c.max {
      var n, step := |c.tok.encode(sentence)|, c.max - c.overlap;
      OneCount(n, step, c.overlap, |x| - 1, |y| - 1);
      OneCount(n, step, c.overlap, |y| - 1, |x| - 1);
    }
  }

  lemma OneCount(n: nat, step: nat, overlap: nat, a: nat, b: nat)
    requires a * step + overlap < n <= b * step + step + overlap
    ensures a <= b
  {
    assert (b + 1) * step == b * step + step;
    if b + 1 <= a {
      Product(b + 1, a, step);
    }
  }

  // ----- packing -----

  function Join(parts: seq<string>): string
    requires parts != []
  {
    if |parts| == 1 then parts[0] else Join(parts[..|parts| - 1]) + "\n" + parts[|parts| - 1]
  }

  /** The last count tokens, decoded; negative counts cannot be accepted. */
  function TrailingTokens(c: Config, text: string): string
    requires Accepted(c)
  {
    var ids := c.tok.encode(text);
    if c.overlap == 0 || ids == [] then "" else c.tok.decode(if c.overlap < |ids| then ids[|ids| - c.overlap..] else ids)
  }

  /** A chunk in the making: the text carried over, if any, and the atoms it adds. */
  datatype Piece = Piece(carry: string, run: seq<string>)

  function Parts(carry: string, run: seq<string>): seq<string> {
    if carry == "" then run else [carry] + run
  }

  function Text(p: Piece): string
    requires p.run != []
  {
    Join(Parts(p.carry, p.run))
  }

  /** What the piece after prev carries when its first atom is atom. */
  function Carry(c: Config, prev: Piece, atom: string): string
    requires Accepted(c) && prev.run != []
  {
    var carry := TrailingTokens(c, Text(prev));
    if carry != "" && Count(c, Join([carry, atom])) <= c.max then carry else ""
  }

  function Runs(pieces: seq<Piece>): seq<string> {
    if pieces == [] then [] else Runs(pieces[..|pieces| - 1]) + pieces[|pieces| - 1].run
  }

  /** The piece is within the ceiling, and was whenever an atom was added to it. */
  ghost predicate Within(c: Config, p: Piece) {
    p.run != [] && forall n :: 0 < n <= |p.run| ==> Count(c, Join(Parts(p.carry, p.run[..n]))) <= c.max
  }

  /** next begins with prev's last tokens exactly when they fit, and only because its first atom did not fit in prev. */
  ghost predicate Follows(c: Config, prev: Piece, next: Piece)
    requires Accepted(c) && prev.run != [] && next.run != []
  {
    && next.carry == Carry(c, prev, next.run[0])
    && Count(c, Join(Parts(prev.carry, prev.run + [next.run[0]]))) > c.max
  }

  /** The pieces split the atoms into consecutive nonempty runs, each as long as the ceiling lets it be. */
  ghost predicate Packed(c: Config, atoms: seq<string>, pieces: seq<Piece>)
    requires Accepted(c)
  {
    && Runs(pieces) == atoms
    && AllWithin(c, pieces)
    && (pieces != [] ==> pieces[0].carry == "")
    && Linked(c, pieces)
  }

  ghost predicate AllWithin(c: Config, pieces: seq<Piece>) {
    forall i :: 0 <= i < |pieces| ==> Within(c, pieces[i])
  }

  ghost predicate Linked(c: Config, pieces: seq<Piece>)
    requires Accepted(c) && AllWithin(c, pieces)
  {
    forall i :: 0 < i < |pieces| ==> Follows(c, pieces[i - 1], pieces[i])
  }

  /** What the last piece of a packing must be. */
  ghost predicate Continues(c: Config, front: seq<Piece>, p: Piece)
    requires Accepted(c) && AllWithin(c, front)
  {
    Within(c, p) && (front == [] ==> p.carry == "") && FollowsLast(c, front, p)
  }

  ghost predicate FollowsLast(c: Config, front: seq<Piece>, p: Piece)
    requires Accepted(c) && AllWithin(c, front) && Within(c, p)
  {
    front != [] ==> Follows(c, front[|front| - 1], p)
  }

  lemma WithinSnoc(c: Config, front: seq<Piece>, p: Piece)
    ensures AllWithin(c, front + [p]) <==> AllWithin(c, front) && Within(c, p)
  {
    var pieces := front + [p];
    assert pieces[|front|] == p;
    assert forall i :: 0 <= i < |front| ==> pieces[i] == front[i];
  }

  lemma LinkedSnoc(c: Config, front: seq<Piece>, p: Piece)
    requires Accepted(c) && AllWithin(c, front) && Within(c, p) && AllWithin(c, front + [p])
    ensures Linked(c, front + [p]) <==> Linked(c, front) && FollowsLast(c, front, p)
  {
    var pieces := front + [p];
    assert pieces[|front|] == p;
    assert forall i :: 0 <= i < |front| ==> pieces[i] == front[i];
    if Linked(c, pieces) {
      forall i | 0 < i < |front| ensures Follows(c, front[i - 1], front[i]) {
        assert Follows(c, pieces[i - 1], pieces[i]);
      }
      if front != [] {
        assert Follows(c, pieces[|front| - 1], pieces[|front|]);
      }
    }
  }

  /** A packing is a packing and one more piece that continues it. */
  lemma PackedSnoc(c: Config, front: seq<Piece>, p: Piece)
    requires Accepted(c)
    ensures Packed(c, Runs(front) + p.run, front + [p]) <==>
      Packed(c, Runs(front), front) && Continues(c, front, p)
  {
    RunsSnoc(front, p);
    WithinSnoc(c, front, p);
    if AllWithin(c, front + [p]) {
      LinkedSnoc(c, front, p);
      FirstOf(front, p);
    }
  }

  lemma FirstOf(front: seq<Piece>, p: Piece)
    ensures (front + [p])[0] == if front == [] then p else front[0]
  {
  }

  /** The step of the loop: the atom joins the last piece if it fits and starts another if not. */
  function AddAtom(c: Config, pieces: seq<Piece>, atom: string): (r: seq<Piece>)
    requires Accepted(c) && forall i :: 0 <= i < |pieces| ==> pieces[i].run != []
    ensures r != [] && forall i :: 0 <= i < |r| ==> r[i].run != []
  {
    if pieces == [] then [Piece("", [atom])]
    else
      var front, last := pieces[..|pieces| - 1], pieces[|pieces| - 1];
      if Count(c, Join(Parts(last.carry, last.run + [atom]))) > c.max then pieces + [Piece(Carry(c, last, atom), [atom])]
      else front + [Piece(last.carry, last.run + [atom])]
  }

  function Pack(c: Config, atoms: seq<string>): (r: seq<Piece>)
    requires Accepted(c)
    ensures forall i :: 0 <= i < |r| ==> r[i].run != []
    ensures r == [] <==> atoms == []
  {
    if atoms == [] then [] else AddAtom(c, Pack(c, atoms[..|atoms| - 1]), atoms[|atoms| - 1])
  }

  lemma ExtendedWithin(c: Config, p: Piece, atom: string)
    requires Within(c, p) && Count(c, Join(Parts(p.carry, p.run + [atom]))) <= c.max
    ensures Within(c, Piece(p.carry, p.run + [atom]))
  {
    var run := p.run + [atom];
    forall n | 0 < n <= |run| ensures Count(c, Join(Parts(p.carry, run[..n]))) <= c.max {
      assert run[..n] == if n == |run| then run else p.run[..n];
    }
  }

  lemma StartedWithin(c: Config, carry: string, atom: string)
    requires Count(c, atom) <= c.max && (carry != "" ==> Count(c, Join([carry, atom])) <= c.max)
    ensures Within(c, Piece(carry, [atom]))
  {
    assert [carry] + [atom] == [carry, atom];
    assert [atom][..1] == [atom];
  }

  lemma PackSnoc(c: Config, front: seq<string>, atom: string)
    requires Accepted(c)
    ensures Pack(c, front + [atom]) == AddAtom(c, Pack(c, front), atom)
  {
    assert (front + [atom])[..|front|] == front;
  }

  /** Packing a fitting sequence of atoms meets the specification. */
  lemma {:induction false} PackIsPacked(c: Config, atoms: seq<string>)
    requires Accepted(c) && Fits(c, atoms)
    ensures Packed(c, atoms, Pack(c, atoms))
  {
    if atoms != [] {
      var front, atom := atoms[..|atoms| - 1], atoms[|atoms| - 1];
      assert front + [atom] == atoms && atom in atoms;
      PackIsPacked(c, front);
      PackSnoc(c, front, atom);
      AddAtomKeepsPacked(c, front, Pack(c, front), atom);
    }
  }

  lemma AddAtomKeepsPacked(c: Config, atoms: seq<string>, pieces: seq<Piece>, atom: string)
    requires Accepted(c) && Packed(c, atoms, pieces) && Count(c, atom) <= c.max
    ensures Packed(c, atoms + [atom], AddAtom(c, pieces, atom))
  {
    if pieces == [] {
      StartedWithin(c, "", atom);
      RunsSnoc([], Piece("", [atom]));
    } else {
      var last := pieces[|pieces| - 1];
      assert Within(c, last);
      if Count(c, Join(Parts(last.carry, last.run + [atom]))) > c.max {
        NewPieceKeepsPacked(c, atoms, pieces, atom);
      } else {
        assert pieces == pieces[..|pieces| - 1] + [last];
        LongerPieceKeepsPacked(c, atoms, pieces[..|pieces| - 1], last, atom);
      }
    }
  }

  lemma NewPieceKeepsPacked(c: Config, atoms: seq<string>, pieces: seq<Piece>, atom: string)
    requires Accepted(c) && Packed(c, atoms, pieces) && Count(c, atom) <= c.max && pieces != []
    requires var last := pieces[|pieces| - 1];
      last.run != [] && Count(c, Join(Parts(last.carry, last.run + [atom]))) > c.max
    ensures Packed(c, atoms + [atom], pieces + [Piece(Carry(c, pieces[|pieces| - 1], atom), [atom])])
  {
    var next := Piece(Carry(c, pieces[|pieces| - 1], atom), [atom]);
    StartedWithin(c, next.carry, atom);
    PackedSnoc(c, pieces, next);
  }

  lemma LongerPieceKeepsPacked(c: Config, atoms: seq<string>, front: seq<Piece>, last: Piece, atom: string)
    requires Accepted(c) && Packed(c, atoms, front + [last]) && last.run != []
    requires Count(c, Join(Parts(last.carry, last.run + [atom]))) <= c.max
    ensures Packed(c, atoms + [atom], front + [Piece(last.carry, last.run + [atom])])
  {
    var longer := Piece(last.carry, last.run + [atom]);
    RunsSnoc(front, last);
    PackedSnoc(c, front, last);
    LongerContinues(c, front, last, atom);
    PackedSnoc(c, front, longer);
    assert Runs(front) + longer.run == atoms + [atom];
  }

  lemma LongerContinues(c: Config, front: seq<Piece>, last: Piece, atom: string)
    requires Accepted(c) && AllWithin(c, front) && Continues(c, front, last)
    requires Count(c, Join(Parts(last.carry, last.run + [atom]))) <= c.max
    ensures Continues(c, front, Piece(last.carry, last.run + [atom]))
  {
    ExtendedWithin(c, last, atom);
    assert (last.run + [atom])[0] == last.run[0];
  }

  lemma LastAlone(c: Config, front: seq<Piece>, carry: string, atom: string)
    requires Accepted(c) && Packed(c, Runs(front) + [atom], front + [Piece(carry, [atom])])
    ensures Packed(c, Runs(front), front)
    ensures AddAtom(c, front, atom) == front + [Piece(carry, [atom])]
  {
    PackedSnoc(c, front, Piece(carry, [atom]));
  }

  lemma RunsSnoc(front: seq<Piece>, p: Piece)
    ensures Runs(front + [p]) == Runs(front) + p.run
  {
    assert (front + [p])[..|front|] == front;
  }

  lemma ShorterWithin(c: Config, carry: string, run: seq<string>, atom: string)
    requires Within(c, Piece(carry, run + [atom])) && run != []
    ensures Within(c, Piece(carry, run)) && Count(c, Join(Parts(carry, run + [atom]))) <= c.max
  {
    var longer := run + [atom];
    assert longer[..|longer|] == longer;
    forall n | 0 < n <= |run| ensures run[..n] == longer[..n] {
    }
  }

  lemma LastShared(c: Config, front: seq<Piece>, carry: string, run: seq<string>, atom: string)
    requires Accepted(c) && run != [] && Packed(c, Runs(front) + run + [atom], front + [Piece(carry, run + [atom])])
    ensures Packed(c, Runs(front) + run, front + [Piece(carry, run)])
    ensures AddAtom(c, front + [Piece(carry, run)], atom) == front + [Piece(carry, run + [atom])]
  {
    var longer, shorter := Piece(carry, run + [atom]), Piece(carry, run);
    assert Runs(front) + run + [atom] == Runs(front) + longer.run;
    PackedSnoc(c, front, longer);
    ShorterWithin(c, carry, run, atom);
    assert longer.run[0] == run[0];
    PackedSnoc(c, front, shorter);
    assert (front + [shorter])[..|front|] == front;
  }

  lemma LastAtom(c: Config, pieces: seq<Piece>) returns (front: seq<Piece>, carry: string, run: seq<string>, atom: string)
    requires pieces != [] && Within(c, pieces[|pieces| - 1])
    ensures pieces == front + [Piece(carry, run + [atom])] && Runs(pieces) == Runs(front) + run + [atom]
    ensures run == [] ==> pieces == front + [Piece(carry, [atom])] && Runs(pieces) == Runs(front) + [atom]
  {
    var last := pieces[|pieces| - 1];
    front, carry, run, atom := pieces[..|pieces| - 1], last.carry, last.run[..|last.run| - 1], last.run[|last.run| - 1];
    assert last.run == run + [atom];
    assert run == [] ==> last.run == [atom];
  }

  /** And nothing else meets it. */
  lemma {:induction false} PackedIsPack(c: Config, atoms: seq<string>, pieces: seq<Piece>)
    requires Accepted(c) && Packed(c, atoms, pieces)
    ensures pieces == Pack(c, atoms)
    decreases |atoms|
  {
    if pieces != [] {
      var front, carry, run, atom := LastAtom(c, pieces);
      if run == [] {
        LastAlone(c, front, carry, atom);
        PackedIsPack(c, Runs(front), front);
        PackSnoc(c, Runs(front), atom);
      } else {
        LastShared(c, front, carry, run, atom);
        PackedIsPack(c, Runs(front) + run, front + [Piece(carry, run)]);
        PackSnoc(c, Runs(front) + run, atom);
      }
    }
  }

  // ----- chunks -----

  datatype Section = Section(name: string, title: string, part: Option<string>, itemNumber: string, text: string)

  datatype Chunk = Chunk(text: string, sectionName: string, sectionTitle: string, chunkIndex: nat, tokenCount: nat,
                         part: Option<string>, itemNumber: string)

  function ChunkOf(c: Config, s: Section, p: Piece, i: nat): Chunk
    requires p.run != []
  {
    Chunk(Text(p), s.name, s.title, i, Count(c, Text(p)), s.part, s.itemNumber)
  }

  /** How many pieces are emitted: the last only when it has more than 20 tokens. */
  function Emitted(c: Config, pieces: seq<Piece>): nat
    requires forall i :: 0 <= i < |pieces| ==> pieces[i].run != []
  {
    if pieces == [] || Count(c, Text(pieces[|pieces| - 1])) > 20 then |pieces| else |pieces| - 1
  }

  function Emit(c: Config, s: Section, pieces: seq<Piece>): seq<Chunk>
    requires forall i :: 0 <= i < |pieces| ==> pieces[i].run != []
  {
    seq(Emitted(c, pieces), i requires 0 <= i < Emitted(c, pieces) => ChunkOf(c, s, pieces[i], i))
  }

  function ChunksOf(c: Config, s: Section): seq<Chunk>
    requires Accepted(c)
  {
    Emit(c, s, Pack(c, AtomsOf(c, s.text)))
  }

  function AllChunks(c: Config, sections: seq<Section>): seq<Chunk>
    requires Accepted(c)
  {
    FlatMap(sections, s => ChunksOf(c, s))
  }

  /** None where the source raises ValueError. */
  method ChunkSections(c: Config, sections: seq<Section>) returns (result: Option<seq<Chunk>>)
    ensures result.Some? <==> 0 <= c.overlap < c.max
    ensures result.Some? ==> result.value == AllChunks(c, sections)
  {
    if !(0 <= c.overlap < c.max) {
      return None;
    }
    var allChunks: seq<Chunk> := [];
    for i := 0 to |sections|
      invariant allChunks == AllChunks(c, sections[..i])
    {
      assert sections[..i + 1][..i] == sections[..i];
      var chunks := ChunkSection(c, sections[i]);
      allChunks := allChunks + chunks;
    }
    assert sections[..|sections|] == sections;
    result := Some(allChunks);
  }

  /** buffer holds the parts of the last piece; the pieces before it have been emitted. */
  ghost predicate Mirrors(c: Config, s: Section, pieces: seq<Piece>, buffer: seq<string>, chunks: seq<Chunk>) {
    && (forall i :: 0 <= i < |pieces| ==> pieces[i].run != [])
    && (if pieces == [] then buffer == [] else buffer == Parts(pieces[|pieces| - 1].carry, pieces[|pieces| - 1].run))
    && |chunks| == (if pieces == [] then 0 else |pieces| - 1)
    && forall i :: 0 <= i < |chunks| ==> chunks[i] == ChunkOf(c, s, pieces[i], i)
  }

  lemma MirrorsStarted(c: Config, s: Section, pieces: seq<Piece>, buffer: seq<string>, chunks: seq<Chunk>, atom: string)
    requires Accepted(c) && Mirrors(c, s, pieces, buffer, chunks)
    requires buffer != [] && Count(c, Join(buffer + [atom])) > c.max
    ensures var last := pieces[|pieces| - 1];
      && Join(buffer) == Text(last)
      && Mirrors(c, s, AddAtom(c, pieces, atom), Parts(Carry(c, last, atom), [atom]), chunks + [ChunkOf(c, s, last, |chunks|)])
  {
    var last := pieces[|pieces| - 1];
    assert Parts(last.carry, last.run + [atom]) == buffer + [atom];
    assert AddAtom(c, pieces, atom) == pieces + [Piece(Carry(c, last, atom), [atom])];
    EmitsOneMore(c, s, pieces, chunks, Piece(Carry(c, last, atom), [atom]));
  }

  lemma EmitsOneMore(c: Config, s: Section, pieces: seq<Piece>, chunks: seq<Chunk>, next: Piece)
    requires next.run != [] && pieces != [] && |chunks| == |pieces| - 1
    requires forall i :: 0 <= i < |pieces| ==> pieces[i].run != []
    requires forall i :: 0 <= i < |chunks| ==> chunks[i] == ChunkOf(c, s, pieces[i], i)
    ensures Mirrors(c, s, pieces + [next], Parts(next.carry, next.run), chunks + [ChunkOf(c, s, pieces[|pieces| - 1], |chunks|)])
  {
  }

  lemma MirrorsGrown(c: Config, s: Section, pieces: seq<Piece>, buffer: seq<string>, chunks: seq<Chunk>, atom: string)
    requires Accepted(c) && Mirrors(c, s, pieces, buffer, chunks)
    requires buffer == [] || Count(c, Join(buffer + [atom])) <= c.max
    ensures Mirrors(c, s, AddAtom(c, pieces, atom), buffer + [atom], chunks)
  {
    if pieces != [] {
      var last := pieces[|pieces| - 1];
      assert Parts(last.carry, last.run + [atom]) == buffer + [atom];
    }
  }

  lemma MirrorsDone(c: Config, s: Section, pieces: seq<Piece>, buffer: seq<string>, chunks: seq<Chunk>)
    requires Mirrors(c, s, pieces, buffer, chunks)
    ensures Emit(c, s, pieces) ==
      if buffer == [] || Count(c, Join(buffer)) <= 20 then chunks
      else chunks + [Chunk(Join(buffer), s.name, s.title, |chunks|, Count(c, Join(buffer)), s.part, s.itemNumber)]
  {
    if pieces != [] {
      var last := pieces[|pieces| - 1];
      assert buffer != [] && Text(last) == Join(buffer);
    }
  }

  lemma PackNext(c: Config, atoms: seq<string>, n: nat)
    requires Accepted(c) && n < |atoms|
    ensures Pack(c, atoms[..n + 1]) == AddAtom(c, Pack(c, atoms[..n]), atoms[n])
  {
    assert atoms[..n + 1] == atoms[..n] + [atoms[n]];
    PackSnoc(c, atoms[..n], atoms[n]);
  }

  lemma NothingMirrored(c: Config, s: Section)
    ensures Mirrors(c, s, [], [], [])
  {
  }

  method ChunkSection(c: Config, s: Section) returns (chunks: seq<Chunk>)
    requires Accepted(c)
    ensures chunks == ChunksOf(c, s)
  {
    var atoms := Atoms(c, s.text);
    var buffer, emitted := BufferAtoms(c, s, atoms);
    chunks := EmitLast(c, s, buffer, emitted, Pack(c, atoms));
  }

  /** The loop over atoms. */
  method BufferAtoms(c: Config, s: Section, atoms: seq<string>) returns (buffer: seq<string>, chunks: seq<Chunk>)
    requires Accepted(c)
    ensures Mirrors(c, s, Pack(c, atoms), buffer, chunks)
  {
    buffer, chunks := [], [];
    ghost var pieces := Pack(c, atoms[..0]);
    NothingMirrored(c, s);
    for n := 0 to |atoms|
      invariant pieces == Pack(c, atoms[..n]) && Mirrors(c, s, pieces, buffer, chunks)
    {
      PackNext(c, atoms, n);
      buffer, chunks := BufferAtom(c, s, buffer, chunks, atoms[n], pieces);
      pieces := AddAtom(c, pieces, atoms[n]);
    }
    assert atoms[..|atoms|] == atoms;
  }

  /** What follows the loop. */
  method EmitLast(c: Config, s: Section, buffer: seq<string>, chunks: seq<Chunk>, ghost pieces: seq<Piece>)
    returns (r: seq<Chunk>)
    requires Mirrors(c, s, pieces, buffer, chunks)
    ensures r == Emit(c, s, pieces)
  {
    MirrorsDone(c, s, pieces, buffer, chunks);
    r := chunks;
    if buffer != [] {
      var text := Join(buffer);
      if Count(c, text) > 20 {
        r := chunks + [Chunk(text, s.name, s.title, |chunks|, Count(c, text), s.part, s.itemNumber)];
      }
    }
  }

  /** The body of the loop over atoms. */
  method BufferAtom(c: Config, s: Section, buffer: seq<string>, chunks: seq<Chunk>, atom: string, ghost pieces: seq<Piece>)
    returns (buffer': seq<string>, chunks': seq<Chunk>)
    requires Accepted(c) && Mirrors(c, s, pieces, buffer, chunks)
    ensures Mirrors(c, s, AddAtom(c, pieces, atom), buffer', chunks')
  {
    buffer', chunks' := buffer, chunks;
    if buffer != [] && Count(c, Join(buffer + [atom])) > c.max {
      MirrorsStarted(c, s, pieces, buffer, chunks, atom);
      var text := Join(buffer);
      chunks' := chunks + [Chunk(text, s.name, s.title, |chunks|, Count(c, text), s.part, s.itemNumber)];
      var carry := TrailingTokens(c, text);
      buffer' := if carry != "" && Count(c, Join([carry, atom])) <= c.max then [carry] else [];
      assert buffer' + [atom] == Parts(Carry(c, pieces[|pieces| - 1], atom), [atom]);
    } else {
      MirrorsGrown(c, s, pieces, buffer, chunks, atom);
    }
    buffer' := buffer' + [atom];
  }

  /** Every chunk of a section, numbered from 0, is the text of one piece of a packing of the section's atoms. */
  ghost predicate Describes(c: Config, s: Section, pieces: seq<Piece>, chunks: seq<Chunk>)
    requires Accepted(c)
  {
    && (exists blocks :: OfText(c, s.text, blocks) && Packed(c, Concat(Concat(blocks)), pieces))
    && |chunks| <= |pieces| <= |chunks| + 1
    && (forall i :: 0 <= i < |chunks| ==>
          && pieces[i].run != [] && chunks[i].text == Join(Parts(pieces[i].carry, pieces[i].run))
          && chunks[i].sectionName == s.name && chunks[i].sectionTitle == s.title
          && chunks[i].part == s.part && chunks[i].itemNumber == s.itemNumber && chunks[i].chunkIndex == i
          && chunks[i].tokenCount == |c.tok.encode(chunks[i].text)| <= c.max)
    && (|pieces| == |chunks| + 1 ==> pieces[|chunks|].run != [] && Count(c, Text(pieces[|chunks|])) <= 20)
    && (|pieces| == |chunks| && pieces != [] ==> chunks[|chunks| - 1].tokenCount > 20)
  }

  /**
   The chunks of a section are the pieces of the one way its lines, sentences and windows can be packed:
   nothing is lost except possibly one final piece of at most 20 tokens, and no chunk is over the ceiling.
   */
  lemma SectionChunked(c: Config, s: Section)
    requires Accepted(c) && Lawful(c.tok)
    ensures Describes(c, s, Pack(c, AtomsOf(c, s.text)), ChunksOf(c, s))
    ensures forall pieces :: Packed(c, AtomsOf(c, s.text), pieces) ==> pieces == Pack(c, AtomsOf(c, s.text))
  {
    var atoms := AtomsOf(c, s.text);
    AtomsFit(c, s.text);
    AtomsAreTheText(c, s.text);
    PackIsPacked(c, atoms);
    var pieces, chunks := Pack(c, atoms), ChunksOf(c, s);
    forall i | 0 <= i < |pieces| ensures Count(c, Text(pieces[i])) <= c.max {
      assert Within(c, pieces[i]);
      assert pieces[i].run[..|pieces[i].run|] == pieces[i].run;
    }
    forall p | Packed(c, atoms, p) ensures p == pieces {
      PackedIsPack(c, atoms, p);
    }
  }

  /** Sections are chunked one after another, each on its own. */
  lemma SectionsInOrder(c: Config, a: seq<Section>, b: seq<Section>, s: Section)
    requires Accepted(c)
    ensures AllChunks(c, a + [s] + b) == AllChunks(c, a) + ChunksOf(c, s) + AllChunks(c, b)
    ensures AllChunks(c, []) == []
  {
    FlatMapSum(a + [s], b, (x: Section) => ChunksOf(c, x));
    assert (a + [s])[..|a|] == a;
  }

  /** What is carried over is the text of the chunk's last overlap tokens, or of all it has. */
  lemma TrailingTokensAre(c: Config, text: string)
    requires Accepted(c) && Lawful(c.tok)
    ensures exists front, tail ::
      && c.tok.encode(text) == front + tail && |tail| == Min(c.overlap, |c.tok.encode(text)|)
      && TrailingTokens(c, text) == c.tok.decode(tail) && text == c.tok.decode(front) + TrailingTokens(c, text)
  {
    var ids := c.tok.encode(text);
    var n := Min(c.overlap, |ids|);
    var front, tail := ids[..|ids| - n], ids[|ids| - n..];
    assert ids == front + tail;
    DecodesNothing(c.tok);
    if n == 0 {
      assert tail == [];
    }
  }

  lemma DecodesNothing(tok: Tokenizer)
    requires Lawful(tok)
    ensures tok.decode([]) == ""
  {
    var none: seq<nat> := [];
    assert tok.decode(none + none) == tok.decode(none) + tok.decode(none);
    assert none + none == none;
  }

  /**
   A chunk ends only where its next atom would not fit, and the next chunk begins with its last overlap
   tokens exactly when they fit with that atom.
   */
  lemma OverlapWhenItFits(c: Config, s: Section, i: nat)
    requires Accepted(c) && Lawful(c.tok) && i + 1 < |ChunksOf(c, s)|
    ensures var run := Pack(c, AtomsOf(c, s.text))[i + 1].run;
      var tail := TrailingTokens(c, ChunksOf(c, s)[i].text);
      && run != []
      && |c.tok.encode(ChunksOf(c, s)[i].text + "\n" + run[0])| > c.max
      && (if tail != "" && |c.tok.encode(tail + "\n" + run[0])| <= c.max
          then ChunksOf(c, s)[i + 1].text == tail + "\n" + Join(run)
          else ChunksOf(c, s)[i + 1].text == Join(run))
  {
    SectionChunked(c, s);
    var pieces := Pack(c, AtomsOf(c, s.text));
    assert Follows(c, pieces[i], pieces[i + 1]);
    FollowsInText(c, pieces[i], pieces[i + 1]);
  }

  lemma FollowsInText(c: Config, prev: Piece, next: Piece)
    requires Accepted(c) && prev.run != [] && next.run != [] && Follows(c, prev, next)
    ensures var tail := TrailingTokens(c, Text(prev));
      && Count(c, Text(prev) + "\n" + next.run[0]) > c.max
      && Text(next) == if tail != "" && Count(c, tail + "\n" + next.run[0]) <= c.max
                       then tail + "\n" + Join(next.run) else Join(next.run)
  {
    var tail, atom := TrailingTokens(c, Text(prev)), next.run[0];
    JoinCarry(next.carry, next.run);
    JoinSnoc([tail], atom);
    assert [tail] + [atom] == [tail, atom];
    JoinSnoc(Parts(prev.carry, prev.run), atom);
    assert Parts(prev.carry, prev.run + [atom]) == Parts(prev.carry, prev.run) + [atom];
  }

  /** Joined parts are set apart by one line break each. */
  lemma JoinSnoc(parts: seq<string>, last: string)
    requires parts != []
    ensures Join(parts + [last]) == Join(parts) + "\n" + last && Join([last]) == last
  {
    assert (parts + [last])[..|parts|] == parts;
  }

  lemma {:induction false} JoinCarry(carry: string, run: seq<string>)
    requires run != []
    ensures Join([carry] + run) == carry + "\n" + Join(run)
  {
    var parts := [carry] + run;
    if |run| == 1 {
      assert parts[..1] == [carry];
    } else {
      assert parts[..|parts| - 1] == [carry] + run[..|run| - 1];
      JoinCarry(carry, run[..|run| - 1]);
    }
  }
}

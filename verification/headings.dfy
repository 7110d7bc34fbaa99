/**
 Which of a filing's repeated item headings begins its section (the selection inside
 parse_filing_html, src/finvet/rag/parser.py). The document is the length of the text of each node, in
 document order; tags and blanks have length 0.
 */
module Headings {
  import opened Wrappers

  /** A heading candidate: the position of its tag and what it announces. */
  datatype Heading = Heading(position: nat, part: Option<string>, item: string, title: string)

  type Key = (Option<string>, string)

  /** A 10-Q repeats item numbers across its parts. */
  function KeyOf(h: Heading, is10Q: bool): Key {
    (if is10Q then h.part else None, h.item)
  }

  /** Two headings compete exactly when their items are one and, in a 10-Q, so are their parts. */
  lemma PartsSeparate10Q(a: Heading, b: Heading, is10Q: bool)
    ensures KeyOf(a, is10Q) == KeyOf(b, is10Q) <==> a.item == b.item && (is10Q ==> a.part == b.part)
  {
  }

  function Total(lengths: seq<nat>): nat {
    if lengths == [] then 0 else Total(lengths[..|lengths| - 1]) + lengths[|lengths| - 1]
  }

  lemma {:induction false} TotalSum(a: seq<nat>, b: seq<nat>)
    ensures Total(a + b) == Total(a) + Total(b)
    ensures forall n: nat :: Total([n]) == n
  {
    if b == [] {
      assert a + b == a;
    } else {
      assert (a + b)[..|a + b| - 1] == a + b[..|b| - 1];
      TotalSum(a, b[..|b| - 1]);
    }
  }

  lemma TotalBetween(lengths: seq<nat>, i: nat, j: nat)
    requires i <= j <= |lengths|
    ensures Total(lengths[..j]) == Total(lengths[..i]) + Total(lengths[i..j])
  {
    assert lengths[..j] == lengths[..i] + lengths[i..j];
    TotalSum(lengths[..i], lengths[i..j]);
  }

  /** Candidates come from one pass over the document. */
  predicate InOrder(hs: seq<Heading>, lengths: seq<nat>) {
    && (forall i :: 0 <= i < |hs| ==> hs[i].position < |lengths|)
    && (forall i, j :: 0 <= i < j < |hs| ==> hs[i].position < hs[j].position)
  }

  /** Where candidate i's text stops: at the next candidate or the end of the document. */
  function Stop(hs: seq<Heading>, lengths: seq<nat>, i: nat): nat
    requires i < |hs|
  {
    if i + 1 < |hs| then hs[i + 1].position else |lengths|
  }

  /** The amount of text between candidate i and the next one. */
  function Span(hs: seq<Heading>, lengths: seq<nat>, i: nat): nat
    requires InOrder(hs, lengths) && i < |hs|
  {
    Total(lengths[hs[i].position..Stop(hs, lengths, i)])
  }

  function SumOfSpans(hs: seq<Heading>, lengths: seq<nat>, n: nat): nat
    requires InOrder(hs, lengths) && n <= |hs|
  {
    if n == 0 then 0 else SumOfSpans(hs, lengths, n - 1) + Span(hs, lengths, n - 1)
  }

  /** The spans divide the text from the first candidate to the end of the document. */
  lemma {:induction false} SpansDivideText(hs: seq<Heading>, lengths: seq<nat>, n: nat)
    requires InOrder(hs, lengths) && 0 < n <= |hs|
    ensures hs[0].position <= Stop(hs, lengths, n - 1)
    ensures SumOfSpans(hs, lengths, n) == Total(lengths[hs[0].position..Stop(hs, lengths, n - 1)])
  {
    if n > 1 {
      SpansDivideText(hs, lengths, n - 1);
      var a, b, c := hs[0].position, hs[n - 1].position, Stop(hs, lengths, n - 1);
      assert lengths[a..c] == lengths[a..b] + lengths[b..c];
      TotalSum(lengths[a..b], lengths[b..c]);
    }
  }

  function Keys(hs: seq<Heading>, is10Q: bool): seq<Key> {
    seq(|hs|, i requires 0 <= i < |hs| => KeyOf(hs[i], is10Q))
  }

  function Spans(hs: seq<Heading>, lengths: seq<nat>): seq<nat>
    requires InOrder(hs, lengths)
  {
    seq(|hs|, i requires 0 <= i < |hs| => Span(hs, lengths, i))
  }

  /** Among the first n candidates, w has the largest span under its key and is the first that does. */
  ghost predicate Wins(keys: seq<Key>, spans: seq<nat>, n: nat, w: nat)
    requires n <= |keys| == |spans|
  {
    w < n && forall j :: 0 <= j < n && keys[j] == keys[w] ==> spans[j] < spans[w] || (spans[j] == spans[w] && w <= j)
  }

  method PrefixSums(lengths: seq<nat>) returns (textBefore: array<nat>)
    ensures fresh(textBefore) && textBefore.Length == |lengths| + 1
    ensures forall i :: 0 <= i <= |lengths| ==> textBefore[i] == Total(lengths[..i])
  {
    textBefore := new nat[|lengths| + 1](_ => 0);
    for i := 0 to |lengths|
      invariant forall j :: 0 <= j <= i ==> textBefore[j] == Total(lengths[..j])
    {
      assert lengths[..i + 1][..i] == lengths[..i];
      textBefore[i + 1] := textBefore[i] + lengths[i];
    }
  }

  /** The indices of the headings kept, in document order. */
  method SelectHeadings(hs: seq<Heading>, lengths: seq<nat>, is10Q: bool) returns (kept: seq<nat>)
    requires InOrder(hs, lengths)
    ensures forall i, j :: 0 <= i < j < |kept| ==> kept[i] < kept[j]
    ensures forall w: nat :: w in kept <==> Wins(Keys(hs, is10Q), Spans(hs, lengths), |hs|, w)
  {
    var best := BestHeadings(hs, lengths, is10Q);
    kept := KeepBest(hs, is10Q, best, Spans(hs, lengths));
  }

  /** The values of the dictionary sorted by index. */
  method KeepBest(hs: seq<Heading>, is10Q: bool, best: map<Key, (nat, nat)>, ghost spans: seq<nat>) returns (kept: seq<nat>)
    requires |hs| == |spans| && Best(Keys(hs, is10Q), spans, |hs|, best)
    ensures forall i, j :: 0 <= i < j < |kept| ==> kept[i] < kept[j]
    ensures forall w: nat :: w in kept <==> Wins(Keys(hs, is10Q), spans, |hs|, w)
  {
    ghost var keys := Keys(hs, is10Q);
    kept := [];
    for i := 0 to |hs|
      invariant forall a :: 0 <= a < |kept| ==> kept[a] < i
      invariant forall a, b :: 0 <= a < b < |kept| ==> kept[a] < kept[b]
      invariant forall w: nat :: w in kept <==> w < i && Wins(keys, spans, |hs|, w)
    {
      WinsIffBest(keys, spans, best, i);
      if best[KeyOf(hs[i], is10Q)].1 == i {
        kept := kept + [i];
      }
    }
  }

  lemma WinsIffBest(keys: seq<Key>, spans: seq<nat>, best: map<Key, (nat, nat)>, i: nat)
    requires i < |keys| == |spans| && Best(keys, spans, |keys|, best)
    ensures keys[i] in best && (best[keys[i]].1 == i <==> Wins(keys, spans, |keys|, i))
  {
  }

  /** The dictionary from keys to the span and index of the best candidate so far. */
  method BestHeadings(hs: seq<Heading>, lengths: seq<nat>, is10Q: bool) returns (best: map<Key, (nat, nat)>)
    requires InOrder(hs, lengths)
    ensures Best(Keys(hs, is10Q), Spans(hs, lengths), |hs|, best)
  {
    var textBefore := PrefixSums(lengths);
    ghost var keys, spans := Keys(hs, is10Q), Spans(hs, lengths);
    best := map[];
    for i := 0 to |hs|
      invariant Best(keys, spans, i, best)
      invariant forall j :: 0 <= j <= |lengths| ==> textBefore[j] == Total(lengths[..j])
    {
      var span := SpanFromSums(hs, lengths, textBefore, i);
      var key := KeyOf(hs[i], is10Q);
      BestStep(keys, spans, i, best);
      if key !in best || span > best[key].0 {
        best := best[key := (span, i)];
      }
    }
  }

  /** One subtraction. */
  method SpanFromSums(hs: seq<Heading>, lengths: seq<nat>, textBefore: array<nat>, i: nat) returns (span: nat)
    requires InOrder(hs, lengths) && i < |hs| && textBefore.Length == |lengths| + 1
    requires forall j :: 0 <= j <= |lengths| ==> textBefore[j] == Total(lengths[..j])
    ensures span == Span(hs, lengths, i)
  {
    var start, stop := hs[i].position, if i + 1 < |hs| then hs[i + 1].position else |lengths|;
    TotalBetween(lengths, start, stop);
    var between: int := textBefore[stop] - textBefore[start];
    span := if between > 0 then between else 0;
  }

  /** best gives each key seen among the first n candidates its winner there. */
  ghost predicate Best(keys: seq<Key>, spans: seq<nat>, n: nat, best: map<Key, (nat, nat)>)
    requires n <= |keys| == |spans|
  {
    && (forall i :: 0 <= i < n ==> keys[i] in best)
    && (forall k :: k in best ==> Wins(keys, spans, n, best[k].1) && keys[best[k].1] == k && best[k].0 == spans[best[k].1])
  }

  lemma BestStep(keys: seq<Key>, spans: seq<nat>, n: nat, best: map<Key, (nat, nat)>)
    requires n < |keys| == |spans| && Best(keys, spans, n, best)
    ensures Best(keys, spans, n + 1,
                 if keys[n] !in best || spans[n] > best[keys[n]].0 then best[keys[n] := (spans[n], n)] else best)
  {
  }

  lemma {:induction false} SomeWinner(keys: seq<Key>, spans: seq<nat>, n: nat, i: nat) returns (w: nat)
    requires i < n <= |keys| == |spans|
    ensures Wins(keys, spans, n, w) && keys[w] == keys[i]
  {
    if j :| 0 <= j < n - 1 && keys[j] == keys[i] {
      w := SomeWinner(keys, spans, n - 1, j);
      if keys[n - 1] == keys[i] && spans[n - 1] > spans[w] {
        w := n - 1;
      }
    } else {
      w := i;
    }
  }

  /** Every key has a winner, and only one. */
  lemma OneWinnerPerKey(keys: seq<Key>, spans: seq<nat>, i: nat) returns (w: nat)
    requires i < |keys| == |spans|
    ensures Wins(keys, spans, |keys|, w) && keys[w] == keys[i]
    ensures forall v: nat :: Wins(keys, spans, |keys|, v) && keys[v] == keys[i] ==> v == w
  {
    w := SomeWinner(keys, spans, |keys|, i);
  }

  /** Where the section of the k-th kept heading ends: at the next kept heading or the end of the document. */
  function SectionEnd(hs: seq<Heading>, lengths: seq<nat>, kept: seq<nat>, k: nat): nat
    requires k < |kept| && forall i :: 0 <= i < |kept| ==> kept[i] < |hs|
  {
    if k + 1 < |kept| then hs[kept[k + 1]].position else |lengths|
  }

  /**
   The intervals of consecutive kept headings are disjoint and in document order, and each holds at least
   the text its heading won by.
   */
  lemma SectionsAreDisjoint(hs: seq<Heading>, lengths: seq<nat>, kept: seq<nat>, k: nat)
    requires InOrder(hs, lengths) && k < |kept|
    requires forall i, j :: 0 <= i < j < |kept| ==> kept[i] < kept[j]
    requires forall i :: 0 <= i < |kept| ==> kept[i] < |hs|
    ensures hs[kept[k]].position < SectionEnd(hs, lengths, kept, k) <= |lengths|
    ensures forall l :: k < l < |kept| ==> SectionEnd(hs, lengths, kept, k) <= hs[kept[l]].position
    ensures Total(lengths[hs[kept[k]].position..SectionEnd(hs, lengths, kept, k)]) >= Span(hs, lengths, kept[k])
  {
    var a, b, c := hs[kept[k]].position, Stop(hs, lengths, kept[k]), SectionEnd(hs, lengths, kept, k);
    assert b <= c;
    assert lengths[a..c] == lengths[a..b] + lengths[b..c];
    TotalSum(lengths[a..b], lengths[b..c]);
  }
}

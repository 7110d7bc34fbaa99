/**
 Reciprocal-rank fusion of the dense and the keyword arm (rrf_component and the fusing part of
 RAGService.search, src/finvet/rag/service.py). Each arm is the list of rows its query returned, best
 first; ids are primary keys, so an arm lists an id once. Scores are real numbers.
 */
module RankFusion {
  import opened Wrappers
  import opened Sequences

  /** A row of an arm with its similarity or its text rank. */
  datatype Row = Row(id: nat, score: real)

  datatype Hit = Hit(id: nat, score: real, vectorRank: Option<nat>, keywordRank: Option<nat>)

  const RRF_K: nat := 60

  function RrfComponent(rank: Option<nat>): real {
    if rank == None then 0.0 else 1.0 / (RRF_K + rank.value) as real
  }

  ghost predicate BestFirst(rows: seq<Row>) {
    forall i, j :: 0 <= i < j < |rows| ==> rows[i].score >= rows[j].score
  }

  /** The dense rows at or above the floor. */
  function Survivors(rows: seq<Row>, floor: real): (r: seq<Row>)
    ensures |r| <= |rows|
  {
    if rows == [] then []
    else
      var front, last := Survivors(rows[..|rows| - 1], floor), rows[|rows| - 1];
      if last.score >= floor then front + [last] else front
  }

  /** The first n rows clear the floor and the rest do not. */
  ghost predicate CutAt(rows: seq<Row>, floor: real, n: nat) {
    && n <= |rows|
    && (forall i :: 0 <= i < n ==> rows[i].score >= floor)
    && (forall i :: n <= i < |rows| ==> rows[i].score < floor)
  }

  lemma CutSnoc(front: seq<Row>, last: Row, floor: real, n: nat)
    requires BestFirst(front + [last]) && CutAt(front, floor, n)
    ensures last.score >= floor ==> n == |front| && CutAt(front + [last], floor, n + 1)
    ensures last.score < floor ==> CutAt(front + [last], floor, n)
  {
    var rows := front + [last];
    assert rows[|front|] == last && forall i :: 0 <= i < |front| ==> rows[i] == front[i];
    if n < |front| {
      assert rows[n].score >= rows[|front|].score;
    }
  }

  lemma BestFirstPrefix(front: seq<Row>, last: Row)
    requires BestFirst(front + [last])
    ensures BestFirst(front)
  {
    var rows := front + [last];
    assert forall i :: 0 <= i < |front| ==> rows[i] == front[i];
  }

  /** The floor cuts the dense arm off at one place, so survivors keep the ranks they had. */
  lemma {:induction false} FloorKeepsPrefix(rows: seq<Row>, floor: real)
    requires BestFirst(rows)
    ensures var n := |Survivors(rows, floor)|;
      Survivors(rows, floor) == rows[..n] && CutAt(rows, floor, n)
  {
    if rows != [] {
      var front, last := rows[..|rows| - 1], rows[|rows| - 1];
      assert rows == front + [last];
      BestFirstPrefix(front, last);
      FloorKeepsPrefix(front, floor);
      CutSnoc(front, last, floor, |Survivors(front, floor)|);
    }
  }

  /** The 1-based position of an id. */
  function RankOf(rows: seq<Row>, id: nat): (r: Option<nat>)
    ensures r.Some? ==> 0 < r.value <= |rows| && rows[r.value - 1].id == id
    ensures r == None <==> forall i :: 0 <= i < |rows| ==> rows[i].id != id
  {
    if rows == [] then None
    else if rows[|rows| - 1].id == id then Some(|rows|)
    else RankOf(rows[..|rows| - 1], id)
  }

  function Ids(rows: seq<Row>): set<nat> {
    set i | 0 <= i < |rows| :: rows[i].id
  }

  /** Chunks that cleared an arm. */
  function Candidates(vec: seq<Row>, kw: seq<Row>): set<nat> {
    Ids(vec) + Ids(kw)
  }

  function Fused(vec: seq<Row>, kw: seq<Row>, id: nat): real {
    RrfComponent(RankOf(vec, id)) + RrfComponent(RankOf(kw, id))
  }

  /** Taking the first k, as a Python slice does; a negative k leaves out that many at the end. */
  function Taken(n: nat, k: int): (r: nat)
    ensures r <= n
  {
    if k >= n then n else if k >= 0 then k else if n + k >= 0 then n + k else 0
  }

  function HitFor(vec: seq<Row>, kw: seq<Row>, id: nat): Hit {
    Hit(id, Fused(vec, kw, id), RankOf(vec, id), RankOf(kw, id))
  }

  ghost predicate Returned(out: seq<Hit>, id: nat) {
    exists j :: 0 <= j < |out| && out[j].id == id
  }

  ghost predicate AreHits(vec: seq<Row>, kw: seq<Row>, out: seq<Hit>) {
    forall i :: 0 <= i < |out| ==> out[i].id in Candidates(vec, kw) && out[i] == HitFor(vec, kw, out[i].id)
  }

  ghost predicate Ranked(out: seq<Hit>) {
    forall i, j :: 0 <= i < j < |out| ==> out[i].id != out[j].id && out[i].score >= out[j].score
  }

  /** No chunk left out scores more than one returned. */
  ghost predicate NoneOutscored(vec: seq<Row>, kw: seq<Row>, out: seq<Hit>) {
    forall id, i :: id in Candidates(vec, kw) && !Returned(out, id) && 0 <= i < |out| ==> Fused(vec, kw, id) <= out[i].score
  }

  /** The right number of distinct candidates, best first, none outscored by one left out. */
  ghost predicate TopOf(vec: seq<Row>, kw: seq<Row>, k: int, out: seq<Hit>) {
    && |out| == Taken(|Candidates(vec, kw)|, k)
    && AreHits(vec, kw, out) && Ranked(out) && NoneOutscored(vec, kw, out)
  }

  method Ranks(rows: seq<Row>) returns (ranks: map<nat, nat>)
    ensures RanksOf(ranks, rows)
  {
    ranks := map[];
    for i := 0 to |rows|
      invariant RanksOf(ranks, rows[..i])
    {
      assert rows[..i + 1][..i] == rows[..i];
      assert Ids(rows[..i + 1]) == Ids(rows[..i]) + {rows[i].id};
      ranks := ranks[rows[i].id := i + 1];
    }
    assert rows[..|rows|] == rows;
  }

  function Get(ranks: map<nat, nat>, id: nat): Option<nat> {
    if id in ranks then Some(ranks[id]) else None
  }

  function InsertHit(s: seq<Hit>, x: Hit): (r: seq<Hit>)
    ensures multiset(r) == multiset(s) + multiset{x}
  {
    if s == [] then [x]
    else
      var last := s[|s| - 1];
      SplitLast(s);
      if x.score > last.score then InsertHit(s[..|s| - 1], x) + [last] else s + [x]
  }

  /** sort by score, reversed: stable and best first. */
  function SortHits(s: seq<Hit>): (r: seq<Hit>)
    ensures multiset(r) == multiset(s)
  {
    if s == [] then []
    else
      SplitLast(s);
      InsertHit(SortHits(s[..|s| - 1]), s[|s| - 1])
  }

  ghost predicate Descending(s: seq<Hit>) {
    forall i, j :: 0 <= i < j < |s| ==> s[i].score >= s[j].score
  }

  lemma {:induction false} InsertKeepsDescending(s: seq<Hit>, x: Hit)
    requires Descending(s)
    ensures Descending(InsertHit(s, x))
  {
    if s != [] && x.score > s[|s| - 1].score {
      var front := s[..|s| - 1];
      InsertKeepsDescending(front, x);
      var r := InsertHit(front, x);
      forall i | 0 <= i < |r| ensures r[i].score >= s[|s| - 1].score {
        assert r[i] in multiset(r);
        assert r[i] in front || r[i] == x;
      }
    }
  }

  lemma {:induction false} SortHitsDescends(s: seq<Hit>)
    ensures Descending(SortHits(s))
  {
    if s != [] {
      SortHitsDescends(s[..|s| - 1]);
      InsertKeepsDescending(SortHits(s[..|s| - 1]), s[|s| - 1]);
    }
  }

  /** Every candidate once, with its score. */
  ghost predicate ScoresAll(vec: seq<Row>, kw: seq<Row>, ids: set<nat>, scored: seq<Hit>) {
    && |scored| == |ids|
    && (forall i :: 0 <= i < |scored| ==> scored[i].id in ids && scored[i] == HitFor(vec, kw, scored[i].id))
    && (forall i, j :: 0 <= i < j < |scored| ==> scored[i].id != scored[j].id)
    && (forall id :: id in ids ==> Returned(scored, id))
  }

  lemma SortKeepsScores(vec: seq<Row>, kw: seq<Row>, ids: set<nat>, scored: seq<Hit>)
    requires ScoresAll(vec, kw, ids, scored)
    ensures ScoresAll(vec, kw, ids, SortHits(scored))
  {
    var r := SortHits(scored);
    SameMembers(r, scored);
    forall i | 0 <= i < |r| ensures r[i].id in ids && r[i] == HitFor(vec, kw, r[i].id) {
      assert r[i] in r;
    }
    forall id | id in ids ensures Returned(r, id) {
      assert Returned(scored, id);
      var j :| 0 <= j < |scored| && scored[j].id == id;
      assert scored[j] in r;
    }
    PermutedDistinct(scored, r, (h: Hit) => h.id);
  }

  lemma OmittedIsLater(vec: seq<Row>, kw: seq<Row>, ids: set<nat>, scored: seq<Hit>, n: nat, id: nat) returns (j: nat)
    requires ScoresAll(vec, kw, ids, scored) && n <= |scored| && id in ids && !Returned(scored[..n], id)
    ensures n <= j < |scored| && scored[j].score == Fused(vec, kw, id)
  {
    var out := scored[..n];
    assert Returned(scored, id);
    assert forall m :: 0 <= m < n ==> out[m] == scored[m] && Returned(out, scored[m].id);
    j :| 0 <= j < |scored| && scored[j].id == id;
    assert scored[j] == HitFor(vec, kw, id);
  }

  lemma PrefixOutscores(vec: seq<Row>, kw: seq<Row>, scored: seq<Hit>, n: nat)
    requires ScoresAll(vec, kw, Candidates(vec, kw), scored) && Descending(scored) && n <= |scored|
    ensures NoneOutscored(vec, kw, scored[..n])
  {
    var out := scored[..n];
    forall id, i | id in Candidates(vec, kw) && !Returned(out, id) && 0 <= i < |out|
      ensures Fused(vec, kw, id) <= out[i].score
    {
      var j := OmittedIsLater(vec, kw, Candidates(vec, kw), scored, n, id);
      assert scored[i].score >= scored[j].score;
    }
  }

  lemma PrefixIsTop(vec: seq<Row>, kw: seq<Row>, scored: seq<Hit>, k: int)
    requires ScoresAll(vec, kw, Candidates(vec, kw), scored) && Descending(scored)
    ensures TopOf(vec, kw, k, scored[..Taken(|scored|, k)])
  {
    PrefixOutscores(vec, kw, scored, Taken(|scored|, k));
  }

  lemma ScoreOne(vec: seq<Row>, kw: seq<Row>, ids: set<nat>, scored: seq<Hit>, id: nat, hit: Hit)
    requires ScoresAll(vec, kw, ids, scored) && id !in ids && hit == HitFor(vec, kw, id)
    ensures ScoresAll(vec, kw, ids + {id}, scored + [hit])
  {
    var longer := scored + [hit];
    assert longer[|scored|] == hit;
    forall k | k in ids ensures Returned(longer, k) {
      assert Returned(scored, k);
      var j :| 0 <= j < |scored| && scored[j].id == k;
      assert longer[j].id == k;
    }
  }

  /** The order in which the candidates are scored is that of a set: any. */
  method Search(dense: seq<Row>, keyword: seq<Row>, floor: real, topK: int) returns (out: seq<Hit>)
    ensures TopOf(Survivors(dense, floor), keyword, topK, out)
  {
    var vec: seq<Row> := [];
    for i := 0 to |dense|
      invariant vec == Survivors(dense[..i], floor)
    {
      assert dense[..i + 1][..i] == dense[..i];
      if dense[i].score >= floor {
        vec := vec + [dense[i]];
      }
    }
    assert dense[..|dense|] == dense;
    var vecRanks := Ranks(vec);
    var kwRanks := Ranks(keyword);
    var scored := ScoreAll(vec, keyword, vecRanks, kwRanks);
    SortKeepsScores(vec, keyword, Candidates(vec, keyword), scored);
    SortHitsDescends(scored);
    scored := SortHits(scored);
    PrefixIsTop(vec, keyword, scored, topK);
    out := scored[..Taken(|scored|, topK)];
  }

  ghost predicate RanksOf(ranks: map<nat, nat>, rows: seq<Row>) {
    ranks.Keys == Ids(rows) && forall id :: id in ranks ==> RankOf(rows, id) == Some(ranks[id])
  }

  method ScoreAll(vec: seq<Row>, kw: seq<Row>, vecRanks: map<nat, nat>, kwRanks: map<nat, nat>) returns (scored: seq<Hit>)
    requires RanksOf(vecRanks, vec) && RanksOf(kwRanks, kw)
    ensures ScoresAll(vec, kw, Candidates(vec, kw), scored)
  {
    var todo := vecRanks.Keys + kwRanks.Keys;
    KeysAreCandidates(vec, kw, vecRanks, kwRanks);
    ScoringStarts(vec, kw);
    scored := [];
    while todo != {}
      invariant Scoring(vec, kw, todo, scored)
      decreases todo
    {
      var id :| id in todo;
      HitFromRanks(vec, kw, vecRanks, kwRanks, id);
      ScoringGoesOn(vec, kw, todo, scored, id);
      scored, todo := scored + [MakeHit(vecRanks, kwRanks, id)], todo - {id};
    }
    ScoringEnds(vec, kw, scored);
  }

  /** All candidates have been scored but those still to do. */
  ghost predicate Scoring(vec: seq<Row>, kw: seq<Row>, todo: set<nat>, scored: seq<Hit>) {
    todo <= Candidates(vec, kw) && ScoresAll(vec, kw, Candidates(vec, kw) - todo, scored)
  }

  lemma ScoringStarts(vec: seq<Row>, kw: seq<Row>)
    ensures Scoring(vec, kw, Candidates(vec, kw), [])
  {
    assert Candidates(vec, kw) - Candidates(vec, kw) == {};
  }

  lemma ScoringGoesOn(vec: seq<Row>, kw: seq<Row>, todo: set<nat>, scored: seq<Hit>, id: nat)
    requires Scoring(vec, kw, todo, scored) && id in todo
    ensures Scoring(vec, kw, todo - {id}, scored + [HitFor(vec, kw, id)])
  {
    var all := Candidates(vec, kw);
    ScoreOne(vec, kw, all - todo, scored, id, HitFor(vec, kw, id));
    assert all - (todo - {id}) == (all - todo) + {id};
  }

  lemma ScoringEnds(vec: seq<Row>, kw: seq<Row>, scored: seq<Hit>)
    requires Scoring(vec, kw, {}, scored)
    ensures ScoresAll(vec, kw, Candidates(vec, kw), scored)
  {
    assert Candidates(vec, kw) - {} == Candidates(vec, kw);
  }

  function MakeHit(vecRanks: map<nat, nat>, kwRanks: map<nat, nat>, id: nat): Hit {
    var vecRank, kwRank := Get(vecRanks, id), Get(kwRanks, id);
    Hit(id, RrfComponent(vecRank) + RrfComponent(kwRank), vecRank, kwRank)
  }

  lemma HitFromRanks(vec: seq<Row>, kw: seq<Row>, vecRanks: map<nat, nat>, kwRanks: map<nat, nat>, id: nat)
    requires RanksOf(vecRanks, vec) && RanksOf(kwRanks, kw)
    ensures MakeHit(vecRanks, kwRanks, id) == HitFor(vec, kw, id)
  {
    assert id in vecRanks <==> id in Ids(vec);
    assert id in kwRanks <==> id in Ids(kw);
  }

  lemma KeysAreCandidates(vec: seq<Row>, kw: seq<Row>, vecRanks: map<nat, nat>, kwRanks: map<nat, nat>)
    requires RanksOf(vecRanks, vec) && RanksOf(kwRanks, kw)
    ensures vecRanks.Keys + kwRanks.Keys == Candidates(vec, kw)
  {
  }

  // ----- agreement of the arms -----

  lemma ReciprocalOrder(a: real, b: real)
    requires 0.0 < a <= b
    ensures 1.0 / a >= 1.0 / b > 0.0
  {
    assert 1.0 / a - 1.0 / b == (b - a) / (a * b);
  }

  lemma RankBounds(rank: Option<nat>, n: nat)
    requires rank.Some? ==> 0 < rank.value <= n
    ensures 0.0 <= RrfComponent(rank) <= 1.0 / 61.0
    ensures rank.Some? ==> RrfComponent(rank) >= 1.0 / (60 + n) as real
  {
    if rank.Some? {
      ReciprocalOrder(61.0, (60 + rank.value) as real);
      ReciprocalOrder((60 + rank.value) as real, (60 + n) as real);
    }
  }

  ghost predicate InBoth(vec: seq<Row>, kw: seq<Row>, id: nat) {
    id in Ids(vec) && id in Ids(kw)
  }

  /** With arms of up to 61 rows what both arms found outranks what one found (2/121 > 1/61); the queries return 20. */
  lemma BothOutrankOne(vec: seq<Row>, kw: seq<Row>, a: nat, b: nat)
    requires |vec| <= 61 && |kw| <= 61
    requires InBoth(vec, kw, a) && !InBoth(vec, kw, b)
    ensures Fused(vec, kw, a) > Fused(vec, kw, b)
  {
    RankBounds(RankOf(vec, a), 61);
    RankBounds(RankOf(kw, a), 61);
    RankBounds(RankOf(vec, b), 61);
    RankBounds(RankOf(kw, b), 61);
  }

  /**
   So every chunk both arms found comes before every chunk one arm found, and none is left out while one
   of the latter is returned.
   */
  lemma AgreementComesFirst(vec: seq<Row>, kw: seq<Row>, k: int, out: seq<Hit>, i: nat, a: nat)
    requires |vec| <= 61 && |kw| <= 61 && TopOf(vec, kw, k, out)
    requires i < |out| && !InBoth(vec, kw, out[i].id) && InBoth(vec, kw, a)
    ensures exists j :: 0 <= j < i && out[j].id == a
  {
    BothOutrankOne(vec, kw, a, out[i].id);
    assert a in Candidates(vec, kw);
    assert Returned(out, a);
    var j :| 0 <= j < |out| && out[j].id == a;
    assert out[j] == HitFor(vec, kw, a);
  }

  // ----- what a rank is worth -----

  /** A chunk's share of an arm is one part in 60 and its rank; a better rank is worth more, no rank nothing. */
  lemma BetterRankScoresMore(a: nat, b: nat)
    requires 0 < a < b
    ensures RrfComponent(Some(a)) > RrfComponent(Some(b)) > RrfComponent(None) == 0.0
    ensures RrfComponent(Some(a)) * (60 + a) as real == 1.0
  {
    var x, y := (60 + a) as real, (60 + b) as real;
    ReciprocalOrder(x, y);
    var gap := (y - x) / (x * y);
    assert x * y > 0.0 && gap * (x * y) == y - x;
    assert gap != 0.0 && 1.0 / x - 1.0 / y == gap;
  }

  /** A hit shows where each arm has its id, None where it has not, and their shares are its score. */
  lemma HitShowsRanks(vec: seq<Row>, kw: seq<Row>, k: int, out: seq<Hit>, i: nat)
    requires TopOf(vec, kw, k, out) && i < |out|
    ensures var h := out[i];
      && Shows(vec, h.id, h.vectorRank) && Shows(kw, h.id, h.keywordRank)
      && (h.vectorRank.Some? || h.keywordRank.Some?)
      && h.score == (if h.vectorRank.Some? then 1.0 / (60 + h.vectorRank.value) as real else 0.0)
                    + (if h.keywordRank.Some? then 1.0 / (60 + h.keywordRank.value) as real else 0.0)
  {
  }

  ghost predicate Shows(rows: seq<Row>, id: nat, rank: Option<nat>) {
    && (rank == None <==> forall i :: 0 <= i < |rows| ==> rows[i].id != id)
    && (rank.Some? ==> 0 < rank.value <= |rows| && rows[rank.value - 1].id == id)
  }

  /** As many as a slice takes: the first k, or all but the last -k. */
  lemma SliceTakes(vec: seq<Row>, kw: seq<Row>, k: int, out: seq<Hit>)
    requires TopOf(vec, kw, k, out)
    ensures |out| <= |Ids(vec) + Ids(kw)|
    ensures 0 <= k ==> |out| <= k && (|out| < k ==> |out| == |Ids(vec) + Ids(kw)|)
    ensures k < 0 ==> |out| == 0 || |out| - k == |Ids(vec) + Ids(kw)|
    ensures k < 0 && |Ids(vec) + Ids(kw)| > -k ==> |out| > 0
  {
  }

  /** a has the better rank, or the only one. */
  ghost predicate RankedAbove(a: Option<nat>, b: Option<nat>) {
    a.Some? && (b.Some? ==> a.value < b.value)
  }

  /** No arm ranks b above a, and one ranks a above b. */
  ghost predicate Dominates(vec: seq<Row>, kw: seq<Row>, a: nat, b: nat) {
    && (RankOf(vec, a) == RankOf(vec, b) || RankedAbove(RankOf(vec, a), RankOf(vec, b)))
    && (RankOf(kw, a) == RankOf(kw, b) || RankedAbove(RankOf(kw, a), RankOf(kw, b)))
    && (RankedAbove(RankOf(vec, a), RankOf(vec, b)) || RankedAbove(RankOf(kw, a), RankOf(kw, b)))
  }

  lemma AboveScoresMore(a: Option<nat>, b: Option<nat>)
    requires RankedAbove(a, b) && a.value > 0
    ensures RrfComponent(a) > RrfComponent(b)
  {
    if b.Some? {
      BetterRankScoresMore(a.value, b.value);
    } else {
      BetterRankScoresMore(a.value, a.value + 1);
    }
  }

  /** Then a is returned, and before b, whenever b is. */
  lemma DominatorComesFirst(vec: seq<Row>, kw: seq<Row>, k: int, out: seq<Hit>, i: nat, a: nat)
    requires TopOf(vec, kw, k, out) && i < |out| && Dominates(vec, kw, a, out[i].id)
    ensures exists j :: 0 <= j < i && out[j].id == a
  {
    var b := out[i].id;
    if RankedAbove(RankOf(vec, a), RankOf(vec, b)) {
      AboveScoresMore(RankOf(vec, a), RankOf(vec, b));
    }
    if RankedAbove(RankOf(kw, a), RankOf(kw, b)) {
      AboveScoresMore(RankOf(kw, a), RankOf(kw, b));
    }
    assert Fused(vec, kw, a) > Fused(vec, kw, b);
    assert a in Candidates(vec, kw);
    assert Returned(out, a);
    var j :| 0 <= j < |out| && out[j].id == a;
    assert out[j] == HitFor(vec, kw, a);
  }
}

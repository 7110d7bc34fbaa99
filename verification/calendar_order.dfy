/**
 How far the fiscal calendar depends on the order in which the facts are met.

 Counter.most_common breaks ties between starts by encounter order, and a settled year's start is the
 lower bound for its quarters. So years keep their keys, ambiguities and ends whatever the order, but
 a quarter does so exactly when every start some order would give the year puts the same filings
 inside it. TiedStartsChangeAQuarter is an input where it does not.
 */
module CalendarOrder {
  import opened Wrappers
  import opened Dates
  import opened Sequences
  import opened FactSelection
  import opened FiscalCalendar

  /** An entry without its start. */
  datatype Shape = NoEntry | EndsDiffer | EndsOn(end: string) | Raises

  function ShapeOf(e: Entry): Shape {
    match e
    case Absent => NoEntry
    case Ambiguous => EndsDiffer
    case Settled(p) => EndsOn(p.end)
    case Overflowed => Raises
  }

  function Ends(found: set<Span>): set<string> {
    set s | s in found :: s.1
  }

  ghost function ShapeOfEnds(ends: set<string>): Shape {
    if ends == {} then NoEntry
    else if e :| ends == {e} then EndsOn(e)
    else EndsDiffer
  }

  lemma OutcomeShape(found: set<Span>)
    ensures ShapeOf(Outcome(found)) == ShapeOfEnds(Ends(found))
  {
    if found != {} {
      var s :| s in found;
      assert s.1 in Ends(found);
      if OneEnd(found) {
        assert Ends(found) == {s.1};
      } else if e :| Ends(found) == {e} {
        assert forall t :: t in found ==> t.1 in Ends(found);
        assert false;
      }
    }
  }

  function EndsInside(ends: set<string>, b: Bounds): set<string> {
    match b
    case Within(after, upTo) => set e | e in ends && Less(after, e) && AtMost(e, upTo)
    case _ => ends
  }

  ghost function QuarterShape(ends: set<string>, b: Bounds): Shape {
    if ends == {} then NoEntry else if b == PastLastDate then Raises else ShapeOfEnds(EndsInside(ends, b))
  }

  lemma QuarterOutcomeShape(found: set<Span>, b: Bounds)
    ensures ShapeOf(QuarterOutcome(found, b)) == QuarterShape(Ends(found), b)
  {
    if found != {} {
      var s :| s in found;
      assert s.1 in Ends(found);
      OutcomeShape(Inside(found, b));
      assert Ends(Inside(found, b)) == EndsInside(Ends(found), b);
    }
  }

  // ----- what rearranging keeps -----

  lemma {:induction false} SpansAreFlat(facts: seq<Fact>, g: Filing)
    ensures Spans(facts, g) == FlatMap(facts, f => if InFiling(f, g) then [SpanOf(f)] else [])
  {
    if facts != [] {
      SpansAreFlat(facts[..|facts| - 1], g);
    }
  }

  lemma {:induction false} StartsAreFlat(spans: seq<Span>, end: string)
    ensures StartsAt(spans, end) == FlatMap(spans, (s: Span) => if s.1 == end then [s.0] else [])
  {
    if spans != [] {
      StartsAreFlat(spans[..|spans| - 1], end);
    }
  }

  lemma SpansPermute(a: seq<Fact>, b: seq<Fact>, g: Filing)
    requires multiset(a) == multiset(b)
    ensures multiset(Spans(a, g)) == multiset(Spans(b, g))
  {
    SpansAreFlat(a, g);
    SpansAreFlat(b, g);
    FlatMapPermutes(a, b, f => if InFiling(f, g) then [SpanOf(f)] else []);
  }

  lemma StartsPermute(a: seq<Span>, b: seq<Span>, end: string)
    requires multiset(a) == multiset(b)
    ensures multiset(StartsAt(a, end)) == multiset(StartsAt(b, end))
  {
    StartsAreFlat(a, end);
    StartsAreFlat(b, end);
    FlatMapPermutes(a, b, (s: Span) => if s.1 == end then [s.0] else []);
  }

  lemma LatestEndPermutes(a: seq<Span>, b: seq<Span>)
    requires multiset(a) == multiset(b)
    ensures LatestEnd(a) == LatestEnd(b)
  {
    SameMembers(a, b);
    LessTotal();
    LatestEndIsLatest(a);
    LatestEndIsLatest(b);
  }

  /** The starts of a filing's latest-ending flows. */
  function LatestStarts(facts: seq<Fact>, g: Filing): seq<string> {
    StartsAt(Spans(facts, g), LatestEnd(Spans(facts, g)))
  }

  lemma FilingPermutes(a: seq<Fact>, b: seq<Fact>, g: Filing)
    requires multiset(a) == multiset(b)
    ensures |Spans(a, g)| == |Spans(b, g)| && LatestEnd(Spans(a, g)) == LatestEnd(Spans(b, g))
    ensures multiset(LatestStarts(a, g)) == multiset(LatestStarts(b, g))
  {
    SpansPermute(a, b, g);
    SameMembers(Spans(a, g), Spans(b, g));
    LatestEndPermutes(Spans(a, g), Spans(b, g));
    StartsPermute(Spans(a, g), Spans(b, g), LatestEnd(Spans(a, g)));
  }

  lemma EndsFromFilings(facts: seq<Fact>, key: Label, e: string)
    ensures e in Ends(Found(facts, key)) <==>
      exists accn :: Spans(facts, (key.0, key.1, accn)) != [] && LatestEnd(Spans(facts, (key.0, key.1, accn))) == e
  {
    if e in Ends(Found(facts, key)) {
      var s :| s in Found(facts, key) && s.1 == e;
      FoundFromFilings(facts, key, s);
    }
    if accn :| Spans(facts, (key.0, key.1, accn)) != [] && LatestEnd(Spans(facts, (key.0, key.1, accn))) == e {
      var s := About(Spans(facts, (key.0, key.1, accn)));
      FoundFromFilings(facts, key, s);
      assert s.1 == e;
    }
  }

  lemma EndsPermute(a: seq<Fact>, b: seq<Fact>, key: Label)
    requires multiset(a) == multiset(b)
    ensures Ends(Found(a, key)) == Ends(Found(b, key))
  {
    forall e ensures e in Ends(Found(a, key)) <==> e in Ends(Found(b, key)) {
      EndsFromFilings(a, key, e);
      EndsFromFilings(b, key, e);
      forall accn { FilingPermutes(a, b, (key.0, key.1, accn)); }
    }
  }

  /** A year's key, its ambiguity and its end do not depend on the order of the facts. */
  lemma YearOrderIndependent(a: seq<Fact>, b: seq<Fact>, fy: int)
    requires multiset(a) == multiset(b)
    ensures ShapeOf(YearEntry(a, fy)) == ShapeOf(YearEntry(b, fy))
  {
    EndsPermute(a, b, (fy, FY));
    OutcomeShape(Found(a, (fy, FY)));
    OutcomeShape(Found(b, (fy, FY)));
  }

  // ----- the starts some order gives a year -----

  ghost predicate TiedStart(facts: seq<Fact>, g: Filing, x: string) {
    Spans(facts, g) != [] && IsMode(LatestStarts(facts, g), x)
  }

  /** x is a most common start of one annual filing, and every other one has such a start no earlier. */
  ghost predicate Attainable(facts: seq<Fact>, fy: int, x: string) {
    && (exists accn :: TiedStart(facts, (fy, FY, accn), x))
    && (forall accn :: Spans(facts, (fy, FY, accn)) != [] ==>
          exists t :: TiedStart(facts, (fy, FY, accn), t) && AtMost(x, t))
  }

  lemma LatestStartsExist(facts: seq<Fact>, g: Filing)
    requires Spans(facts, g) != []
    ensures LatestStarts(facts, g) != []
  {
    var spans := Spans(facts, g);
    LatestEndIsLatest(spans);
    var s :| s in spans && s.1 == LatestEnd(spans);
    StartsAtMembers(spans, LatestEnd(spans), s.0);
  }

  /** What a filing is about starts at one of its tied starts, in any arrangement of the facts. */
  lemma AboutIsTied(a: seq<Fact>, facts: seq<Fact>, g: Filing)
    requires multiset(a) == multiset(facts) && Spans(a, g) != []
    ensures TiedStart(facts, g, About(Spans(a, g)).0)
  {
    LatestStartsExist(a, g);
    MostCommonIsMode(LatestStarts(a, g));
    FilingPermutes(a, facts, g);
    SameMembers(LatestStarts(a, g), LatestStarts(facts, g));
  }

  /** Every order of the facts gives a settled year an attainable start. */
  lemma StartIsAttainable(a: seq<Fact>, facts: seq<Fact>, fy: int)
    requires multiset(a) == multiset(facts) && YearEntry(a, fy).Settled?
    ensures Attainable(facts, fy, YearEntry(a, fy).period.start)
  {
    var p := YearEntry(a, fy).period;
    FoundFromFilings(a, (fy, FY), (p.start, p.end));
    var accn :| Spans(a, (fy, FY, accn)) != [] && About(Spans(a, (fy, FY, accn))) == (p.start, p.end);
    AboutIsTied(a, facts, (fy, FY, accn));
    forall accn | Spans(facts, (fy, FY, accn)) != []
      ensures exists t :: TiedStart(facts, (fy, FY, accn), t) && AtMost(p.start, t)
    {
      FilingPermutes(a, facts, (fy, FY, accn));
      AboutIsTied(a, facts, (fy, FY, accn));
      FoundFromFilings(a, (fy, FY), About(Spans(a, (fy, FY, accn))));
    }
  }

  // ----- an order that yields a given attainable start -----

  /** 0: starting at x; 1: starting after x; otherwise the rest. */
  function Class(x: string, start: string): int {
    if start == x then 0 else if Less(x, start) then 1 else 2
  }

  function OfClass(facts: seq<Fact>, x: string, k: int): (r: seq<Fact>)
    ensures forall f :: f in r ==> Class(x, f.start.GetOr("")) == k
  {
    if facts == [] then []
    else
      var rest := OfClass(facts[..|facts| - 1], x, k);
      var last := facts[|facts| - 1];
      if Class(x, last.start.GetOr("")) == k then rest + [last] else rest
  }

  lemma {:induction false} ClassesPermute(facts: seq<Fact>, x: string)
    ensures multiset(OfClass(facts, x, 0) + OfClass(facts, x, 1) + OfClass(facts, x, 2)) == multiset(facts)
  {
    if facts != [] {
      ClassesPermute(facts[..|facts| - 1], x);
      SplitLast(facts);
    }
  }

  /** The facts starting at x first, then those starting later, then the others. */
  function Favouring(facts: seq<Fact>, x: string): seq<Fact> {
    OfClass(facts, x, 0) + OfClass(facts, x, 1) + OfClass(facts, x, 2)
  }

  lemma StartsHaveClass(facts: seq<Fact>, x: string, k: int, g: Filing, end: string)
    ensures forall y :: y in StartsAt(Spans(OfClass(facts, x, k), g), end) ==> Class(x, y) == k
  {
    var part := OfClass(facts, x, k);
    forall y | y in StartsAt(Spans(part, g), end) ensures Class(x, y) == k {
      StartsAtMembers(Spans(part, g), end, y);
      SpansMembers(part, g, (y, end));
    }
  }

  lemma FavouringStarts(facts: seq<Fact>, x: string, g: Filing, end: string)
    ensures StartsAt(Spans(Favouring(facts, x), g), end) ==
      StartsAt(Spans(OfClass(facts, x, 0), g), end) + StartsAt(Spans(OfClass(facts, x, 1), g), end)
      + StartsAt(Spans(OfClass(facts, x, 2), g), end)
  {
    var a, b, c := OfClass(facts, x, 0), OfClass(facts, x, 1), OfClass(facts, x, 2);
    SpansOfSum(a, b, g);
    SpansOfSum(a + b, c, g);
    StartsOfSum(Spans(a, g), Spans(b, g), end);
    StartsOfSum(Spans(a, g) + Spans(b, g), Spans(c, g), end);
  }

  ghost predicate ByClass(s: seq<string>, x: string) {
    forall i, j :: 0 <= i < j < |s| ==> Class(x, s[i]) <= Class(x, s[j])
  }

  /** The first most common start is x if x is one, and no earlier than x if some such start is not. */
  lemma MostCommonByClass(s: seq<string>, x: string, t: string)
    requires ByClass(s, x)
    requires IsMode(s, t) && AtMost(x, t)
    ensures AtMost(x, MostCommon(s))
    ensures t == x ==> MostCommon(s) == x
  {
    LessTotal();
    MostCommonIsFirst(s, |s|);
    var m := MostCommonAt(s, |s|);
    var i :| 0 <= i < |s| && s[i] == t;
    assert s[m] in s;
    assert m <= i;
    assert Class(x, s[m]) <= Class(x, t) <= 1;
  }

  lemma FavouringIsByClass(facts: seq<Fact>, x: string, g: Filing, end: string)
    ensures ByClass(StartsAt(Spans(Favouring(facts, x), g), end), x)
  {
    FavouringStarts(facts, x, g, end);
    StartsHaveClass(facts, x, 0, g, end);
    StartsHaveClass(facts, x, 1, g, end);
    StartsHaveClass(facts, x, 2, g, end);
    BlocksAreByClass(StartsAt(Spans(OfClass(facts, x, 0), g), end), StartsAt(Spans(OfClass(facts, x, 1), g), end),
                     StartsAt(Spans(OfClass(facts, x, 2), g), end), x);
  }

  lemma BlocksAreByClass(u: seq<string>, v: seq<string>, w: seq<string>, x: string)
    requires forall y :: y in u ==> Class(x, y) == 0
    requires forall y :: y in v ==> Class(x, y) == 1
    requires forall y :: y in w ==> Class(x, y) == 2
    ensures ByClass(u + v + w, x)
  {
    var s := u + v + w;
    forall i | 0 <= i < |s| ensures Class(x, s[i]) == if i < |u| then 0 else if i < |u| + |v| then 1 else 2 {
      assert s[i] == if i < |u| then u[i] else if i < |u| + |v| then v[i - |u|] else w[i - |u| - |v|];
    }
  }

  lemma FavouringFiling(facts: seq<Fact>, x: string, g: Filing, t: string)
    requires TiedStart(facts, g, t) && AtMost(x, t)
    ensures var a := About(Spans(Favouring(facts, x), g));
      AtMost(x, a.0) && (t == x ==> a.0 == x)
    ensures Spans(Favouring(facts, x), g) != []
  {
    ClassesPermute(facts, x);
    var p := Favouring(facts, x);
    FilingPermutes(p, facts, g);
    SameMembers(LatestStarts(p, g), LatestStarts(facts, g));
    var end := LatestEnd(Spans(p, g));
    FavouringIsByClass(facts, x, g, end);
    MostCommonByClass(LatestStarts(p, g), x, t);
  }

  /** Every attainable start of a settled year is the one some order gives it. */
  lemma AttainableIsAttained(facts: seq<Fact>, fy: int, x: string)
    requires YearEntry(facts, fy).Settled? && Attainable(facts, fy, x)
    ensures multiset(Favouring(facts, x)) == multiset(facts)
    ensures YearEntry(Favouring(facts, x), fy).Settled? && YearEntry(Favouring(facts, x), fy).period.start == x
  {
    ClassesPermute(facts, x);
    var p := Favouring(facts, x);
    YearOrderIndependent(p, facts, fy);
    assert YearEntry(p, fy).Settled?;
    var found := Found(p, (fy, FY));
    forall s | s in found ensures AtMost(x, s.0) {
      FoundFromFilings(p, (fy, FY), s);
      var accn :| Spans(p, (fy, FY, accn)) != [] && About(Spans(p, (fy, FY, accn))) == s;
      FilingPermutes(p, facts, (fy, FY, accn));
      var t :| TiedStart(facts, (fy, FY, accn), t) && AtMost(x, t);
      FavouringFiling(facts, x, (fy, FY, accn), t);
    }
    var accn :| TiedStart(facts, (fy, FY, accn), x);
    LessTotal();
    FavouringFiling(facts, x, (fy, FY, accn), x);
    var s := About(Spans(p, (fy, FY, accn)));
    FoundFromFilings(p, (fy, FY), s);
    assert s in found && s.0 == x;
  }

  // ----- the exact condition for quarters -----

  ghost predicate OrderFree(facts: seq<Fact>, key: Label) {
    forall p: seq<Fact> :: multiset(p) == multiset(facts) ==> ShapeOf(EntryFor(p, key)) == ShapeOf(EntryFor(facts, key))
  }

  /** Whichever attainable start the year gets, the same of the label's ends fall inside it. */
  ghost predicate StartsAgree(facts: seq<Fact>, key: Label) {
    YearEntry(facts, key.0).Settled? ==>
      forall x, y :: Attainable(facts, key.0, x) && Attainable(facts, key.0, y) ==>
        ShapeStartingAt(facts, key, x) == ShapeStartingAt(facts, key, y)
  }

  /** The shape of a quarter's entry if its settled year started at x. */
  ghost function ShapeStartingAt(facts: seq<Fact>, key: Label, x: string): Shape
    requires YearEntry(facts, key.0).Settled?
  {
    QuarterShape(Ends(Found(facts, key)), Within(x, YearEntry(facts, key.0).period.end))
  }

  /** In a settled year, the entry of a quarter is decided by its ends and the start the order gives. */
  lemma QuarterInArrangement(p: seq<Fact>, facts: seq<Fact>, key: Label)
    requires multiset(p) == multiset(facts) && key.1 != FY && YearEntry(facts, key.0).Settled?
    ensures YearEntry(p, key.0).Settled?
    ensures ShapeOf(EntryFor(p, key)) == ShapeStartingAt(facts, key, YearEntry(p, key.0).period.start)
  {
    YearOrderIndependent(p, facts, key.0);
    EndsPermute(p, facts, key);
    EntryInSettledYear(p, key.0, key.1);
    QuarterOutcomeShape(Found(p, key), Within(YearEntry(p, key.0).period.start, YearEntry(p, key.0).period.end));
  }

  lemma EntryInSettledYear(p: seq<Fact>, fy: int, fp: FiscalPeriod)
    requires fp != FY && YearEntry(p, fy).Settled?
    ensures var year := YearEntry(p, fy).period;
      EntryFor(p, (fy, fp)) == QuarterOutcome(Found(p, (fy, fp)), Within(year.start, year.end))
  {
    SettledYearStarts(p, fy);
    BoundsOfSettledYear(YearEntry(p, fy), YearEntry(p, fy - 1));
  }

  lemma BoundsOfSettledYear(year: Entry, before: Entry)
    requires year.Settled? && year.period.start != ""
    ensures BoundsFrom(year, before) == Within(year.period.start, year.period.end)
  {
  }

  lemma BoundsOutsideSettledYear(p: seq<Fact>, facts: seq<Fact>, fy: int)
    requires multiset(p) == multiset(facts) && !YearEntry(facts, fy).Settled?
    ensures YearBounds(p, fy) == YearBounds(facts, fy)
  {
    YearOrderIndependent(p, facts, fy);
    YearOrderIndependent(p, facts, fy - 1);
    BoundsIgnoreStart(YearEntry(p, fy), YearEntry(p, fy - 1), YearEntry(facts, fy), YearEntry(facts, fy - 1));
  }

  lemma QuarterOutsideSettledYear(p: seq<Fact>, facts: seq<Fact>, key: Label)
    requires multiset(p) == multiset(facts) && key.1 != FY && !YearEntry(facts, key.0).Settled?
    ensures ShapeOf(EntryFor(p, key)) == ShapeOf(EntryFor(facts, key))
  {
    EndsPermute(p, facts, key);
    BoundsOutsideSettledYear(p, facts, key.0);
    SameEndsSameShape(Found(p, key), Found(facts, key), YearBounds(facts, key.0));
  }

  lemma SameEndsSameShape(found: set<Span>, found': set<Span>, b: Bounds)
    requires Ends(found) == Ends(found')
    ensures ShapeOf(QuarterOutcome(found, b)) == ShapeOf(QuarterOutcome(found', b))
  {
    QuarterOutcomeShape(found, b);
    QuarterOutcomeShape(found', b);
  }

  lemma BoundsIgnoreStart(year: Entry, before: Entry, year': Entry, before': Entry)
    requires !year.Settled? && !year'.Settled? && ShapeOf(before) == ShapeOf(before')
    ensures BoundsFrom(year, before) == BoundsFrom(year', before')
  {
  }

  /**
   A quarter's key, ambiguity and end survive every rearrangement of the facts if and only if all the
   attainable starts of its settled year agree about them.
   */
  lemma QuarterOrderIndependence(facts: seq<Fact>, key: Label)
    requires key.1 != FY
    ensures OrderFree(facts, key) <==> StartsAgree(facts, key)
  {
    if StartsAgree(facts, key) {
      forall p: seq<Fact> | multiset(p) == multiset(facts)
        ensures ShapeOf(EntryFor(p, key)) == ShapeOf(EntryFor(facts, key))
      {
        AgreementSuffices(p, facts, key);
      }
    } else {
      var x, y :| Attainable(facts, key.0, x) && Attainable(facts, key.0, y)
                  && ShapeStartingAt(facts, key, x) != ShapeStartingAt(facts, key, y);
      DisagreementShows(facts, key, x, y);
    }
  }

  lemma AgreementSuffices(p: seq<Fact>, facts: seq<Fact>, key: Label)
    requires key.1 != FY && multiset(p) == multiset(facts) && StartsAgree(facts, key)
    ensures ShapeOf(EntryFor(p, key)) == ShapeOf(EntryFor(facts, key))
  {
    if YearEntry(facts, key.0).Settled? {
      QuarterInArrangement(p, facts, key);
      QuarterInArrangement(facts, facts, key);
      StartIsAttainable(p, facts, key.0);
      StartIsAttainable(facts, facts, key.0);
    } else {
      QuarterOutsideSettledYear(p, facts, key);
    }
  }

  lemma DisagreementShows(facts: seq<Fact>, key: Label, x: string, y: string)
    requires key.1 != FY && YearEntry(facts, key.0).Settled?
    requires Attainable(facts, key.0, x) && Attainable(facts, key.0, y)
    requires ShapeStartingAt(facts, key, x) != ShapeStartingAt(facts, key, y)
    ensures !OrderFree(facts, key)
  {
    AttainableIsAttained(facts, key.0, x);
    AttainableIsAttained(facts, key.0, y);
    QuarterInArrangement(Favouring(facts, x), facts, key);
    QuarterInArrangement(Favouring(facts, y), facts, key);
  }

  // ----- an order that matters -----

  /** A flow from start to end, with no filing date, under one accession. */
  function Flow(key: Label, form: Form, start: FullDate, end: FullDate, accn: string): Fact
    requires start.Valid() && end.Valid()
  {
    Fact(Some(key.0), Some(key.1), Some(form), Some(Format(start)), Some(Format(end)), "", accn, Some(0.0))
  }

  lemma FlowIsEligible(key: Label, form: Form, start: FullDate, end: FullDate, accn: string)
    requires start.Valid() && end.Valid() && FormFits(form, key.1) && key.1 in {FY, Q1, Q2, Q3}
    requires InSpan(key.1, DayNumber(end) - DayNumber(start))
    ensures Eligible(Flow(key, form, start, end, accn))
    ensures FilingOf(Flow(key, form, start, end, accn)) == (key.0, key.1, accn)
  {
    ParseFormat(start);
    ParseFormat(end);
  }

  /**
   One annual report of a year carries two flows ending on its last day, tied as to the most common
   start: 395 and 336 days. A third quarter mislabelled with that year ends between the two starts.
   Met in one order the calendar holds no single third quarter; met in the other it holds one.
   */
  function TiedFacts(y: int): seq<Fact>
    requires 2 <= y <= 9999
  {
    [Flow((y, FY), Form10K, FullDate(y - 1, 12, 1), FullDate(y, 12, 31), "a"),
     Flow((y, FY), Form10K, FullDate(y, 1, 29), FullDate(y, 12, 31), "a"),
     Flow((y, Q3), Form10Q, FullDate(y - 1, 10, 1), FullDate(y - 1, 12, 31), "b"),
     Flow((y, Q3), Form10Q, FullDate(y, 7, 1), FullDate(y, 9, 30), "c")]
  }

  /** s has the filings, spans and labels of TiedFacts, for any four strings as dates. */
  ghost predicate Tied(s: seq<Fact>, y: int, early: string, late: string, last: string, stray: string, proper: string) {
    && |s| == 4 && Eligible(s[0]) && Eligible(s[1]) && Eligible(s[2]) && Eligible(s[3])
    && FilingOf(s[0]) == (y, FY, "a") && FilingOf(s[1]) == (y, FY, "a")
    && FilingOf(s[2]) == (y, Q3, "b") && FilingOf(s[3]) == (y, Q3, "c")
    && SpanOf(s[0]) == (early, last) && SpanOf(s[1]) == (late, last)
    && SpanOf(s[2]).1 == stray && SpanOf(s[3]).1 == proper
    && Less(early, stray) && Less(stray, late) && Less(late, proper) && Less(proper, last)
  }

  lemma TiedFactsAreTied(y: int)
    requires 2 <= y <= 9999
    ensures Tied(TiedFacts(y), y, Format(FullDate(y - 1, 12, 1)), Format(FullDate(y, 1, 29)),
                 Format(FullDate(y, 12, 31)), Format(FullDate(y - 1, 12, 31)), Format(FullDate(y, 9, 30)))
  {
    TiedYearLengths(y);
    FlowIsEligible((y, FY), Form10K, FullDate(y - 1, 12, 1), FullDate(y, 12, 31), "a");
    FlowIsEligible((y, FY), Form10K, FullDate(y, 1, 29), FullDate(y, 12, 31), "a");
    FlowIsEligible((y, Q3), Form10Q, FullDate(y - 1, 10, 1), FullDate(y - 1, 12, 31), "b");
    FlowIsEligible((y, Q3), Form10Q, FullDate(y, 7, 1), FullDate(y, 9, 30), "c");
    DatesDiffer(FullDate(y - 1, 12, 1), FullDate(y - 1, 12, 31));
    DatesDiffer(FullDate(y - 1, 12, 31), FullDate(y, 1, 29));
    DatesDiffer(FullDate(y, 1, 29), FullDate(y, 9, 30));
    DatesDiffer(FullDate(y, 9, 30), FullDate(y, 12, 31));
  }

  lemma TiedYearLengths(y: int)
    requires 2 <= y <= 9999
    ensures 395 <= DayNumber(FullDate(y, 12, 31)) - DayNumber(FullDate(y - 1, 12, 1)) <= 396
    ensures 336 <= DayNumber(FullDate(y, 12, 31)) - DayNumber(FullDate(y, 1, 29)) <= 337
    ensures DayNumber(FullDate(y - 1, 12, 31)) - DayNumber(FullDate(y - 1, 10, 1)) == 91
    ensures DayNumber(FullDate(y, 9, 30)) - DayNumber(FullDate(y, 7, 1)) == 91
  {
    MonthsFillYear(y - 1);
    MonthsFillYear(y);
    LastMonths(y - 1);
    LastMonths(y);
  }

  lemma LastMonths(y: int)
    requires 1 <= y
    ensures DaysBeforeMonth(y, 13) == DaysBeforeMonth(y, 12) + 31
    ensures DaysBeforeMonth(y, 12) == DaysBeforeMonth(y, 10) + 61
    ensures DaysBeforeMonth(y, 9) == DaysBeforeMonth(y, 7) + 62
  {
    assert DaysBeforeMonth(y, 11) == DaysBeforeMonth(y, 10) + 31;
    assert DaysBeforeMonth(y, 8) == DaysBeforeMonth(y, 7) + 31;
  }

  lemma FourSpans(s: seq<Fact>, g: Filing)
    requires |s| == 4
    ensures Spans(s, g) ==
      (if InFiling(s[0], g) then [SpanOf(s[0])] else []) + (if InFiling(s[1], g) then [SpanOf(s[1])] else [])
      + (if InFiling(s[2], g) then [SpanOf(s[2])] else []) + (if InFiling(s[3], g) then [SpanOf(s[3])] else [])
  {
    assert s[..3][..2] == s[..2] && s[..2][..1] == s[..1] && s[..1][..0] == [];
    assert Spans(s[..1], g) == if InFiling(s[0], g) then [SpanOf(s[0])] else [];
    assert Spans(s[..3], g) == Spans(s[..2], g) + if InFiling(s[2], g) then [SpanOf(s[2])] else [];
  }

  lemma TiedYear(s: seq<Fact>, y: int, early: string, late: string, last: string, stray: string, proper: string)
    requires Tied(s, y, early, late, last, stray, proper)
    ensures YearEntry(s, y).Settled? && YearEntry(s, y).period.end == last
    ensures Attainable(s, y, early) && Attainable(s, y, late)
  {
    forall g { TiedSpans(s, y, early, late, last, stray, proper, g); }
    TwoStarts(early, late, last);
    LessTotal();
    TwoModes(early, late);
    OneTiedFiling(s, y, "a", early, late);
    YearFromOneFiling(s, y, "a");
  }

  lemma OneTiedFiling(s: seq<Fact>, y: int, accn: string, early: string, late: string)
    requires Spans(s, (y, FY, accn)) != [] && LatestStarts(s, (y, FY, accn)) == [early, late]
    requires IsMode([early, late], early) && IsMode([early, late], late) && Less(early, late)
    requires forall other :: other != accn ==> Spans(s, (y, FY, other)) == []
    ensures Attainable(s, y, early) && Attainable(s, y, late)
  {
    LessTotal();
    assert TiedStart(s, (y, FY, accn), early) && TiedStart(s, (y, FY, accn), late);
  }

  lemma TiedSpans(s: seq<Fact>, y: int, early: string, late: string, last: string, stray: string, proper: string,
                  g: Filing)
    requires Tied(s, y, early, late, last, stray, proper)
    ensures g == (y, FY, "a") ==> Spans(s, g) == [(early, last), (late, last)]
    ensures g == (y, Q3, "b") ==> |Spans(s, g)| == 1 && Spans(s, g)[0].1 == stray
    ensures g == (y, Q3, "c") ==> |Spans(s, g)| == 1 && Spans(s, g)[0].1 == proper
    ensures g != (y, FY, "a") && g != (y, Q3, "b") && g != (y, Q3, "c") ==> Spans(s, g) == []
  {
    FourSpans(s, g);
  }

  lemma TwoModes(x: string, y: string)
    requires x != y
    ensures IsMode([x, y], x) && IsMode([x, y], y)
  {
  }

  lemma TwoStarts(early: string, late: string, end: string)
    ensures LatestEnd([(early, end), (late, end)]) == end
    ensures StartsAt([(early, end), (late, end)], end) == [early, late]
  {
    LessTotal();
    var spans := [(early, end), (late, end)];
    assert spans[..1] == [(early, end)];
    assert LatestEnd(spans[..1]) == Later("", end) == end;
    assert StartsAt(spans[..1], end) == [early];
  }

  lemma DatesDiffer(a: FullDate, b: FullDate)
    requires a.Valid() && b.Valid() && DateLess(a, b)
    ensures Less(Format(a), Format(b)) && Format(a) != Format(b)
  {
    ParseFormat(a);
    ParseFormat(b);
    DayNumberMonotone(a, b);
    LessAgrees(Format(a), Format(b));
  }

  lemma YearFromOneFiling(facts: seq<Fact>, fy: int, accn: string)
    requires Spans(facts, (fy, FY, accn)) != []
    requires forall other :: other != accn ==> Spans(facts, (fy, FY, other)) == []
    ensures YearEntry(facts, fy).Settled? && YearEntry(facts, fy).period.end == LatestEnd(Spans(facts, (fy, FY, accn)))
  {
    var s := About(Spans(facts, (fy, FY, accn)));
    forall t ensures t in Found(facts, (fy, FY)) <==> t == s {
      FoundFromFilings(facts, (fy, FY), t);
    }
    assert Found(facts, (fy, FY)) == {s};
  }

  lemma TiedQuarterEnds(s: seq<Fact>, y: int, early: string, late: string, last: string, stray: string, proper: string)
    requires Tied(s, y, early, late, last, stray, proper)
    ensures Ends(Found(s, (y, Q3))) == {stray, proper}
  {
    forall g { TiedSpans(s, y, early, late, last, stray, proper, g); }
    OneSpanEnd(Spans(s, (y, Q3, "b")));
    OneSpanEnd(Spans(s, (y, Q3, "c")));
    forall e ensures e in Ends(Found(s, (y, Q3))) <==> e == stray || e == proper {
      EndsFromFilings(s, (y, Q3), e);
    }
  }

  lemma OneSpanEnd(spans: seq<Span>)
    requires |spans| == 1
    ensures LatestEnd(spans) == spans[0].1
  {
    assert spans[..0] == [];
  }

  lemma TiedDisagree(s: seq<Fact>, y: int, early: string, late: string, last: string, stray: string, proper: string)
    requires Tied(s, y, early, late, last, stray, proper)
    ensures !OrderFree(s, (y, Q3))
  {
    TiedYear(s, y, early, late, last, stray, proper);
    TiedQuarterEnds(s, y, early, late, last, stray, proper);
    TwoShapes(early, late, last, stray, proper);
    DisagreementShows(s, (y, Q3), early, late);
  }

  lemma TwoShapes(early: string, late: string, last: string, stray: string, proper: string)
    requires Less(early, stray) && Less(stray, late) && Less(late, proper) && Less(proper, last)
    ensures QuarterShape({stray, proper}, Within(early, last)) == EndsDiffer
    ensures QuarterShape({stray, proper}, Within(late, last)) == EndsOn(proper)
  {
    LessTotal();
    var ends := {stray, proper};
    assert EndsInside(ends, Within(early, last)) == ends;
    assert EndsInside(ends, Within(late, last)) == {proper};
    assert stray in ends && proper in ends && stray != proper;
  }

  /** For every year from 2 on, these four facts put a quarter at the mercy of their order. */
  lemma TiedStartsChangeAQuarter(y: int)
    requires 2 <= y <= 9999
    ensures !OrderFree(TiedFacts(y), (y, Q3))
  {
    SomehowTied(y);
    TiedMatters(TiedFacts(y), y);
  }

  ghost predicate TiedAtSome(s: seq<Fact>, y: int) {
    exists early, late, last, stray, proper :: Tied(s, y, early, late, last, stray, proper)
  }

  lemma SomehowTied(y: int)
    requires 2 <= y <= 9999
    ensures TiedAtSome(TiedFacts(y), y)
  {
    TiedFactsAreTied(y);
  }

  lemma TiedMatters(s: seq<Fact>, y: int)
    requires TiedAtSome(s, y)
    ensures !OrderFree(s, (y, Q3))
  {
    var early, late, last, stray, proper :| Tied(s, y, early, late, last, stray, proper);
    TiedDisagree(s, y, early, late, last, stray, proper);
  }

  // ----- a calendar that overflows -----

  /** An annual report of the last year there is, and a quarterly one labelled with the year after. */
  function LastYearFacts(y: int): seq<Fact> {
    [Flow((y - 1, FY), Form10K, FullDate(9999, 1, 1), FullDate(9999, 12, 31), "a"),
     Flow((y, Q1), Form10Q, FullDate(9999, 9, 1), FullDate(9999, 11, 30), "b")]
  }

  ghost predicate YearAndQuarter(s: seq<Fact>, y: int, last: string) {
    && |s| == 2 && Eligible(s[0]) && Eligible(s[1])
    && FilingOf(s[0]) == (y - 1, FY, "a") && FilingOf(s[1]) == (y, Q1, "b") && SpanOf(s[0]).1 == last
  }

  lemma LastYearIsYearAndQuarter(y: int)
    ensures YearAndQuarter(LastYearFacts(y), y, Format(FullDate(9999, 12, 31)))
  {
    MonthsFillYear(9999);
    LastMonths(9999);
    assert DaysBeforeMonth(9999, 11) == DaysBeforeMonth(9999, 9) + 61 by {
      assert DaysBeforeMonth(9999, 10) == DaysBeforeMonth(9999, 9) + 30;
    }
    FlowIsEligible((y - 1, FY), Form10K, FullDate(9999, 1, 1), FullDate(9999, 12, 31), "a");
    FlowIsEligible((y, Q1), Form10Q, FullDate(9999, 9, 1), FullDate(9999, 11, 30), "b");
  }

  lemma TwoSpans(s: seq<Fact>, g: Filing)
    requires |s| == 2
    ensures Spans(s, g) ==
      (if InFiling(s[0], g) then [SpanOf(s[0])] else []) + (if InFiling(s[1], g) then [SpanOf(s[1])] else [])
  {
    assert s[..1][..0] == [];
    assert Spans(s[..1], g) == if InFiling(s[0], g) then [SpanOf(s[0])] else [];
  }

  lemma YearThenQuarterOverflows(s: seq<Fact>, y: int, last: string)
    requires YearAndQuarter(s, y, last) && Parse(last).Some? && PlusDays(Parse(last).value, LONGEST_YEAR) == None
    ensures EntryFor(s, (y, Q1)) == Overflowed
  {
    AnnualSettles(s, y, y - 1, last);
    QuarterIsLabelled(s, y, last);
    OverflowCondition(s, y, Q1);
  }

  lemma AnnualSettles(s: seq<Fact>, y: int, fy: int, last: string)
    requires YearAndQuarter(s, y, last) && fy == y - 1
    ensures YearEntry(s, fy).Settled? && YearEntry(s, fy).period.end == last
  {
    forall accn ensures Spans(s, (fy, FY, accn)) == if accn == "a" then [SpanOf(s[0])] else [] {
      TwoSpans(s, (fy, FY, accn));
    }
    OneSpanEnd([SpanOf(s[0])]);
    YearFromOneFiling(s, fy, "a");
  }

  lemma QuarterIsLabelled(s: seq<Fact>, y: int, last: string)
    requires YearAndQuarter(s, y, last)
    ensures Found(s, (y, Q1)) != {} && !YearEntry(s, y).Settled?
  {
    assert LabelOf(s[0]) == (y - 1, FY) && LabelOf(s[1]) == (y, Q1);
    LabelOnFile(s, s[1]);
    TwoLabels(s, s[0], s[1], (y, FY));
    NoYearOnFile(s, y);
  }

  lemma LabelOnFile(s: seq<Fact>, f: Fact)
    requires f in s && Eligible(f)
    ensures Found(s, LabelOf(f)) != {}
  {
    assert About(Spans(s, FilingOf(f))) in Found(s, LabelOf(f));
  }

  lemma TwoLabels(s: seq<Fact>, f: Fact, g: Fact, key: Label)
    requires s == [f, g] && Eligible(f) && Eligible(g) && LabelOf(f) != key && LabelOf(g) != key
    ensures Unlabelled(s, key)
  {
  }

  ghost predicate Unlabelled(s: seq<Fact>, key: Label) {
    forall f :: f in s && Eligible(f) ==> LabelOf(f) != key
  }

  lemma NoYearOnFile(s: seq<Fact>, fy: int)
    requires Unlabelled(s, (fy, FY))
    ensures YearEntry(s, fy) == Absent
  {
    assert Found(s, (fy, FY)) == {};
  }

  /** These two facts, for any year, make the calendar overflow. */
  lemma LastYearOverflows(y: int)
    ensures EntryFor(LastYearFacts(y), (y, Q1)) == Overflowed
  {
    var last := FullDate(9999, 12, 31);
    LastYearIsYearAndQuarter(y);
    ParseFormat(last);
    PlusDaysNumber(last, LONGEST_YEAR);
    YearThenQuarterOverflows(LastYearFacts(y), y, Format(last));
  }
}

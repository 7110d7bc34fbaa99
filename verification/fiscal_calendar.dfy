/**
 The dates of every fiscal period an issuer has filed a statement for
 (build_fiscal_calendar, _settle and _year_bounds in src/finvet/mcp/fact_selection.py).

 EntryFor says, for each label, what the calendar holds. BuildFiscalCalendar computes it with
 the program's loops and dictionaries; the lemmas are about EntryFor.
 */
module FiscalCalendar {
  import opened Wrappers
  import opened Dates
  import opened Sequences
  import opened FactSelection
  import opened Metrics

  const CALENDAR_CONCEPTS: seq<Concept> := [
    Revenues, RevenueFromContractWithCustomerExcludingAssessedTax, SalesRevenueNet, NetIncomeLoss, ProfitLoss,
    OperatingIncomeLoss, EarningsPerShareBasic, EarningsPerShareDiluted, NetCashProvidedByUsedInOperatingActivities]

  const LONGEST_YEAR: nat := 371

  type Span = (string, string)

  /** (fiscal year, fiscal period, accession): one filing, as it is stamped. */
  type Filing = (int, FiscalPeriod, string)

  datatype Entry = Absent | Ambiguous | Settled(period: Period) | Overflowed

  datatype Bounds = Unknown | Within(after: string, upTo: string) | PastLastDate

  /** The facts the calendar is read from, in the order the program meets them. */
  function CalendarFacts(usGaap: map<Concept, seq<seq<Fact>>>, concepts: seq<Concept>): seq<Fact> {
    if concepts == [] then []
    else
      var front, last := concepts[..|concepts| - 1], concepts[|concepts| - 1];
      CalendarFacts(usGaap, front) + if last in usGaap then UsableFacts(usGaap[last]) else []
  }

  /** A statement flow of the right length for its label that ended before it was filed. */
  predicate Eligible(f: Fact) {
    && Usable(f) && f.fy.Some? && f.fp.Some? && f.fp.value in {FY, Q1, Q2, Q3}
    && f.form.Some? && FormFits(f.form.value, f.fp.value)
    && Days(f).Some? && InSpan(f.fp.value, Days(f).value)
    && !(f.filed != "" && Less(f.filed, f.end.value))
  }

  function LabelOf(f: Fact): Label
    requires Eligible(f)
  {
    (f.fy.value, f.fp.value)
  }

  function FilingOf(f: Fact): Filing
    requires Eligible(f)
  {
    (f.fy.value, f.fp.value, f.accn)
  }

  function SpanOf(f: Fact): Span
    requires Eligible(f)
  {
    (f.start.value, f.end.value)
  }

  predicate InFiling(f: Fact, g: Filing) {
    Eligible(f) && FilingOf(f) == g
  }

  function Spans(facts: seq<Fact>, g: Filing): seq<Span> {
    if facts == [] then []
    else
      var rest := Spans(facts[..|facts| - 1], g);
      var last := facts[|facts| - 1];
      if InFiling(last, g) then rest + [SpanOf(last)] else rest
  }

  lemma {:induction false} SpansMembers(facts: seq<Fact>, g: Filing, s: Span)
    ensures s in Spans(facts, g) <==> exists f :: f in facts && InFiling(f, g) && SpanOf(f) == s
  {
    if facts != [] {
      SplitLast(facts);
      SpansMembers(facts[..|facts| - 1], g, s);
    }
  }

  // ----- the period one filing is about -----

  function LatestEnd(spans: seq<Span>): string {
    if spans == [] then ""
    else Later(LatestEnd(spans[..|spans| - 1]), spans[|spans| - 1].1)
  }

  lemma {:induction false} LatestEndIsLatest(spans: seq<Span>)
    ensures spans != [] ==> exists s :: s in spans && s.1 == LatestEnd(spans)
    ensures forall s :: s in spans ==> AtMost(s.1, LatestEnd(spans))
  {
    LessTotal();
    if spans != [] {
      SplitLast(spans);
      var front, last := spans[..|spans| - 1], spans[|spans| - 1];
      LatestEndIsLatest(front);
      assert last in spans;
      if front == [] {
        assert LatestEnd(spans) == last.1 by { assert Later("", last.1) == last.1; }
      } else {
        var s :| s in front && s.1 == LatestEnd(front);
        assert s in spans;
      }
    }
  }

  function StartsAt(spans: seq<Span>, end: string): seq<string> {
    if spans == [] then []
    else
      var last := spans[|spans| - 1];
      var rest := StartsAt(spans[..|spans| - 1], end);
      if last.1 == end then rest + [last.0] else rest
  }

  lemma {:induction false} StartsAtMembers(spans: seq<Span>, end: string, x: string)
    ensures x in StartsAt(spans, end) <==> (x, end) in spans
  {
    if spans != [] {
      SplitLast(spans);
      StartsAtMembers(spans[..|spans| - 1], end, x);
    }
  }

  ghost predicate IsMode(s: seq<string>, x: string) {
    x in s && forall y :: y in s ==> multiset(s)[y] <= multiset(s)[x]
  }

  /** Counter(s).most_common(1): the first met among the most frequent. */
  function MostCommon(s: seq<string>): string {
    if s == [] then "" else s[MostCommonAt(s, |s|)]
  }

  function MostCommonAt(s: seq<string>, n: nat): (r: nat)
    requires 0 < n <= |s|
    ensures r < n
  {
    if n == 1 then 0
    else
      var m := MostCommonAt(s, n - 1);
      if multiset(s)[s[n - 1]] > multiset(s)[s[m]] then n - 1 else m
  }

  /** The most common start is a most frequent one, and no most frequent one comes before it. */
  lemma {:induction false} MostCommonIsFirst(s: seq<string>, n: nat)
    requires 0 < n <= |s|
    ensures var m := MostCommonAt(s, n);
      && (forall i :: 0 <= i < n ==> multiset(s)[s[i]] <= multiset(s)[s[m]])
      && (forall i :: 0 <= i < m ==> multiset(s)[s[i]] < multiset(s)[s[m]])
  {
    if n > 1 {
      MostCommonIsFirst(s, n - 1);
    }
  }

  lemma MostCommonIsMode(s: seq<string>)
    requires s != []
    ensures IsMode(s, MostCommon(s))
  {
    MostCommonIsFirst(s, |s|);
  }

  /** The latest-ending flow of a filing: its most common start, and its end. */
  function About(spans: seq<Span>): Span {
    (MostCommon(StartsAt(spans, LatestEnd(spans))), LatestEnd(spans))
  }

  lemma AboutIsASpan(spans: seq<Span>)
    requires spans != []
    ensures About(spans) in spans
  {
    var end := LatestEnd(spans);
    LatestEndIsLatest(spans);
    var s :| s in spans && s.1 == end;
    StartsAtMembers(spans, end, s.0);
    MostCommonIsMode(StartsAt(spans, end));
    StartsAtMembers(spans, end, About(spans).0);
  }

  /** Every (start, end) some filing with this label is about. */
  function Found(facts: seq<Fact>, key: Label): set<Span> {
    set f | f in facts && Eligible(f) && LabelOf(f) == key :: About(Spans(facts, FilingOf(f)))
  }

  // ----- settling -----

  lemma {:induction false} LeastExists(s: set<string>)
    requires s != {}
    ensures exists x :: x in s && forall y :: y in s ==> AtMost(x, y)
  {
    var x :| x in s;
    var rest, l := s - {x}, x;
    LessTrichotomy(x, x);
    if rest != {} {
      LeastExists(rest);
      var m :| m in rest && forall y :: y in rest ==> AtMost(m, y);
      l := if Less(m, x) then m else x;
      LessTrichotomy(m, x);
      LessTrichotomy(m, m);
      forall y | y in rest ensures AtMost(l, y) {
        AtMostTransitive(l, m, y);
      }
    }
    assert forall y :: y in s ==> y == x || y in rest;
    assert l in s && forall y :: y in s ==> AtMost(l, y);
  }

  function Least(s: set<string>): (r: string)
    requires s != {}
    ensures r in s && forall y :: y in s ==> AtMost(r, y)
  {
    LeastExists(s);
    LessTotal();
    var x :| x in s && forall y :: y in s ==> AtMost(x, y);
    x
  }

  predicate OneEnd(found: set<Span>) {
    found != {} && forall s, t :: s in found && t in found ==> s.1 == t.1
  }

  /** _settle: one period, with the earliest start, if the filings agree on its end. */
  function Settle(found: set<Span>): (r: Option<Period>)
    requires found != {}
    ensures r.Some? <==> OneEnd(found)
    ensures r.Some? ==> (r.value.start, r.value.end) in found
                        && forall s :: s in found ==> AtMost(r.value.start, s.0) && s.1 == r.value.end
  {
    if !OneEnd(found) then None
    else
      var starts := set s | s in found :: s.0;
      var any :| any in found;
      assert any.0 in starts;
      var start := Least(starts);
      var least :| least in found && least.0 == start;
      Some(Period(start, least.1))
  }

  function Outcome(found: set<Span>): Entry {
    if found == {} then Absent
    else
      var p := Settle(found);
      if p == None then Ambiguous else Settled(p.value)
  }

  function YearEntry(facts: seq<Fact>, fy: int): Entry {
    Outcome(Found(facts, (fy, FY)))
  }

  /** The bounds a year's entry and the entry before it put on the quarters (_year_bounds). */
  function BoundsFrom(year: Entry, before: Entry): Bounds {
    if year.Settled? && year.period.start != "" then Within(year.period.start, year.period.end)
    else if !before.Settled? then Unknown
    else
      var closing := Parse(before.period.end);
      if closing == None then Unknown
      else
        var upTo := PlusDays(closing.value, LONGEST_YEAR);
        if upTo == None then PastLastDate else Within(before.period.end, Format(upTo.value))
  }

  function YearBounds(facts: seq<Fact>, fy: int): Bounds {
    BoundsFrom(YearEntry(facts, fy), YearEntry(facts, fy - 1))
  }

  function Inside(found: set<Span>, b: Bounds): set<Span> {
    match b
    case Within(after, upTo) => set s | s in found && Less(after, s.1) && AtMost(s.1, upTo)
    case _ => found
  }

  function QuarterOutcome(found: set<Span>, b: Bounds): Entry {
    if found == {} then Absent
    else if b == PastLastDate then Overflowed
    else Outcome(Inside(found, b))
  }

  function EntryGiven(key: Label, found: set<Span>, year: Entry, before: Entry): Entry {
    if key.1 == FY then Outcome(found) else QuarterOutcome(found, BoundsFrom(year, before))
  }

  /** What the calendar holds for a label; Overflowed where the program raises OverflowError. */
  function EntryFor(facts: seq<Fact>, key: Label): Entry {
    EntryAt(facts, key.0, key.1)
  }

  function EntryAt(facts: seq<Fact>, fy: int, fp: FiscalPeriod): Entry {
    EntryGiven((fy, fp), Found(facts, (fy, fp)), YearEntry(facts, fy), YearEntry(facts, fy - 1))
  }

  // ----- the program's loops -----

  function Lookup(c: Calendar, key: Label): Entry {
    if key !in c then Absent
    else if c[key] == None then Ambiguous
    else Settled(c[key].value)
  }

  /** r is the calendar of these facts; None is an OverflowError. */
  ghost predicate IsCalendarOf(r: Option<Calendar>, facts: seq<Fact>) {
    && (r == None <==> exists key :: EntryFor(facts, key) == Overflowed)
    && (r.Some? ==> forall key :: Lookup(r.value, key) == EntryFor(facts, key))
  }

  /** The program's concepts are CALENDAR_CONCEPTS. */
  method BuildFrom(usGaap: map<Concept, seq<seq<Fact>>>, concepts: seq<Concept>) returns (r: Option<Calendar>)
    ensures IsCalendarOf(r, CalendarFacts(usGaap, concepts))
  {
    var facts := CalendarFacts(usGaap, concepts);
    var about := GroupByFiling(facts);
    var periods := GroupByLabel(facts, about);
    var years := SettleYears(periods);
    r := SettleQuarters(periods, years);
    CalendarFromPeriods(r, facts, periods);
  }

  ghost predicate GroupsOf(about: map<Filing, seq<Span>>, facts: seq<Fact>) {
    forall g :: (g in about <==> Spans(facts, g) != []) && (g in about ==> about[g] == Spans(facts, g))
  }

  method GroupByFiling(facts: seq<Fact>) returns (about: map<Filing, seq<Span>>)
    ensures GroupsOf(about, facts)
  {
    about := map[];
    for i := 0 to |facts|
      invariant GroupsOf(about, facts[..i])
    {
      assert facts[..i + 1][..i] == facts[..i];
      var f := facts[i];
      if Eligible(f) {
        var g := FilingOf(f);
        var spans := if g in about then about[g] else [];
        about := about[g := spans + [SpanOf(f)]];
      }
    }
    assert facts[..|facts|] == facts;
  }

  ghost predicate PeriodsOf(periods: map<Label, set<Span>>, facts: seq<Fact>) {
    forall key :: (key in periods <==> Found(facts, key) != {}) && (key in periods ==> periods[key] == Found(facts, key))
  }

  lemma FilingSpans(facts: seq<Fact>, f: Fact)
    requires f in facts && Eligible(f)
    ensures Spans(facts, FilingOf(f)) != []
  {
    SpansMembers(facts, FilingOf(f), SpanOf(f));
  }

  lemma FoundFromFilings(facts: seq<Fact>, key: Label, s: Span)
    ensures s in Found(facts, key) <==>
      exists accn :: Spans(facts, (key.0, key.1, accn)) != [] && About(Spans(facts, (key.0, key.1, accn))) == s
  {
    if s in Found(facts, key) {
      var f :| f in facts && Eligible(f) && LabelOf(f) == key && About(Spans(facts, FilingOf(f))) == s;
      FilingSpans(facts, f);
      assert FilingOf(f) == (key.0, key.1, f.accn);
    }
    if accn :| Spans(facts, (key.0, key.1, accn)) != [] && About(Spans(facts, (key.0, key.1, accn))) == s {
      var g := (key.0, key.1, accn);
      SpansMembers(facts, g, Spans(facts, g)[0]);
      var f :| f in facts && InFiling(f, g);
      assert LabelOf(f) == key;
    }
  }

  ghost predicate CollectedFrom(periods: map<Label, set<Span>>, about: map<Filing, seq<Span>>, done: set<Filing>)
  {
    && (forall key :: key in periods ==> periods[key] != {})
    && (forall key, s :: key in periods && s in periods[key] ==>
          exists accn :: (key.0, key.1, accn) in done && (key.0, key.1, accn) in about
                         && About(about[(key.0, key.1, accn)]) == s)
    && (forall g :: g in done && g in about ==> (g.0, g.1) in periods && About(about[g]) in periods[(g.0, g.1)])
  }

  method GroupByLabel(ghost facts: seq<Fact>, about: map<Filing, seq<Span>>) returns (periods: map<Label, set<Span>>)
    requires GroupsOf(about, facts)
    ensures PeriodsOf(periods, facts) && Nonempty(periods)
  {
    periods := CollectByLabel(about);
    forall key ensures (key in periods <==> Found(facts, key) != {})
      ensures key in periods ==> periods[key] == Found(facts, key)
    {
      CollectedEverything(facts, about, periods, key);
    }
  }

  method CollectByLabel(about: map<Filing, seq<Span>>) returns (periods: map<Label, set<Span>>)
    ensures CollectedFrom(periods, about, about.Keys)
  {
    periods := map[];
    var todo := about.Keys;
    while todo != {}
      invariant todo <= about.Keys
      invariant CollectedFrom(periods, about, about.Keys - todo)
    {
      ghost var done := about.Keys - todo;
      var g :| g in todo;
      todo := todo - {g};
      assert about.Keys - todo == done + {g};
      periods := Collect(periods, about, done, g);
    }
    assert about.Keys - todo == about.Keys;
  }

  method Collect(periods: map<Label, set<Span>>, about: map<Filing, seq<Span>>, ghost done: set<Filing>, g: Filing)
    returns (r: map<Label, set<Span>>)
    requires g in about && CollectedFrom(periods, about, done)
    ensures CollectedFrom(r, about, done + {g})
  {
    var key, span := (g.0, g.1), About(about[g]);
    var found := if key in periods then periods[key] else {};
    r := periods[key := found + {span}];
    forall k, s | k in r && s in r[k]
      ensures exists accn :: (k.0, k.1, accn) in done + {g} && (k.0, k.1, accn) in about && About(about[(k.0, k.1, accn)]) == s
    {
      if k == key && s == span {
        assert (k.0, k.1, g.2) == g;
      } else {
        assert k in periods && s in periods[k];
      }
    }
  }

  lemma CollectedEverything(facts: seq<Fact>, about: map<Filing, seq<Span>>, periods: map<Label, set<Span>>, key: Label)
    requires GroupsOf(about, facts) && CollectedFrom(periods, about, about.Keys)
    ensures (key in periods <==> Found(facts, key) != {}) && (key in periods ==> periods[key] == Found(facts, key))
  {
    forall s ensures s in Found(facts, key) <==> key in periods && s in periods[key] {
      FoundFromFilings(facts, key, s);
      if s in Found(facts, key) {
        var accn :| Spans(facts, (key.0, key.1, accn)) != [] && About(Spans(facts, (key.0, key.1, accn))) == s;
        assert (key.0, key.1, accn) in about;
      }
    }
  }

  /** The spans on file for a label. */
  function FoundIn(periods: map<Label, set<Span>>, key: Label): set<Span> {
    if key in periods then periods[key] else {}
  }

  function EntryIn(periods: map<Label, set<Span>>, key: Label): Entry {
    EntryInAt(periods, key.0, key.1)
  }

  function EntryInAt(periods: map<Label, set<Span>>, fy: int, fp: FiscalPeriod): Entry {
    EntryGiven((fy, fp), FoundIn(periods, (fy, fp)), Outcome(FoundIn(periods, (fy, FY))), Outcome(FoundIn(periods, (fy - 1, FY))))
  }

  lemma EntryFromPeriods(facts: seq<Fact>, periods: map<Label, set<Span>>, fy: int, fp: FiscalPeriod)
    requires PeriodsOf(periods, facts)
    ensures EntryInAt(periods, fy, fp) == EntryAt(facts, fy, fp)
  {
    FoundInIsFound(facts, periods, (fy, fp));
    FoundInIsFound(facts, periods, (fy, FY));
    FoundInIsFound(facts, periods, (fy - 1, FY));
  }

  lemma FoundInIsFound(facts: seq<Fact>, periods: map<Label, set<Span>>, key: Label)
    requires PeriodsOf(periods, facts)
    ensures FoundIn(periods, key) == Found(facts, key)
  {
  }

  lemma CalendarFromPeriods(r: Option<Calendar>, facts: seq<Fact>, periods: map<Label, set<Span>>)
    requires PeriodsOf(periods, facts) && IsCalendarIn(r, periods)
    ensures IsCalendarOf(r, facts)
  {
    forall key ensures EntryIn(periods, key) == EntryFor(facts, key) {
      EntryFromPeriods(facts, periods, key.0, key.1);
    }
  }

  ghost predicate IsCalendarIn(r: Option<Calendar>, periods: map<Label, set<Span>>) {
    && (r == None <==> exists key :: EntryIn(periods, key) == Overflowed)
    && (r.Some? ==> forall key :: Lookup(r.value, key) == EntryIn(periods, key))
  }

  ghost predicate Nonempty(periods: map<Label, set<Span>>) {
    forall key :: key in periods ==> periods[key] != {}
  }

  method SettleYears(periods: map<Label, set<Span>>) returns (calendar: Calendar)
    requires Nonempty(periods)
    ensures forall key :: Lookup(calendar, key) == if key.1 == FY then Outcome(FoundIn(periods, key)) else Absent
  {
    calendar := map[];
    var todo := periods.Keys;
    while todo != {}
      invariant todo <= periods.Keys
      invariant forall key ::
                  Lookup(calendar, key) == if key.1 == FY && key !in todo then Outcome(FoundIn(periods, key)) else Absent
    {
      var key :| key in todo;
      todo := todo - {key};
      if key.1 == FY {
        calendar := calendar[key := Settle(periods[key])];
      }
    }
  }

  /** The years are settled, and so are the quarters that are not still to do. */
  ghost predicate SettledBut(calendar: Calendar, periods: map<Label, set<Span>>, todo: set<Label>) {
    forall key :: Lookup(calendar, key) ==
      if key.1 == FY then Outcome(FoundIn(periods, key)) else if key in todo then Absent else EntryIn(periods, key)
  }

  /** The calendar with the key settled on what was found, if anything was. */
  function SettleInto(calendar: Calendar, key: Label, found: set<Span>): Calendar {
    if found != {} then calendar[key := Settle(found)] else calendar
  }

  lemma NothingOnFile(periods: map<Label, set<Span>>, key: Label)
    requires key !in periods
    ensures EntryIn(periods, key) == Absent
  {
    assert FoundIn(periods, key) == {};
  }

  lemma QuarterSettled(calendar: Calendar, periods: map<Label, set<Span>>, todo: set<Label>, fy: int, fp: FiscalPeriod)
    requires SettledBut(calendar, periods, todo) && fp != FY && (fy, fp) in todo && (fy, fp) in periods && periods[(fy, fp)] != {}
    ensures var bounds := BoundsFrom(Lookup(calendar, (fy, FY)), Lookup(calendar, (fy - 1, FY)));
      && (EntryIn(periods, (fy, fp)) == Overflowed <==> bounds == PastLastDate)
      && (bounds != PastLastDate ==>
            SettledBut(SettleInto(calendar, (fy, fp), Inside(periods[(fy, fp)], bounds)), periods, todo - {(fy, fp)}))
  {
    var found := periods[(fy, fp)];
    assert Lookup(calendar, (fy, FY)) == Outcome(FoundIn(periods, (fy, FY)));
    assert Lookup(calendar, (fy - 1, FY)) == Outcome(FoundIn(periods, (fy - 1, FY)));
    var bounds := BoundsFrom(Lookup(calendar, (fy, FY)), Lookup(calendar, (fy - 1, FY)));
    assert EntryIn(periods, (fy, fp)) == QuarterOutcome(found, bounds);
    QuarterOverflow(found, bounds);
    if bounds != PastLastDate {
      KeySettled(calendar, periods, todo, (fy, fp), Inside(found, bounds));
    }
  }

  lemma KeySettled(calendar: Calendar, periods: map<Label, set<Span>>, todo: set<Label>, key: Label, found: set<Span>)
    requires SettledBut(calendar, periods, todo) && key.1 != FY && key in todo && EntryIn(periods, key) == Outcome(found)
    ensures SettledBut(SettleInto(calendar, key, found), periods, todo - {key})
  {
    assert Lookup(calendar, key) == Absent;
    assert Lookup(SettleInto(calendar, key, found), key) == Outcome(found);
  }

  method SettleQuarters(periods: map<Label, set<Span>>, years: Calendar) returns (r: Option<Calendar>)
    requires Nonempty(periods)
    requires forall key :: Lookup(years, key) == if key.1 == FY then Outcome(FoundIn(periods, key)) else Absent
    ensures IsCalendarIn(r, periods)
  {
    var calendar := years;
    var todo := periods.Keys;
    forall key | key !in periods { NothingOnFile(periods, key); }
    while todo != {}
      invariant todo <= periods.Keys && SettledBut(calendar, periods, todo)
      invariant forall key :: key !in todo ==> EntryIn(periods, key) != Overflowed
    {
      var key :| key in todo;
      var next := SettleQuarter(periods, calendar, todo, key.0, key.1);
      if next == None {
        return None;
      }
      calendar, todo := next.value, todo - {key};
    }
    r := Some(calendar);
  }

  /** The body of the loop over quarters; years pass through it. */
  method SettleQuarter(periods: map<Label, set<Span>>, calendar: Calendar, ghost todo: set<Label>, fy: int, fp: FiscalPeriod)
    returns (r: Option<Calendar>)
    requires SettledBut(calendar, periods, todo) && (fy, fp) in todo && (fy, fp) in periods && periods[(fy, fp)] != {}
    ensures r == None <==> EntryIn(periods, (fy, fp)) == Overflowed
    ensures r.Some? ==> SettledBut(r.value, periods, todo - {(fy, fp)})
  {
    if fp == FY {
      YearPasses(calendar, periods, todo, fy);
      return Some(calendar);
    }
    QuarterSettled(calendar, periods, todo, fy, fp);
    var bounds := BoundsFrom(Lookup(calendar, (fy, FY)), Lookup(calendar, (fy - 1, FY)));
    if bounds == PastLastDate {
      return None;
    }
    r := Some(SettleInto(calendar, (fy, fp), Inside(periods[(fy, fp)], bounds)));
  }

  lemma YearPasses(calendar: Calendar, periods: map<Label, set<Span>>, todo: set<Label>, fy: int)
    requires SettledBut(calendar, periods, todo)
    ensures EntryIn(periods, (fy, FY)) != Overflowed && SettledBut(calendar, periods, todo - {(fy, FY)})
  {
    YearNeverOverflows(FoundIn(periods, (fy, FY)));
  }

  // ----- every settled period is witnessed -----

  ghost predicate Witnessed(facts: seq<Fact>, key: Label, p: Period) {
    exists f :: f in facts && Eligible(f) && LabelOf(f) == key && SpanOf(f) == (p.start, p.end)
  }

  lemma FoundIsWitnessed(facts: seq<Fact>, key: Label, s: Span)
    requires s in Found(facts, key)
    ensures Witnessed(facts, key, Period(s.0, s.1))
  {
    var f :| f in facts && Eligible(f) && LabelOf(f) == key && About(Spans(facts, FilingOf(f))) == s;
    FilingSpans(facts, f);
    AboutIsASpan(Spans(facts, FilingOf(f)));
    SpansMembers(facts, FilingOf(f), s);
    var g :| g in facts && InFiling(g, FilingOf(f)) && SpanOf(g) == s;
    assert LabelOf(g) == key;
  }

  /**
   A settled period is the span of an actual statement flow with its label, filed no earlier than it
   ended, and is as long as a year or a quarter should be even though its start is the earliest found.
   */
  lemma SettledIsWitnessed(facts: seq<Fact>, key: Label)
    requires EntryFor(facts, key).Settled?
    ensures var p := EntryFor(facts, key).period;
      && (exists f :: f in facts && IsStatementFact(f) && f.fy == Some(key.0) && f.fp == Some(key.1)
                      && f.start == Some(p.start) && f.end == Some(p.end)
                      && (f.filed != "" ==> AtMost(p.end, f.filed)))
      && DaysBetween(p.start, p.end).Some?
      && (if key.1 == FY then 330 <= DaysBetween(p.start, p.end).value <= 400
          else 75 <= DaysBetween(p.start, p.end).value <= 105)
  {
    var p := EntryFor(facts, key).period;
    assert (p.start, p.end) in Found(facts, key);
    WitnessOf(facts, key, p);
  }

  lemma WitnessOf(facts: seq<Fact>, key: Label, p: Period)
    requires (p.start, p.end) in Found(facts, key)
    ensures exists f :: f in facts && IsStatementFact(f) && f.fy == Some(key.0) && f.fp == Some(key.1)
                        && f.start == Some(p.start) && f.end == Some(p.end) && (f.filed != "" ==> AtMost(p.end, f.filed))
    ensures DaysBetween(p.start, p.end).Some?
    ensures if key.1 == FY then 330 <= DaysBetween(p.start, p.end).value <= 400
            else 75 <= DaysBetween(p.start, p.end).value <= 105
  {
    FoundIsWitnessed(facts, key, (p.start, p.end));
    var f :| f in facts && Eligible(f) && LabelOf(f) == key && SpanOf(f) == (p.start, p.end);
    assert IsStatementFact(f) && f.start == Some(p.start) && f.end == Some(p.end);
  }

  function DayOf(s: string): int
    requires Parse(s).Some?
  {
    DayNumber(Parse(s).value)
  }

  /**
   A settled quarter ends inside its own fiscal year when that is settled, and otherwise, when the
   year before is, within 371 days after that year's end. Both in day numbers, although the program
   compares strings.
   */
  lemma QuarterInsideYear(facts: seq<Fact>, fy: int, fp: FiscalPeriod)
    requires fp != FY && EntryFor(facts, (fy, fp)).Settled?
    ensures var q := EntryFor(facts, (fy, fp)).period;
      var year, before := YearEntry(facts, fy), YearEntry(facts, fy - 1);
      && Parse(q.end).Some?
      && (year.Settled? ==>
            && Parse(year.period.start).Some? && Parse(year.period.end).Some?
            && DayOf(year.period.start) < DayOf(q.end) <= DayOf(year.period.end))
      && (!year.Settled? && before.Settled? ==>
            && Parse(before.period.end).Some?
            && DayOf(before.period.end) < DayOf(q.end) <= DayOf(before.period.end) + LONGEST_YEAR)
  {
    var q := EntryFor(facts, (fy, fp)).period;
    var year, before := YearEntry(facts, fy), YearEntry(facts, fy - 1);
    SettledDates(facts, (fy, fp));
    InsideOutcome(Found(facts, (fy, fp)), BoundsFrom(year, before));
    if year.Settled? {
      SettledDates(facts, (fy, FY));
      LessAgrees(year.period.start, q.end);
      LessAgrees(year.period.end, q.end);
    } else if before.Settled? {
      SettledDates(facts, (fy - 1, FY));
      InsideYearAfter(before.period.end, q.end, BoundsFrom(year, before));
    }
  }

  lemma SettledDates(facts: seq<Fact>, key: Label)
    requires EntryFor(facts, key).Settled?
    ensures var p := EntryFor(facts, key).period;
      p.start != "" && Parse(p.start).Some? && Parse(p.end).Some?
  {
    SettledIsWitnessed(facts, key);
  }

  lemma InsideOutcome(found: set<Span>, b: Bounds)
    requires QuarterOutcome(found, b).Settled?
    ensures b != PastLastDate
    ensures var q := QuarterOutcome(found, b).period;
      b.Within? ==> Less(b.after, q.end) && AtMost(q.end, b.upTo)
  {
    if b.Within? {
      var q := QuarterOutcome(found, b).period;
      assert (q.start, q.end) in Inside(found, b);
    }
  }

  lemma InsideYearAfter(close: string, end: string, b: Bounds)
    requires Parse(close).Some? && Parse(end).Some?
    requires var upTo := PlusDays(Parse(close).value, LONGEST_YEAR);
      upTo.Some? ==> b == Within(close, Format(upTo.value)) && Less(close, end) && AtMost(end, Format(upTo.value))
    requires PlusDays(Parse(close).value, LONGEST_YEAR).Some?
    ensures DayOf(close) < DayOf(end) <= DayOf(close) + LONGEST_YEAR
  {
    var closing := Parse(close).value;
    PlusDaysNumber(closing, LONGEST_YEAR);
    var upTo := PlusDays(closing, LONGEST_YEAR).value;
    ParseFormat(upTo);
    LessAgrees(close, end);
    LessAgrees(Format(upTo), end);
  }

  /** 371 days after the year's end there is no date any more. */
  predicate ClosesTooLate(year: Entry) {
    year.Settled? && Parse(year.period.end).Some? && PlusDays(Parse(year.period.end).value, LONGEST_YEAR) == None
  }

  /** The calendar fails exactly when a labelled quarter must be bounded by a date past 9999-12-31. */
  lemma OverflowCondition(facts: seq<Fact>, fy: int, fp: FiscalPeriod)
    ensures EntryFor(facts, (fy, fp)) == Overflowed <==>
      fp != FY && Found(facts, (fy, fp)) != {} && !YearEntry(facts, fy).Settled? && ClosesTooLate(YearEntry(facts, fy - 1))
  {
    SettledYearStarts(facts, fy);
    EntryOverflows((fy, fp), Found(facts, (fy, fp)), YearEntry(facts, fy), YearEntry(facts, fy - 1));
  }

  lemma EntryOverflows(key: Label, found: set<Span>, year: Entry, before: Entry)
    requires year.Settled? ==> year.period.start != ""
    ensures EntryGiven(key, found, year, before) == Overflowed <==>
      && key.1 != FY && found != {}
      && !year.Settled? && ClosesTooLate(before)
  {
    BoundsOverflow(year, before);
    if key.1 == FY {
      YearNeverOverflows(found);
    } else {
      QuarterOverflow(found, BoundsFrom(year, before));
    }
  }

  lemma YearNeverOverflows(found: set<Span>)
    ensures Outcome(found) != Overflowed
  {
  }

  lemma QuarterOverflow(found: set<Span>, b: Bounds)
    ensures QuarterOutcome(found, b) == Overflowed <==> found != {} && b == PastLastDate
  {
  }

  lemma BoundsOverflow(year: Entry, before: Entry)
    requires year.Settled? ==> year.period.start != ""
    ensures BoundsFrom(year, before) == PastLastDate <==>
      && !year.Settled? && ClosesTooLate(before)
  {
  }

  lemma SettledYearStarts(facts: seq<Fact>, fy: int)
    ensures YearEntry(facts, fy).Settled? ==> YearEntry(facts, fy).period.start != ""
  {
    assert EntryFor(facts, (fy, FY)) == YearEntry(facts, fy);
    if YearEntry(facts, fy).Settled? {
      SettledDates(facts, (fy, FY));
    }
  }

  // ----- facts that leave the calendar alone -----

  lemma {:induction false} SpansOfSum(a: seq<Fact>, b: seq<Fact>, g: Filing)
    ensures Spans(a + b, g) == Spans(a, g) + Spans(b, g)
  {
    if b == [] {
      assert a + b == a;
    } else {
      assert (a + b)[..|a + b| - 1] == a + b[..|b| - 1];
      SpansOfSum(a, b[..|b| - 1], g);
    }
  }

  lemma {:induction false} StartsOfSum(a: seq<Span>, b: seq<Span>, end: string)
    ensures StartsAt(a + b, end) == StartsAt(a, end) + StartsAt(b, end)
  {
    if b == [] {
      assert a + b == a;
    } else {
      assert (a + b)[..|a + b| - 1] == a + b[..|b| - 1];
      StartsOfSum(a, b[..|b| - 1], end);
    }
  }

  /** f's own filing holds a flow that ends later, so f is a comparative in it. */
  ghost predicate Comparative(facts: seq<Fact>, f: Fact) {
    Eligible(f) && exists g :: g in facts && InFiling(g, FilingOf(f)) && Less(f.end.value, g.end.value)
  }

  lemma FilingUnmoved(a: seq<Fact>, f: Fact, b: seq<Fact>, g: Filing)
    requires !Eligible(f) || Comparative(a + b, f)
    ensures Spans(a + [f] + b, g) != [] <==> Spans(a + b, g) != []
    ensures Spans(a + b, g) != [] ==> About(Spans(a + [f] + b, g)) == About(Spans(a + b, g))
  {
    SpansOfSum(a, [f], g);
    SpansOfSum(a + [f], b, g);
    SpansOfSum(a, b, g);
    if InFiling(f, g) {
      var later :| later in a + b && InFiling(later, g) && Less(f.end.value, later.end.value);
      SpansMembers(a + b, g, SpanOf(later));
      var u, v, s := Spans(a, g), Spans(b, g), SpanOf(f);
      assert Spans([f], g) == [s];
      ComparativeSpan(u, s, v, SpanOf(later));
    } else {
      assert Spans([f], g) == [];
    }
  }

  lemma ComparativeSpan(u: seq<Span>, s: Span, v: seq<Span>, later: Span)
    requires later in u + v && Less(s.1, later.1)
    ensures About(u + [s] + v) == About(u + v)
  {
    LessTotal();
    var end := LatestEnd(u + v);
    assert forall x :: x in u + [s] + v <==> x in u + v || x == s;
    LatestEndIsLatest(u + v);
    LatestEndIsLatest(u + [s] + v);
    assert LatestEnd(u + [s] + v) == end;
    StartsOfSum(u, [s], end);
    StartsOfSum(u + [s], v, end);
    StartsOfSum(u, v, end);
    assert StartsAt([s], end) == [];
  }

  /**
   Adding, anywhere, a fact from a form that is no statement of its label's kind, a fact filed before
   its own end, one of the wrong length, or a comparative ending before its own filing's latest flow
   changes nothing in the calendar.
   */
  lemma IrrelevantFact(a: seq<Fact>, f: Fact, b: seq<Fact>, key: Label)
    requires !Eligible(f) || Comparative(a + b, f)
    ensures EntryFor(a + [f] + b, key) == EntryFor(a + b, key)
  {
    FoundUnmoved(a, f, b, key);
    FoundUnmoved(a, f, b, (key.0, FY));
    FoundUnmoved(a, f, b, (key.0 - 1, FY));
  }

  lemma FoundUnmoved(a: seq<Fact>, f: Fact, b: seq<Fact>, key: Label)
    requires !Eligible(f) || Comparative(a + b, f)
    ensures Found(a + [f] + b, key) == Found(a + b, key)
  {
    forall s ensures s in Found(a + [f] + b, key) <==> s in Found(a + b, key) {
      FoundFromFilings(a + [f] + b, key, s);
      FoundFromFilings(a + b, key, s);
      forall accn { FilingUnmoved(a, f, b, (key.0, key.1, accn)); }
    }
  }

  /** Every eligible fact in more belongs to the filing g, which facts does not know. */
  ghost predicate NewFiling(facts: seq<Fact>, more: seq<Fact>, g: Filing) {
    Spans(facts, g) == [] && forall f :: f in more && Eligible(f) ==> FilingOf(f) == g
  }

  lemma SpansWithNewFiling(facts: seq<Fact>, more: seq<Fact>, added: Filing, g: Filing)
    requires NewFiling(facts, more, added)
    ensures Spans(facts + more, g) == if g == added then Spans(more, g) else Spans(facts, g)
  {
    SpansOfSum(facts, more, g);
    if g != added && Spans(more, g) != [] {
      SpansMembers(more, g, Spans(more, g)[0]);
    }
  }

  lemma FoundWithNewFiling(facts: seq<Fact>, more: seq<Fact>, g: Filing, s: Span)
    requires NewFiling(facts, more, g)
    ensures s in Found(facts + more, (g.0, g.1)) <==>
      s in Found(facts, (g.0, g.1)) || (Spans(more, g) != [] && s == About(Spans(more, g)))
  {
    var key := (g.0, g.1);
    FoundFromFilings(facts, key, s);
    FoundFromFilings(facts + more, key, s);
    forall accn { SpansWithNewFiling(facts, more, g, (key.0, key.1, accn)); }
    assert (key.0, key.1, g.2) == g;
  }

  /** An annual filing that is new to a settled year confirms its end or makes the year ambiguous. */
  lemma AnotherAnnualReport(facts: seq<Fact>, more: seq<Fact>, fy: int, accn: string)
    requires YearEntry(facts, fy).Settled?
    requires NewFiling(facts, more, (fy, FY, accn))
    ensures var before, after := YearEntry(facts, fy), YearEntry(facts + more, fy);
      && (after == Ambiguous || (after.Settled? && after.period.end == before.period.end))
      && (after == Ambiguous <==>
            Spans(more, (fy, FY, accn)) != [] && LatestEnd(Spans(more, (fy, FY, accn))) != before.period.end)
  {
    var found, g := Found(facts, (fy, FY)), (fy, FY, accn);
    var wider := Found(facts + more, (fy, FY));
    forall s ensures s in wider <==> s in found || (Spans(more, g) != [] && s == About(Spans(more, g))) {
      FoundWithNewFiling(facts, more, g, s);
    }
    if Spans(more, g) == [] {
      assert wider == found;
    } else {
      assert wider == found + {About(Spans(more, g))};
      OneMoreSpan(found, About(Spans(more, g)));
    }
  }

  lemma OneMoreSpan(found: set<Span>, s: Span)
    requires Outcome(found).Settled?
    ensures var before, after := Outcome(found), Outcome(found + {s});
      && (s.1 == before.period.end ==> after.Settled? && after.period.end == before.period.end)
      && (s.1 != before.period.end ==> after == Ambiguous)
  {
    var p := Outcome(found).period;
    assert (p.start, p.end) in found + {s} && s in found + {s};
  }
}

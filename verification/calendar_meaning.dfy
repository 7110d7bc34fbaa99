/**
 What the fiscal calendar holds, said of the rows on file themselves: which rows date a period, which of
 them a filing is about, and when the filings agree (build_fiscal_calendar in src/finvet/mcp/fact_selection.py).
 */
module CalendarMeaning {
  import opened Wrappers
  import opened Dates
  import opened Sequences
  import opened FactSelection
  import opened Metrics
  import opened FiscalCalendar

  /** An issuer's us-gaap facts: for each concept its units, and each unit's rows. */
  type UsGaap = map<Concept, seq<seq<Fact>>>

  /** A row of some unit of one of the nine concepts that date a filing. */
  ghost predicate OnFile(usGaap: UsGaap, f: Fact) {
    exists c :: c in usGaap
      && c in {Revenues, RevenueFromContractWithCustomerExcludingAssessedTax, SalesRevenueNet, NetIncomeLoss, ProfitLoss,
               OperatingIncomeLoss, EarningsPerShareBasic, EarningsPerShareDiluted, NetCashProvidedByUsedInOperatingActivities}
      && exists u :: u in usGaap[c] && f in u
  }

  /**
   A row stamped with the label by a form of its kind, with a value, that covers a year for FY and a quarter
   otherwise and ended before it was filed.
   */
  ghost predicate DatesPeriod(f: Fact, fy: int, fp: FiscalPeriod) {
    && f.val.Some? && f.fy == Some(fy) && f.fp == Some(fp) && fp in {FY, Q1, Q2, Q3}
    && f.form.Some?
    && (if fp == FY
        then f.form.value in {Form10K, Form10KA, Form10KT, Form10KTA, Form20F, Form20FA, Form40F, Form40FA}
        else f.form.value in {Form10Q, Form10QA, Form10QT, Form10QTA})
    && f.start.Some? && Parse(f.start.value).Some? && f.end.Some? && Parse(f.end.value).Some?
    && (var days := DayOf(f.end.value) - DayOf(f.start.value);
        if fp == FY then 330 <= days <= 400 else 75 <= days <= 105)
    && (f.filed == "" || !Less(f.filed, f.end.value))
  }

  ghost predicate Flow(usGaap: UsGaap, fy: int, fp: FiscalPeriod, f: Fact) {
    OnFile(usGaap, f) && DatesPeriod(f, fy, fp)
  }

  /** No flow of its filing under the same label ends later. */
  ghost predicate LatestFlow(usGaap: UsGaap, fy: int, fp: FiscalPeriod, f: Fact) {
    && Flow(usGaap, fy, fp, f)
    && forall g :: Flow(usGaap, fy, fp, g) && g.accn == f.accn ==> DayOf(g.end.value) <= DayOf(f.end.value)
  }

  /** How many of the rows are flows of this filing with exactly these dates. */
  ghost function Times(facts: seq<Fact>, fy: int, fp: FiscalPeriod, accn: string, start: string, end: string): nat {
    if facts == [] then 0
    else
      var last := facts[|facts| - 1];
      Times(facts[..|facts| - 1], fy, fp, accn, start, end)
      + if DatesPeriod(last, fy, fp) && last.accn == accn && last.start == Some(start) && last.end == Some(end) then 1 else 0
  }

  /** A latest flow of its filing with the start most of them have. */
  ghost predicate CommonStart(usGaap: UsGaap, fy: int, fp: FiscalPeriod, f: Fact) {
    && LatestFlow(usGaap, fy, fp, f)
    && forall x :: Times(CalendarFacts(usGaap, CALENDAR_CONCEPTS), fy, fp, f.accn, x, f.end.value)
                   <= Times(CalendarFacts(usGaap, CALENDAR_CONCEPTS), fy, fp, f.accn, f.start.value, f.end.value)
  }

  /** Some filing stamped with the label is about a period that ends then. */
  ghost predicate FilingEnds(usGaap: UsGaap, fy: int, fp: FiscalPeriod, end: string) {
    exists f :: LatestFlow(usGaap, fy, fp, f) && f.end == Some(end)
  }

  ghost predicate Knows(calendar: Calendar, fy: int) {
    (fy, FY) in calendar && calendar[(fy, FY)].Some?
  }

  /** The end is in the fiscal year, or in the 371 days after the year before if only that is known. */
  ghost predicate InYear(calendar: Calendar, fy: int, end: string)
    requires Parse(end).Some?
  {
    if Knows(calendar, fy) then
      var year := calendar[(fy, FY)].value;
      && Parse(year.start).Some? && Parse(year.end).Some?
      && DayOf(year.start) < DayOf(end) <= DayOf(year.end)
    else if Knows(calendar, fy - 1) then
      var before := calendar[(fy - 1, FY)].value;
      && Parse(before.end).Some?
      && DayOf(before.end) < DayOf(end) <= DayOf(before.end) + 371
    else true
  }

  /** An end that some filing gives the period; a quarter's counts only inside its year. */
  ghost predicate Counts(usGaap: UsGaap, calendar: Calendar, fy: int, fp: FiscalPeriod, end: string) {
    FilingEnds(usGaap, fy, fp, end) && Parse(end).Some? && (fp != FY ==> InYear(calendar, fy, end))
  }

  // ----- the rows read are the rows on file -----

  lemma {:induction false} CalendarFactsMembers(usGaap: UsGaap, concepts: seq<Concept>, f: Fact)
    ensures f in CalendarFacts(usGaap, concepts) <==>
      Usable(f) && exists c :: c in concepts && c in usGaap && exists u :: u in usGaap[c] && f in u
  {
    if concepts != [] {
      SplitLast(concepts);
      var front, last := concepts[..|concepts| - 1], concepts[|concepts| - 1];
      CalendarFactsMembers(usGaap, front, f);
      if last in usGaap {
        UsableFactsMembers(usGaap[last], f);
      }
      assert forall c :: c in concepts <==> c in front || c == last;
    }
  }

  /** They are read concept by concept, each from its first unit on. */
  lemma ConceptsInOrder(usGaap: UsGaap, a: seq<Concept>, b: seq<Concept>)
    ensures CalendarFacts(usGaap, a + b) == CalendarFacts(usGaap, a) + CalendarFacts(usGaap, b)
    ensures forall c :: c in usGaap ==> CalendarFacts(usGaap, [c]) == UsableFacts(usGaap[c])
  {
    forall c | c in usGaap ensures CalendarFacts(usGaap, [c]) == UsableFacts(usGaap[c]) {
      assert [c][..0] == [] && CalendarFacts(usGaap, [c][..0]) == [];
    }
    ConceptsJoin(usGaap, a, b);
  }

  lemma {:induction false} ConceptsJoin(usGaap: UsGaap, a: seq<Concept>, b: seq<Concept>)
    ensures CalendarFacts(usGaap, a + b) == CalendarFacts(usGaap, a) + CalendarFacts(usGaap, b)
  {
    if b == [] {
      assert a + b == a;
    } else {
      ConceptsJoin(usGaap, a, b[..|b| - 1]);
      LastConceptRead(usGaap, a, b);
      Regroup(CalendarFacts(usGaap, a), CalendarFacts(usGaap, b[..|b| - 1]), RowsOf(usGaap, b[|b| - 1]));
    }
  }

  function RowsOf(usGaap: UsGaap, c: Concept): seq<Fact> {
    if c in usGaap then UsableFacts(usGaap[c]) else []
  }

  lemma LastConceptRead(usGaap: UsGaap, a: seq<Concept>, b: seq<Concept>)
    requires b != []
    ensures CalendarFacts(usGaap, a + b) == CalendarFacts(usGaap, a + b[..|b| - 1]) + RowsOf(usGaap, b[|b| - 1])
    ensures CalendarFacts(usGaap, b) == CalendarFacts(usGaap, b[..|b| - 1]) + RowsOf(usGaap, b[|b| - 1])
  {
    assert (a + b)[..|a + b| - 1] == a + b[..|b| - 1];
  }

  lemma OnFileIsRead(usGaap: UsGaap, f: Fact)
    ensures f in CalendarFacts(usGaap, CALENDAR_CONCEPTS) <==> Usable(f) && OnFile(usGaap, f)
  {
    CalendarFactsMembers(usGaap, CALENDAR_CONCEPTS, f);
    assert forall c :: c in CALENDAR_CONCEPTS <==>
      c in {Revenues, RevenueFromContractWithCustomerExcludingAssessedTax, SalesRevenueNet, NetIncomeLoss, ProfitLoss,
            OperatingIncomeLoss, EarningsPerShareBasic, EarningsPerShareDiluted, NetCashProvidedByUsedInOperatingActivities};
  }

  lemma DatesPeriodIff(f: Fact, fy: int, fp: FiscalPeriod)
    ensures DatesPeriod(f, fy, fp) <==> Eligible(f) && LabelOf(f) == (fy, fp)
  {
  }

  /** A flow is exactly a row the calendar is read from, eligible and so labelled. */
  lemma FlowIff(usGaap: UsGaap, fy: int, fp: FiscalPeriod, f: Fact)
    ensures Flow(usGaap, fy, fp, f) <==>
      f in CalendarFacts(usGaap, CALENDAR_CONCEPTS) && Eligible(f) && LabelOf(f) == (fy, fp)
  {
    OnFileIsRead(usGaap, f);
    DatesPeriodIff(f, fy, fp);
  }

  // ----- what a filing is about -----

  lemma {:induction false} TimesIsCount(facts: seq<Fact>, fy: int, fp: FiscalPeriod, accn: string, start: string, end: string)
    ensures Times(facts, fy, fp, accn, start, end) == multiset(StartsAt(Spans(facts, (fy, fp, accn)), end))[start]
  {
    if facts != [] {
      var front, last := facts[..|facts| - 1], facts[|facts| - 1];
      TimesIsCount(front, fy, fp, accn, start, end);
      DatesPeriodIff(last, fy, fp);
      if InFiling(last, (fy, fp, accn)) {
        StartsSnoc(Spans(front, (fy, fp, accn)), SpanOf(last), end);
      }
    }
  }

  lemma StartsSnoc(spans: seq<Span>, s: Span, end: string)
    ensures StartsAt(spans + [s], end) == StartsAt(spans, end) + if s.1 == end then [s.0] else []
  {
    assert (spans + [s])[..|spans|] == spans;
  }

  lemma AboutIsCommon(usGaap: UsGaap, fy: int, fp: FiscalPeriod, h: Fact)
    requires LatestFlow(usGaap, fy, fp, h)
    requires (h.start.value, h.end.value) == About(Spans(CalendarFacts(usGaap, CALENDAR_CONCEPTS), (fy, fp, h.accn)))
    ensures CommonStart(usGaap, fy, fp, h)
  {
    var facts := CalendarFacts(usGaap, CALENDAR_CONCEPTS);
    var starts := StartsAt(Spans(facts, (fy, fp, h.accn)), h.end.value);
    FlowIff(usGaap, fy, fp, h);
    SpansMembers(facts, (fy, fp, h.accn), SpanOf(h));
    StartsAtMembers(Spans(facts, (fy, fp, h.accn)), h.end.value, h.start.value);
    MostCommonIsMode(starts);
    forall x ensures Times(facts, fy, fp, h.accn, x, h.end.value) <= Times(facts, fy, fp, h.accn, h.start.value, h.end.value) {
      TimesIsCount(facts, fy, fp, h.accn, x, h.end.value);
      TimesIsCount(facts, fy, fp, h.accn, h.start.value, h.end.value);
    }
  }

  /** What a label was found to span ends where some filing's latest flow does, and the other way round. */
  lemma FoundIsLatest(usGaap: UsGaap, fy: int, fp: FiscalPeriod, s: Span)
    requires s in Found(CalendarFacts(usGaap, CALENDAR_CONCEPTS), (fy, fp))
    ensures exists f :: CommonStart(usGaap, fy, fp, f) && (f.start.value, f.end.value) == s
  {
    var facts := CalendarFacts(usGaap, CALENDAR_CONCEPTS);
    var f :| f in facts && Eligible(f) && LabelOf(f) == (fy, fp) && About(Spans(facts, FilingOf(f))) == s;
    var g := FilingOf(f);
    FilingSpans(facts, f);
    AboutIsASpan(Spans(facts, g));
    SpansMembers(facts, g, s);
    var h :| h in facts && InFiling(h, g) && SpanOf(h) == s;
    FlowIff(usGaap, fy, fp, h);
    LatestOfFiling(usGaap, fy, fp, h);
    AboutIsCommon(usGaap, fy, fp, h);
  }

  lemma LatestOfFiling(usGaap: UsGaap, fy: int, fp: FiscalPeriod, h: Fact)
    requires Flow(usGaap, fy, fp, h)
    ensures LatestFlow(usGaap, fy, fp, h) <==>
      LatestEnd(Spans(CalendarFacts(usGaap, CALENDAR_CONCEPTS), (fy, fp, h.accn))) == h.end.value
  {
    var facts, g := CalendarFacts(usGaap, CALENDAR_CONCEPTS), (fy, fp, h.accn);
    var spans := Spans(facts, g);
    FlowIff(usGaap, fy, fp, h);
    FilingSpans(facts, h);
    LatestEndIsLatest(spans);
    SpansMembers(facts, g, SpanOf(h));
    var s :| s in spans && s.1 == LatestEnd(spans);
    SpansMembers(facts, g, s);
    var top :| top in facts && InFiling(top, g) && SpanOf(top) == s;
    FlowIff(usGaap, fy, fp, top);
    LessAgrees(h.end.value, top.end.value);
    forall k | Flow(usGaap, fy, fp, k) && k.accn == h.accn ensures DayOf(k.end.value) <= DayOf(top.end.value) {
      FlowIff(usGaap, fy, fp, k);
      SpansMembers(facts, g, SpanOf(k));
      LessAgrees(top.end.value, k.end.value);
    }
  }

  /** Every filing's latest end is found, with a start of one of its flows that end then. */
  lemma LatestIsFound(usGaap: UsGaap, fy: int, fp: FiscalPeriod, f: Fact) returns (s: Span)
    requires LatestFlow(usGaap, fy, fp, f)
    ensures s in Found(CalendarFacts(usGaap, CALENDAR_CONCEPTS), (fy, fp)) && s.1 == f.end.value
    ensures exists g :: CommonStart(usGaap, fy, fp, g) && g.accn == f.accn && (g.start.value, g.end.value) == s
  {
    var facts, g := CalendarFacts(usGaap, CALENDAR_CONCEPTS), (fy, fp, f.accn);
    FlowIff(usGaap, fy, fp, f);
    LatestOfFiling(usGaap, fy, fp, f);
    FilingSpans(facts, f);
    s := About(Spans(facts, g));
    AboutIsASpan(Spans(facts, g));
    SpansMembers(facts, g, s);
    var h :| h in facts && InFiling(h, g) && SpanOf(h) == s;
    FlowIff(usGaap, fy, fp, h);
    LatestOfFiling(usGaap, fy, fp, h);
    AboutIsCommon(usGaap, fy, fp, h);
  }

  lemma {:induction false} HasLatest(usGaap: UsGaap, fy: int, fp: FiscalPeriod, f: Fact) returns (h: Fact)
    requires Flow(usGaap, fy, fp, f)
    ensures LatestFlow(usGaap, fy, fp, h) && h.accn == f.accn
  {
    var facts, g := CalendarFacts(usGaap, CALENDAR_CONCEPTS), (fy, fp, f.accn);
    FlowIff(usGaap, fy, fp, f);
    FilingSpans(facts, f);
    LatestEndIsLatest(Spans(facts, g));
    var s :| s in Spans(facts, g) && s.1 == LatestEnd(Spans(facts, g));
    SpansMembers(facts, g, s);
    h :| h in facts && InFiling(h, g) && SpanOf(h) == s;
    FlowIff(usGaap, fy, fp, h);
    LatestOfFiling(usGaap, fy, fp, h);
  }

  // ----- what the calendar holds -----

  /** The calendar built from these rows. */
  ghost predicate Built(calendar: Calendar, usGaap: UsGaap) {
    IsCalendarOf(Some(calendar), CalendarFacts(usGaap, CALENDAR_CONCEPTS))
  }

  function BoundsIn(calendar: Calendar, fy: int): Bounds {
    BoundsFrom(Lookup(calendar, (fy, FY)), Lookup(calendar, (fy - 1, FY)))
  }

  /** The spans a built calendar settles the label on. */
  function Remaining(usGaap: UsGaap, calendar: Calendar, fy: int, fp: FiscalPeriod): set<Span> {
    var found := Found(CalendarFacts(usGaap, CALENDAR_CONCEPTS), (fy, fp));
    if fp == FY then found else Inside(found, BoundsIn(calendar, fy))
  }

  lemma BuiltLooksUp(calendar: Calendar, usGaap: UsGaap, fy: int, fp: FiscalPeriod)
    requires Built(calendar, usGaap)
    ensures var facts := CalendarFacts(usGaap, CALENDAR_CONCEPTS);
      && Lookup(calendar, (fy, fp)) == EntryAt(facts, fy, fp) != Overflowed
      && Lookup(calendar, (fy, FY)) == YearEntry(facts, fy)
      && Lookup(calendar, (fy - 1, FY)) == YearEntry(facts, fy - 1)
  {
    var facts := CalendarFacts(usGaap, CALENDAR_CONCEPTS);
    assert Lookup(calendar, (fy, fp)) == EntryFor(facts, (fy, fp));
    assert Lookup(calendar, (fy, FY)) == EntryFor(facts, (fy, FY));
    assert Lookup(calendar, (fy - 1, FY)) == EntryFor(facts, (fy - 1, FY));
  }

  lemma SettlesRemaining(calendar: Calendar, usGaap: UsGaap, fy: int, fp: FiscalPeriod)
    requires Built(calendar, usGaap)
    ensures Lookup(calendar, (fy, fp)) == Outcome(Remaining(usGaap, calendar, fy, fp))
    ensures fp != FY && Found(CalendarFacts(usGaap, CALENDAR_CONCEPTS), (fy, fp)) != {} ==> BoundsIn(calendar, fy) != PastLastDate
  {
    BuiltLooksUp(calendar, usGaap, fy, fp);
    if fp != FY {
      QuarterOverflow(Found(CalendarFacts(usGaap, CALENDAR_CONCEPTS), (fy, fp)), BoundsIn(calendar, fy));
    }
  }

  /** The bounds put on a quarter, compared as strings, are those of its year in day numbers. */
  lemma BoundsAreTheYear(calendar: Calendar, usGaap: UsGaap, fy: int, end: string)
    requires Built(calendar, usGaap) && Parse(end).Some? && BoundsIn(calendar, fy) != PastLastDate
    ensures var b := BoundsIn(calendar, fy);
      (b.Within? ==> Less(b.after, end) && AtMost(end, b.upTo)) <==> InYear(calendar, fy, end)
  {
    BuiltLooksUp(calendar, usGaap, fy, FY);
    var facts := CalendarFacts(usGaap, CALENDAR_CONCEPTS);
    if YearEntry(facts, fy).Settled? {
      SettledDates(facts, (fy, FY));
    }
    if YearEntry(facts, fy - 1).Settled? {
      SettledDates(facts, (fy - 1, FY));
    }
    BoundsInDays(YearEntry(facts, fy), YearEntry(facts, fy - 1), end);
    InYearInDays(calendar, fy, YearEntry(facts, fy), YearEntry(facts, fy - 1), end);
  }

  lemma InYearInDays(calendar: Calendar, fy: int, year: Entry, before: Entry, end: string)
    requires Lookup(calendar, (fy, FY)) == year && Lookup(calendar, (fy - 1, FY)) == before
    requires Dated(year) && Dated(before) && Parse(end).Some?
    ensures InYear(calendar, fy, end) <==>
      (if year.Settled? then DayOf(year.period.start) < DayOf(end) <= DayOf(year.period.end)
       else before.Settled? ==> DayOf(before.period.end) < DayOf(end) <= DayOf(before.period.end) + 371)
  {
  }

  ghost predicate Dated(year: Entry) {
    year.Settled? ==> year.period.start != "" && Parse(year.period.start).Some? && Parse(year.period.end).Some?
  }

  lemma BoundsInDays(year: Entry, before: Entry, end: string)
    requires Dated(year) && Dated(before) && Parse(end).Some? && BoundsFrom(year, before) != PastLastDate
    ensures var b := BoundsFrom(year, before);
      (b.Within? ==> Less(b.after, end) && AtMost(end, b.upTo)) <==>
      (if year.Settled? then DayOf(year.period.start) < DayOf(end) <= DayOf(year.period.end)
       else before.Settled? ==> DayOf(before.period.end) < DayOf(end) <= DayOf(before.period.end) + 371)
  {
    if year.Settled? {
      LessAgrees(year.period.start, end);
      LessAgrees(year.period.end, end);
    } else if before.Settled? {
      YearAfter(before.period.end, end);
    }
  }

  lemma YearAfter(close: string, end: string)
    requires Parse(close).Some? && Parse(end).Some? && PlusDays(Parse(close).value, LONGEST_YEAR).Some?
    ensures Less(close, end) && AtMost(end, Format(PlusDays(Parse(close).value, LONGEST_YEAR).value)) <==>
      DayOf(close) < DayOf(end) <= DayOf(close) + 371
  {
    var closing := Parse(close).value;
    PlusDaysNumber(closing, LONGEST_YEAR);
    var upTo := PlusDays(closing, LONGEST_YEAR).value;
    ParseFormat(upTo);
    LessAgrees(close, end);
    LessAgrees(Format(upTo), end);
  }

  lemma RemainingCount(calendar: Calendar, usGaap: UsGaap, fy: int, fp: FiscalPeriod, s: Span)
    requires Built(calendar, usGaap) && s in Remaining(usGaap, calendar, fy, fp)
    ensures Counts(usGaap, calendar, fy, fp, s.1)
    ensures exists f :: CommonStart(usGaap, fy, fp, f) && (f.start.value, f.end.value) == s
  {
    SettlesRemaining(calendar, usGaap, fy, fp);
    FoundIsLatest(usGaap, fy, fp, s);
    var f :| CommonStart(usGaap, fy, fp, f) && (f.start.value, f.end.value) == s;
    if fp != FY {
      BoundsAreTheYear(calendar, usGaap, fy, s.1);
    }
  }

  lemma CountedRemain(calendar: Calendar, usGaap: UsGaap, fy: int, fp: FiscalPeriod, f: Fact) returns (s: Span)
    requires Built(calendar, usGaap) && LatestFlow(usGaap, fy, fp, f) && Counts(usGaap, calendar, fy, fp, f.end.value)
    ensures s in Remaining(usGaap, calendar, fy, fp) && s.1 == f.end.value
    ensures exists g :: CommonStart(usGaap, fy, fp, g) && g.accn == f.accn && (g.start.value, g.end.value) == s
  {
    s := LatestIsFound(usGaap, fy, fp, f);
    SettlesRemaining(calendar, usGaap, fy, fp);
    if fp != FY {
      BoundsAreTheYear(calendar, usGaap, fy, s.1);
    }
  }

  /** A period is in the calendar exactly when some filing so stamped ends it and that end counts. */
  lemma PeriodIsOnFile(calendar: Calendar, usGaap: UsGaap, fy: int, fp: FiscalPeriod)
    requires Built(calendar, usGaap)
    ensures (fy, fp) in calendar <==> exists end :: Counts(usGaap, calendar, fy, fp, end)
  {
    SettlesRemaining(calendar, usGaap, fy, fp);
    var rest := Remaining(usGaap, calendar, fy, fp);
    if rest != {} {
      var s :| s in rest;
      RemainingCount(calendar, usGaap, fy, fp, s);
    }
    if end :| Counts(usGaap, calendar, fy, fp, end) {
      var f :| LatestFlow(usGaap, fy, fp, f) && f.end == Some(end);
      var s := CountedRemain(calendar, usGaap, fy, fp, f);
    }
  }

  /** And its dates are known exactly when all the ends that count are one. */
  lemma PeriodIsSettled(calendar: Calendar, usGaap: UsGaap, fy: int, fp: FiscalPeriod)
    requires Built(calendar, usGaap) && (fy, fp) in calendar
    ensures calendar[(fy, fp)].Some? <==>
      forall d, e :: Counts(usGaap, calendar, fy, fp, d) && Counts(usGaap, calendar, fy, fp, e) ==> d == e
  {
    SettlesRemaining(calendar, usGaap, fy, fp);
    var rest := Remaining(usGaap, calendar, fy, fp);
    if OneEnd(rest) {
      OneEndCounts(calendar, usGaap, fy, fp);
    } else {
      var s, t :| s in rest && t in rest && s.1 != t.1;
      RemainingCount(calendar, usGaap, fy, fp, s);
      RemainingCount(calendar, usGaap, fy, fp, t);
    }
  }

  lemma OneEndCounts(calendar: Calendar, usGaap: UsGaap, fy: int, fp: FiscalPeriod)
    requires Built(calendar, usGaap) && OneEnd(Remaining(usGaap, calendar, fy, fp))
    ensures forall d, e :: Counts(usGaap, calendar, fy, fp, d) && Counts(usGaap, calendar, fy, fp, e) ==> d == e
  {
    forall d, e | Counts(usGaap, calendar, fy, fp, d) && Counts(usGaap, calendar, fy, fp, e) ensures d == e {
      var f :| LatestFlow(usGaap, fy, fp, f) && f.end == Some(d);
      var g :| LatestFlow(usGaap, fy, fp, g) && g.end == Some(e);
      var s := CountedRemain(calendar, usGaap, fy, fp, f);
      var t := CountedRemain(calendar, usGaap, fy, fp, g);
    }
  }

  /**
   Then the period is that of some filing's latest flow, with its most common start, and starts no later
   than any filing whose end counts.
   */
  lemma PeriodIsEarliest(calendar: Calendar, usGaap: UsGaap, fy: int, fp: FiscalPeriod)
    requires Built(calendar, usGaap) && (fy, fp) in calendar && calendar[(fy, fp)].Some?
    ensures var p := calendar[(fy, fp)].value;
      && Counts(usGaap, calendar, fy, fp, p.end)
      && (exists f :: CommonStart(usGaap, fy, fp, f) && f.start == Some(p.start) && f.end == Some(p.end))
      && Parse(p.start).Some?
      && (forall f :: LatestFlow(usGaap, fy, fp, f) && Counts(usGaap, calendar, fy, fp, f.end.value) ==>
            exists g :: CommonStart(usGaap, fy, fp, g) && g.accn == f.accn && DayOf(p.start) <= DayOf(g.start.value))
  {
    var p := calendar[(fy, fp)].value;
    SettlesRemaining(calendar, usGaap, fy, fp);
    assert Settle(Remaining(usGaap, calendar, fy, fp)) == Some(p);
    RemainingCount(calendar, usGaap, fy, fp, (p.start, p.end));
    forall f | LatestFlow(usGaap, fy, fp, f) && Counts(usGaap, calendar, fy, fp, f.end.value)
      ensures exists g :: CommonStart(usGaap, fy, fp, g) && g.accn == f.accn && DayOf(p.start) <= DayOf(g.start.value)
    {
      var s := CountedRemain(calendar, usGaap, fy, fp, f);
      var g :| CommonStart(usGaap, fy, fp, g) && g.accn == f.accn && (g.start.value, g.end.value) == s;
      LessAgrees(s.0, p.start);
    }
  }

  // ----- when the build fails -----

  /** Every filing of this fiscal year ends it on this day, and there is one. */
  ghost predicate YearEnds(usGaap: UsGaap, fy: int, end: string) {
    FilingEnds(usGaap, fy, FY, end) && forall e :: FilingEnds(usGaap, fy, FY, e) ==> e == end
  }

  /** The year ended, for all its filings, within 371 days of the last date. */
  ghost predicate LateClose(usGaap: UsGaap, fy: int, close: string) {
    YearEnds(usGaap, fy, close) && Parse(close).Some? && DayOf(close) + 371 > DayNumber(FullDate(9999, 12, 31))
  }

  ghost predicate NoYearEnd(usGaap: UsGaap, fy: int) {
    forall e :: !YearEnds(usGaap, fy, e)
  }

  /** A quarter is on file for a year nobody knows the end of, after a year that ended within 371 days of 9999-12-31. */
  ghost predicate Overflows(usGaap: UsGaap, fy: int, fp: FiscalPeriod, f: Fact, close: string) {
    && fp != FY && Flow(usGaap, fy, fp, f)
    && NoYearEnd(usGaap, fy) && LateClose(usGaap, fy - 1, close)
  }

  lemma YearSettledIff(usGaap: UsGaap, fy: int, end: string)
    ensures var year := YearEntry(CalendarFacts(usGaap, CALENDAR_CONCEPTS), fy);
      YearEnds(usGaap, fy, end) <==> year.Settled? && year.period.end == end
  {
    var found := Found(CalendarFacts(usGaap, CALENDAR_CONCEPTS), (fy, FY));
    forall e ensures FilingEnds(usGaap, fy, FY, e) <==> EndIn(found, e) {
      EndFound(usGaap, fy, FY, e);
    }
    SettledEnd(found, end);
  }

  ghost predicate EndIn(found: set<Span>, end: string) {
    exists s :: s in found && s.1 == end
  }

  lemma EndFound(usGaap: UsGaap, fy: int, fp: FiscalPeriod, end: string)
    ensures FilingEnds(usGaap, fy, fp, end) <==> EndIn(Found(CalendarFacts(usGaap, CALENDAR_CONCEPTS), (fy, fp)), end)
  {
    if FilingEnds(usGaap, fy, fp, end) {
      var f :| LatestFlow(usGaap, fy, fp, f) && f.end == Some(end);
      var s := LatestIsFound(usGaap, fy, fp, f);
    }
    forall s | s in Found(CalendarFacts(usGaap, CALENDAR_CONCEPTS), (fy, fp)) && s.1 == end ensures FilingEnds(usGaap, fy, fp, end) {
      FoundIsLatest(usGaap, fy, fp, s);
    }
  }

  lemma SettledEnd(found: set<Span>, end: string)
    ensures EndIn(found, end) && (forall e :: EndIn(found, e) ==> e == end) <==>
      Outcome(found).Settled? && Outcome(found).period.end == end
  {
    if EndIn(found, end) && (forall e :: EndIn(found, e) ==> e == end) {
      forall s | s in found ensures s.1 == end {
        assert EndIn(found, s.1);
      }
      assert OneEnd(found);
    }
    if Outcome(found).Settled? {
      var p := Outcome(found).period;
      assert (p.start, p.end) in found;
    }
  }

  lemma OverflowIff(usGaap: UsGaap, fy: int, fp: FiscalPeriod)
    ensures EntryAt(CalendarFacts(usGaap, CALENDAR_CONCEPTS), fy, fp) == Overflowed <==>
      exists f, close :: Overflows(usGaap, fy, fp, f, close)
  {
    var facts := CalendarFacts(usGaap, CALENDAR_CONCEPTS);
    OverflowCondition(facts, fy, fp);
    assert EntryAt(facts, fy, fp) == EntryFor(facts, (fy, fp));
    FoundIff(usGaap, fy, fp);
    UnsettledIff(usGaap, fy);
    var last := fy - 1;
    var before := YearEntry(facts, last);
    forall close ensures LateClose(usGaap, last, close) <==> ClosesTooLate(before) && before.period.end == close {
      YearSettledIff(usGaap, last, close);
      ClosesLate(before);
    }
    OverflowParts(usGaap, fy, fp, last, ClosesTooLate(before), before);
  }

  lemma OverflowParts(usGaap: UsGaap, fy: int, fp: FiscalPeriod, last: int, late: bool, before: Entry)
    requires last == fy - 1 && (late ==> before.Settled?)
    requires forall close :: LateClose(usGaap, last, close) <==> late && before.period.end == close
    ensures (exists f, close :: Overflows(usGaap, fy, fp, f, close)) <==>
      fp != FY && (exists f :: Flow(usGaap, fy, fp, f)) && NoYearEnd(usGaap, fy) && late
  {
    if fp != FY && NoYearEnd(usGaap, fy) && late {
      forall f | Flow(usGaap, fy, fp, f) ensures Overflows(usGaap, fy, fp, f, before.period.end) {
        assert LateClose(usGaap, last, before.period.end);
      }
    }
  }

  lemma FoundIff(usGaap: UsGaap, fy: int, fp: FiscalPeriod)
    ensures Found(CalendarFacts(usGaap, CALENDAR_CONCEPTS), (fy, fp)) != {} <==> exists f :: Flow(usGaap, fy, fp, f)
  {
    var found := Found(CalendarFacts(usGaap, CALENDAR_CONCEPTS), (fy, fp));
    if found != {} {
      var s :| s in found;
      FoundIsLatest(usGaap, fy, fp, s);
    }
    forall f | Flow(usGaap, fy, fp, f) ensures found != {} {
      var h := HasLatest(usGaap, fy, fp, f);
      var s := LatestIsFound(usGaap, fy, fp, h);
    }
  }

  lemma UnsettledIff(usGaap: UsGaap, fy: int)
    ensures NoYearEnd(usGaap, fy) <==> !YearEntry(CalendarFacts(usGaap, CALENDAR_CONCEPTS), fy).Settled?
  {
    var year := YearEntry(CalendarFacts(usGaap, CALENDAR_CONCEPTS), fy);
    forall e ensures YearEnds(usGaap, fy, e) <==> year.Settled? && year.period.end == e {
      YearSettledIff(usGaap, fy, e);
    }
    if year.Settled? {
      assert YearEnds(usGaap, fy, year.period.end);
    }
  }

  lemma ClosesLate(year: Entry)
    ensures ClosesTooLate(year) <==>
      year.Settled? && Parse(year.period.end).Some? && DayOf(year.period.end) + 371 > DayNumber(FullDate(9999, 12, 31))
  {
    if year.Settled? && Parse(year.period.end).Some? {
      PlusDaysNumber(Parse(year.period.end).value, LONGEST_YEAR);
    }
  }

  // ----- the calendar of an issuer -----

  /** What the calendar holds for a label, said of the rows on file. */
  ghost predicate Says(calendar: Calendar, usGaap: UsGaap, fy: int, fp: FiscalPeriod) {
    && ((fy, fp) in calendar <==> exists end :: Counts(usGaap, calendar, fy, fp, end))
    && ((fy, fp) in calendar ==>
          (calendar[(fy, fp)].Some? <==>
             forall d, e :: Counts(usGaap, calendar, fy, fp, d) && Counts(usGaap, calendar, fy, fp, e) ==> d == e))
    && ((fy, fp) in calendar && calendar[(fy, fp)].Some? ==>
          var p := calendar[(fy, fp)].value;
          && Counts(usGaap, calendar, fy, fp, p.end)
          && (exists f :: CommonStart(usGaap, fy, fp, f) && f.start == Some(p.start) && f.end == Some(p.end))
          && Parse(p.start).Some?
          && (forall f :: LatestFlow(usGaap, fy, fp, f) && Counts(usGaap, calendar, fy, fp, f.end.value) ==>
                exists g :: CommonStart(usGaap, fy, fp, g) && g.accn == f.accn && DayOf(p.start) <= DayOf(g.start.value)))
  }

  method BuildFiscalCalendar(usGaap: UsGaap) returns (r: Option<Calendar>)
    ensures r == None <==> exists fy, fp, f, close :: Overflows(usGaap, fy, fp, f, close)
    ensures r.Some? ==> Built(r.value, usGaap) && forall fy, fp :: Says(r.value, usGaap, fy, fp)
  {
    r := BuildFrom(usGaap, CALENDAR_CONCEPTS);
    FailsIff(r, usGaap);
    if r.Some? {
      forall fy, fp ensures Says(r.value, usGaap, fy, fp) {
        SaysOfBuilt(r.value, usGaap, fy, fp);
      }
    }
  }

  lemma FailsIff(r: Option<Calendar>, usGaap: UsGaap)
    requires IsCalendarOf(r, CalendarFacts(usGaap, CALENDAR_CONCEPTS))
    ensures r == None <==> exists fy, fp, f, close :: Overflows(usGaap, fy, fp, f, close)
  {
    var facts := CalendarFacts(usGaap, CALENDAR_CONCEPTS);
    if r == None {
      var key :| EntryFor(facts, key) == Overflowed;
      OverflowIff(usGaap, key.0, key.1);
    }
    if fy, fp, f, close :| Overflows(usGaap, fy, fp, f, close) {
      OverflowIff(usGaap, fy, fp);
      assert EntryFor(facts, (fy, fp)) == Overflowed;
    }
  }

  lemma SaysOfBuilt(calendar: Calendar, usGaap: UsGaap, fy: int, fp: FiscalPeriod)
    requires Built(calendar, usGaap)
    ensures Says(calendar, usGaap, fy, fp)
  {
    PeriodIsOnFile(calendar, usGaap, fy, fp);
    if (fy, fp) in calendar {
      PeriodIsSettled(calendar, usGaap, fy, fp);
      if calendar[(fy, fp)].Some? {
        PeriodIsEarliest(calendar, usGaap, fy, fp);
      }
    }
  }

  /** A fiscal year is in the calendar exactly when some row on file dates it. */
  lemma YearIsOnFile(calendar: Calendar, usGaap: UsGaap, fy: int)
    requires Built(calendar, usGaap)
    ensures (fy, FY) in calendar <==> exists f :: Flow(usGaap, fy, FY, f)
  {
    PeriodIsOnFile(calendar, usGaap, fy, FY);
    if f :| Flow(usGaap, fy, FY, f) {
      var h := HasLatest(usGaap, fy, FY, f);
      assert Counts(usGaap, calendar, fy, FY, h.end.value);
    }
  }

  /** A quarter is missing exactly when every end its filings give it is outside its year, so also when there is none. */
  lemma QuarterIsMissing(calendar: Calendar, usGaap: UsGaap, fy: int, fp: FiscalPeriod)
    requires Built(calendar, usGaap) && fp != FY
    ensures (fy, fp) !in calendar <==>
      forall f :: LatestFlow(usGaap, fy, fp, f) ==> !InYear(calendar, fy, f.end.value)
  {
    PeriodIsOnFile(calendar, usGaap, fy, fp);
    forall f | LatestFlow(usGaap, fy, fp, f) && InYear(calendar, fy, f.end.value) ensures (fy, fp) in calendar {
      assert Counts(usGaap, calendar, fy, fp, f.end.value);
    }
  }
}

/**
 Which filed number answers a claim about a fiscal period (src/finvet/mcp/fact_selection.py).

 Facts are the rows of SEC companyfacts. A missing string is kept apart from an empty one only
 where the program tells them apart; "filed" and "accn" are read with `or ""`, so "" stands for both.
 */
module FactSelection {
  import opened Wrappers
  import opened Dates
  import opened Sequences
  import opened Sorting

  /** The filing forms the program names, each with its SEC spelling, and any other. */
  datatype Form =
    | Form10K | Form10KA | Form10KT | Form10KTA  // 10-K, 10-K/A, 10-KT, 10-KT/A
    | Form20F | Form20FA | Form40F | Form40FA    // 20-F, 20-F/A, 40-F, 40-F/A
    | Form10Q | Form10QA | Form10QT | Form10QTA  // 10-Q, 10-Q/A, 10-QT, 10-QT/A
    | OtherForm(name: string)
  {
    predicate Annual() {
      Form10K? || Form10KA? || Form10KT? || Form10KTA? || Form20F? || Form20FA? || Form40F? || Form40FA?
    }

    predicate Quarterly() {
      Form10Q? || Form10QA? || Form10QT? || Form10QTA?
    }
  }

  datatype FiscalPeriod = FY | Q1 | Q2 | Q3 | Q4 | OtherPeriod(name: string)

  datatype Fact = Fact(
    fy: Option<int>, fp: Option<FiscalPeriod>, form: Option<Form>,
    start: Option<string>, end: Option<string>,
    filed: string, accn: string, val: Option<real>)

  datatype Period = Period(start: string, end: string)

  type Label = (int, FiscalPeriod)

  /** None marks a period whose filings disagree on its dates. */
  type Calendar = map<Label, Option<Period>>

  datatype Superseded = Superseded(value: real, accn: string, form: Option<Form>, filed: string)

  datatype Selection = Selection(
    value: real, start: Option<string>, end: string, accn: string, form: Option<Form>,
    filed: string, key: Label, superseded: seq<Superseded>)

  datatype Reason =
    | ConceptNotReported
    | FiscalPeriodNotFiled
    | FiscalPeriodAmbiguous
    | NoStatementFactForPeriod

  datatype Choice = Selected(selection: Selection) | Declined(reason: Reason)

  predicate IsStatementFact(f: Fact) {
    f.form.Some? && (f.form.value.Annual() || f.form.value.Quarterly())
  }

  /** What _facts yields: rows with a value and a non-empty end. */
  predicate Usable(f: Fact) {
    f.val.Some? && f.end.Some? && f.end.value != ""
  }

  function UsableFacts(units: seq<seq<Fact>>): seq<Fact> {
    if units == [] then [] else UsableFacts(units[..|units| - 1]) + UsableIn(units[|units| - 1])
  }

  function UsableIn(facts: seq<Fact>): (r: seq<Fact>)
    ensures forall f :: f in r <==> f in facts && Usable(f)
  {
    if facts == [] then []
    else
      var rest := UsableIn(facts[..|facts| - 1]);
      var last := facts[|facts| - 1];
      if Usable(last) then rest + [last] else rest
  }

  lemma {:induction false} UsableFactsMembers(units: seq<seq<Fact>>, f: Fact)
    ensures f in UsableFacts(units) <==> f.val.Some? && f.end.Some? && f.end.value != "" && exists u :: u in units && f in u
  {
    if units != [] {
      SplitLast(units);
      var front, last := units[..|units| - 1], units[|units| - 1];
      UsableFactsMembers(front, f);
      assert forall u :: u in units <==> u in front || u == last;
    }
  }

  /** The facts are read unit by unit, each unit from its first fact on. */
  lemma {:induction false} ReadInOrder(a: seq<seq<Fact>>, b: seq<seq<Fact>>, u: seq<Fact>, v: seq<Fact>)
    ensures UsableFacts(a + b) == UsableFacts(a) + UsableFacts(b)
    ensures UsableFacts([u + v]) == UsableFacts([u]) + UsableFacts([v])
    ensures forall f: Fact :: f.val.Some? && f.end.Some? && f.end.value != "" ==> UsableFacts([[f]]) == [f]
  {
    ReadUnitsInOrder(a, b);
    UsableInSum(u, v);
    forall w: seq<Fact> ensures UsableFacts([w]) == UsableIn(w) {
      assert [w][..0] == [] && UsableFacts([w][..0]) == [];
    }
    forall f: Fact | Usable(f) ensures UsableIn([f]) == [f] {
      assert [f][..0] == [] && UsableIn([f][..0]) == [];
    }
  }

  lemma {:induction false} ReadUnitsInOrder(a: seq<seq<Fact>>, b: seq<seq<Fact>>)
    ensures UsableFacts(a + b) == UsableFacts(a) + UsableFacts(b)
  {
    if b == [] {
      assert a + b == a;
    } else {
      ReadUnitsInOrder(a, b[..|b| - 1]);
      LastUnitRead(a, b);
      Regroup(UsableFacts(a), UsableFacts(b[..|b| - 1]), UsableIn(b[|b| - 1]));
    }
  }

  lemma Regroup(x: seq<Fact>, y: seq<Fact>, z: seq<Fact>)
    ensures x + y + z == x + (y + z)
  {
  }

  lemma LastUnitRead(a: seq<seq<Fact>>, b: seq<seq<Fact>>)
    requires b != []
    ensures UsableFacts(a + b) == UsableFacts(a + b[..|b| - 1]) + UsableIn(b[|b| - 1])
    ensures UsableFacts(b) == UsableFacts(b[..|b| - 1]) + UsableIn(b[|b| - 1])
  {
    assert (a + b)[..|a + b| - 1] == a + b[..|b| - 1];
  }

  lemma {:induction false} UsableInSum(u: seq<Fact>, v: seq<Fact>)
    ensures UsableIn(u + v) == UsableIn(u) + UsableIn(v)
  {
    if v == [] {
      assert u + v == u;
    } else {
      assert (u + v)[..|u + v| - 1] == u + v[..|v| - 1];
      UsableInSum(u, v[..|v| - 1]);
    }
  }

  /** Days a duration fact covers; None for an instant or an unreadable date. */
  function Days(f: Fact): Option<int>
    requires f.end.Some?
  {
    if f.start.GetOr("") == "" then None else DaysBetween(f.start.value, f.end.value)
  }

  predicate InSpan(fp: FiscalPeriod, days: int) {
    if fp == FY then 330 <= days <= 400 else 75 <= days <= 105
  }

  predicate FormFits(form: Form, fp: FiscalPeriod) {
    if fp == FY then form.Annual() else form.Quarterly()
  }

  // ----- recency -----

  function Key(f: Fact): Pair {
    (f.filed, f.accn)
  }

  /** max(facts, key=_filed_order): the first of the greatest. */
  function LatestFiled(s: seq<Fact>): (r: Fact)
    requires s != []
    ensures r in s
  {
    var last := s[|s| - 1];
    if |s| == 1 then last
    else
      var m := LatestFiled(s[..|s| - 1]);
      if PairLess(Key(m), Key(last)) then last else m
  }

  lemma {:induction false} LatestFiledIsGreatest(s: seq<Fact>)
    requires s != []
    ensures forall f :: f in s ==> !PairLess(Key(LatestFiled(s)), Key(f))
  {
    PairTotal();
    if |s| > 1 {
      LatestFiledIsGreatest(s[..|s| - 1]);
      assert s == s[..|s| - 1] + [s[|s| - 1]];
    }
  }

  /** The record is the first of the greatest. */
  lemma {:induction false} LatestFiledIsFirst(s: seq<Fact>) returns (k: nat)
    requires s != []
    ensures k < |s| && s[k] == LatestFiled(s)
    ensures forall j :: 0 <= j < k ==> PairLess(Key(s[j]), Key(s[k]))
    ensures forall j :: k <= j < |s| ==> !PairLess(Key(s[k]), Key(s[j]))
  {
    PairTotal();
    if |s| == 1 {
      k := 0;
    } else {
      var front := s[..|s| - 1];
      k := LatestFiledIsFirst(front);
      if PairLess(Key(front[k]), Key(s[|s| - 1])) {
        k := |s| - 1;
      }
    }
  }

  /** sorted(facts, key=_filed_order), a stable sort. */
  function SortByFiled(s: seq<Fact>): (r: seq<Fact>)
    ensures multiset(r) == multiset(s)
    ensures forall f :: f in r <==> f in s
  {
    SortBy(s, Key)
  }

  // ----- selection -----

  /** A duration must cover the period asked for; an instant has no span to check. */
  predicate IsCandidate(f: Fact, end: string, fp: FiscalPeriod) {
    && Usable(f) && IsStatementFact(f) && f.end.value == end
    && (Days(f).Some? ==> InSpan(fp, Days(f).value))
  }

  function Candidates(facts: seq<Fact>, end: string, fp: FiscalPeriod): (r: seq<Fact>)
    ensures forall f :: f in r <==> f in facts && IsCandidate(f, end, fp)
  {
    if facts == [] then []
    else
      var rest := Candidates(facts[..|facts| - 1], end, fp);
      var last := facts[|facts| - 1];
      if IsCandidate(last, end, fp) then rest + [last] else rest
  }

  predicate Valued(s: seq<Fact>) {
    forall f :: f in s ==> f.val.Some?
  }

  predicate Reports(s: seq<Fact>, v: real) {
    exists f :: f in s && f.val == Some(v)
  }

  predicate Lists(s: seq<Superseded>, v: real) {
    exists x :: x in s && x.value == v
  }

  /** The values earlier statements reported, first filing first, each once. */
  function SupersededIn(s: seq<Fact>, record: real): (r: seq<Superseded>)
    requires Valued(s)
    ensures forall v :: Lists(r, v) <==> v != record && Reports(s, v)
    ensures forall i, j :: 0 <= i < j < |r| ==> r[i].value != r[j].value
  {
    if s == [] then []
    else
      SplitLast(s);
      var front, last := s[..|s| - 1], s[|s| - 1];
      var rest := SupersededIn(front, record);
      var v := last.val.value;
      assert forall w :: Reports(s, w) <==> Reports(front, w) || w == v by {
        assert forall f :: f in s <==> f in front || f == last;
      }
      if v == record || Lists(rest, v) then rest
      else
        var x := Superseded(v, last.accn, last.form, last.filed);
        assert forall w :: Lists(rest + [x], w) <==> Lists(rest, w) || w == v by {
          assert forall y :: y in rest + [x] <==> y in rest || y == x;
          assert x in rest + [x];
        }
        rest + [x]
  }

  function Choose(candidates: seq<Fact>, end: string, key: Label): Choice
    requires Valued(candidates)
  {
    if candidates == [] then Declined(NoStatementFactForPeriod)
    else
      var record := LatestFiled(candidates);
      Selected(Selection(record.val.value, record.start, end, record.accn, record.form, record.filed,
                         key, SupersededIn(SortByFiled(candidates), record.val.value)))
  }

  /** What select_fact decides; the method below computes it. */
  function ChoiceFor(payload: Option<seq<seq<Fact>>>, calendar: Calendar, key: Label): Choice {
    if payload == None then Declined(ConceptNotReported)
    else if key !in calendar then Declined(FiscalPeriodNotFiled)
    else if calendar[key] == None then Declined(FiscalPeriodAmbiguous)
    else
      var end := calendar[key].value.end;
      Choose(Candidates(UsableFacts(payload.value), end, key.1), end, key)
  }

  method SelectFact(payload: Option<seq<seq<Fact>>>, calendar: Calendar, key: Label) returns (r: Choice)
    ensures r == ChoiceFor(payload, calendar, key)
  {
    if payload == None {
      return Declined(ConceptNotReported);
    }
    if key !in calendar {
      return Declined(FiscalPeriodNotFiled);
    }
    if calendar[key] == None {
      return Declined(FiscalPeriodAmbiguous);
    }
    var period := calendar[key].value;
    var candidates := CollectCandidates(UsableFacts(payload.value), period.end, key.1);
    if candidates == [] {
      return Declined(NoStatementFactForPeriod);
    }
    var record := LatestFiled(candidates);
    var superseded := CollectSuperseded(SortByFiled(candidates), record.val.value);
    r := Selected(Selection(record.val.value, record.start, period.end, record.accn, record.form, record.filed,
                            key, superseded));
  }

  method CollectCandidates(facts: seq<Fact>, end: string, fp: FiscalPeriod) returns (candidates: seq<Fact>)
    ensures candidates == Candidates(facts, end, fp)
    ensures forall f :: f in candidates <==> f in facts && StatesFor(f, end, fp)
  {
    candidates := [];
    for i := 0 to |facts|
      invariant candidates == Candidates(facts[..i], end, fp)
    {
      assert facts[..i + 1][..i] == facts[..i];
      if IsCandidate(facts[i], end, fp) {
        candidates := candidates + [facts[i]];
      }
    }
    assert facts[..|facts|] == facts;
    forall f ensures IsCandidate(f, end, fp) <==> StatesFor(f, end, fp) {
      CandidateWritten(f, end, fp);
    }
  }

  method CollectSuperseded(sorted: seq<Fact>, record: real) returns (superseded: seq<Superseded>)
    requires Valued(sorted)
    ensures superseded == SupersededIn(sorted, record)
  {
    superseded := [];
    for i := 0 to |sorted|
      invariant superseded == SupersededIn(sorted[..i], record)
    {
      assert sorted[..i + 1][..i] == sorted[..i];
      var fact := sorted[i];
      if fact.val.value != record && !Lists(superseded, fact.val.value) {
        superseded := superseded + [Superseded(fact.val.value, fact.accn, fact.form, fact.filed)];
      }
    }
    assert sorted[..|sorted|] == sorted;
  }

  // ----- what a selection means -----

  /**
   A figure in a 10-K, 20-F, 40-F or 10-Q, an amendment or a transition report, that ends with the period
   and, if its dates can be read, covers a year for FY and a quarter otherwise.
   */
  ghost predicate StatesFor(f: Fact, end: string, fp: FiscalPeriod) {
    && f.val.Some? && f.end == Some(end) && end != ""
    && f.form.Some?
    && f.form.value in {Form10K, Form10KA, Form10KT, Form10KTA, Form20F, Form20FA, Form40F, Form40FA,
                        Form10Q, Form10QA, Form10QT, Form10QTA}
    && (f.start.Some? && Parse(f.start.value).Some? && Parse(end).Some? ==>
          var days := DayNumber(Parse(end).value) - DayNumber(Parse(f.start.value).value);
          if fp == FY then 330 <= days <= 400 else 75 <= days <= 105)
  }

  /** Such a figure in some unit of the concept. */
  ghost predicate StatementFact(units: seq<seq<Fact>>, end: string, fp: FiscalPeriod, f: Fact) {
    (exists u :: u in units && f in u) && StatesFor(f, end, fp)
  }

  ghost predicate FiledAfter(g: Fact, f: Fact) {
    Less(f.filed, g.filed) || (f.filed == g.filed && Less(f.accn, g.accn))
  }

  lemma CandidateIff(units: seq<seq<Fact>>, end: string, fp: FiscalPeriod, f: Fact)
    ensures f in Candidates(UsableFacts(units), end, fp) <==> StatementFact(units, end, fp, f)
  {
    UsableFactsMembers(units, f);
    CandidateWritten(f, end, fp);
  }

  lemma CandidateWritten(f: Fact, end: string, fp: FiscalPeriod)
    ensures IsCandidate(f, end, fp) <==> StatesFor(f, end, fp)
  {
    StatementForms(f);
    if f.end == Some(end) {
      SpanWritten(f, fp);
    }
  }

  lemma SpanWritten(f: Fact, fp: FiscalPeriod)
    requires f.end.Some?
    ensures (Days(f).Some? ==> InSpan(fp, Days(f).value)) <==>
      (f.start.Some? && Parse(f.start.value).Some? && Parse(f.end.value).Some? ==>
         var days := DayNumber(Parse(f.end.value).value) - DayNumber(Parse(f.start.value).value);
         if fp == FY then 330 <= days <= 400 else 75 <= days <= 105)
  {
  }

  lemma StatementForms(f: Fact)
    ensures IsStatementFact(f) <==>
      f.form.Some? && f.form.value in {Form10K, Form10KA, Form10KT, Form10KTA, Form20F, Form20FA, Form40F, Form40FA,
                                       Form10Q, Form10QA, Form10QT, Form10QTA}
  {
  }

  /** Some financial statement reports v for this concept and period. */
  ghost predicate StatementReports(payload: seq<seq<Fact>>, end: string, fp: FiscalPeriod, v: real) {
    exists f :: StatementFact(payload, end, fp, f) && f.val == Some(v)
  }

  /** v is the value of a statement fact that no other statement fact was filed after. */
  ghost predicate LatestReports(payload: seq<seq<Fact>>, end: string, fp: FiscalPeriod, v: real) {
    exists f :: StatementFact(payload, end, fp, f) && f.val == Some(v)
      && forall g :: StatementFact(payload, end, fp, g) ==> !FiledAfter(g, f)
  }

  lemma ReportedIffFact(payload: seq<seq<Fact>>, end: string, fp: FiscalPeriod)
    ensures (exists v :: StatementReports(payload, end, fp, v)) <==> (exists f :: StatementFact(payload, end, fp, f))
  {
    if f :| StatementFact(payload, end, fp, f) {
      assert StatementReports(payload, end, fp, f.val.value);
    }
  }

  ghost predicate Distinct<T(!new)>(s: seq<T>) {
    forall i, j :: 0 <= i < j < |s| ==> s[i] != s[j]
  }

  function SupersededValues(s: Selection): seq<real> {
    ValuesOf(s.superseded)
  }

  function ValuesOf(xs: seq<Superseded>): (r: seq<real>)
    ensures |r| == |xs| && forall i :: 0 <= i < |xs| ==> r[i] == xs[i].value
    ensures forall v :: v in r <==> Lists(xs, v)
  {
    var r := seq(|xs|, i requires 0 <= i < |xs| => xs[i].value);
    assert forall v :: Lists(xs, v) ==> v in r by {
      forall v | Lists(xs, v) ensures v in r {
        var i :| 0 <= i < |xs| && xs[i].value == v;
        assert r[i] == v;
      }
    }
    r
  }

  /** A selection is made exactly when the period is settled and some statement reports a value for it. */
  lemma SelectionExists(payload: Option<seq<seq<Fact>>>, calendar: Calendar, key: Label)
    ensures ChoiceFor(payload, calendar, key).Selected? <==>
      payload.Some? && key in calendar && calendar[key].Some? &&
      exists v :: StatementReports(payload.value, calendar[key].value.end, key.1, v)
  {
    if payload.Some? && key in calendar && calendar[key].Some? {
      var end := calendar[key].value.end;
      var cs := Candidates(UsableFacts(payload.value), end, key.1);
      CandidateReports(payload.value, end, key.1);
      if cs != [] {
        assert cs[0] in cs && Reports(cs, cs[0].val.value);
        assert StatementReports(payload.value, end, key.1, cs[0].val.value);
      }
      if v :| StatementReports(payload.value, end, key.1, v) {
        assert Reports(cs, v);
      }
    }
  }

  /**
   The selected value is the most recently filed one, and it and the superseded values are, without
   repetition, exactly the values the statements reported.
   */
  lemma SelectionMeaning(payload: seq<seq<Fact>>, calendar: Calendar, key: Label)
    requires ChoiceFor(Some(payload), calendar, key).Selected?
    ensures var s := ChoiceFor(Some(payload), calendar, key).selection;
      var end := calendar[key].value.end;
      && LatestReports(payload, end, key.1, s.value)
      && (forall v :: v == s.value || v in SupersededValues(s) <==> StatementReports(payload, end, key.1, v))
      && Distinct([s.value] + SupersededValues(s))
  {
    var end := calendar[key].value.end;
    var cs := Candidates(UsableFacts(payload), end, key.1);
    CandidateReports(payload, end, key.1);
    ChosenFromCandidates(cs, end, key);
    var s := Choose(cs, end, key).selection;
    var f :| f in cs && f.val == Some(s.value) && forall g :: g in cs ==> !PairLess(Key(f), Key(g));
    LatestIsLatest(payload, end, key.1, f);
  }

  lemma LatestIsLatest(payload: seq<seq<Fact>>, end: string, fp: FiscalPeriod, f: Fact)
    requires var cs := Candidates(UsableFacts(payload), end, fp);
      f in cs && f.val.Some? && forall g :: g in cs ==> !PairLess(Key(f), Key(g))
    ensures LatestReports(payload, end, fp, f.val.value)
  {
    CandidateIff(payload, end, fp, f);
    forall g | StatementFact(payload, end, fp, g) ensures !FiledAfter(g, f) {
      CandidateIff(payload, end, fp, g);
    }
  }

  /**
   The record selected is one of the concept's statement facts, shown with its own start, accession, form
   and filing date; none was filed after it. If its dates can be read it is as long as the period named,
   so neither a year-to-date figure nor a fourth quarter stands in for it.
   */
  lemma SelectionIsAStatementFact(payload: seq<seq<Fact>>, calendar: Calendar, key: Label)
    requires ChoiceFor(Some(payload), calendar, key).Selected?
    ensures var s := ChoiceFor(Some(payload), calendar, key).selection;
      && key in calendar && calendar[key].Some? && s.end == calendar[key].value.end && s.key == key
      && (exists f :: StatementFact(payload, s.end, key.1, f) && f.val == Some(s.value) && f.start == s.start
                      && f.accn == s.accn && f.form == s.form && f.filed == s.filed
                      && forall g :: StatementFact(payload, s.end, key.1, g) ==> !FiledAfter(g, f))
      && (s.start.Some? && Parse(s.start.value).Some? && Parse(s.end).Some? ==>
            var days := DayNumber(Parse(s.end).value) - DayNumber(Parse(s.start.value).value);
            if key.1 == FY then 330 <= days <= 400 else 75 <= days <= 105)
  {
    var end := calendar[key].value.end;
    var cs := Candidates(UsableFacts(payload), end, key.1);
    var f := LatestFiled(cs);
    CandidateIff(payload, end, key.1, f);
    LatestFiledIsGreatest(cs);
    forall g | StatementFact(payload, end, key.1, g) ensures !FiledAfter(g, f) {
      CandidateIff(payload, end, key.1, g);
    }
  }

  /**
   Each superseded value is listed with the accession, form and date of the first statement fact to report
   it, and the list is in the order of filing.
   */
  lemma SupersededAreStatementFacts(payload: seq<seq<Fact>>, calendar: Calendar, key: Label)
    requires ChoiceFor(Some(payload), calendar, key).Selected? && key in calendar && calendar[key].Some?
    ensures var xs := ChoiceFor(Some(payload), calendar, key).selection.superseded;
      && (forall x :: x in xs ==> FirstReported(payload, calendar[key].value.end, key.1, x))
      && InFilingOrder(xs)
  {
    var end := calendar[key].value.end;
    var cs := Candidates(UsableFacts(payload), end, key.1);
    var record := LatestFiled(cs).val.value;
    SortBySorts(cs, Key);
    forall x | x in SupersededIn(SortByFiled(cs), record) ensures FirstReported(payload, end, key.1, x) {
      FirstOfSorted(payload, end, key.1, record, x);
    }
    SupersededInOrder(SortByFiled(cs), record);
  }

  ghost predicate InFilingOrder(xs: seq<Superseded>) {
    forall i, j :: 0 <= i < j < |xs| ==>
      !Less(xs[j].filed, xs[i].filed) && (xs[j].filed == xs[i].filed ==> !Less(xs[j].accn, xs[i].accn))
  }

  ghost predicate FirstReported(payload: seq<seq<Fact>>, end: string, fp: FiscalPeriod, x: Superseded) {
    exists f :: StatementFact(payload, end, fp, f) && f.val == Some(x.value)
      && f.accn == x.accn && f.form == x.form && f.filed == x.filed
      && forall g :: StatementFact(payload, end, fp, g) && g.val == f.val ==> !FiledAfter(f, g)
  }

  lemma FirstOfSorted(payload: seq<seq<Fact>>, end: string, fp: FiscalPeriod, record: real, x: Superseded)
    requires var s := SortByFiled(Candidates(UsableFacts(payload), end, fp)); SortedBy(s, Key) && Valued(s) && x in SupersededIn(s, record)
    ensures FirstReported(payload, end, fp, x)
  {
    var s := SortByFiled(Candidates(UsableFacts(payload), end, fp));
    var f := SupersededFrom(s, record, x);
    CandidateIff(payload, end, fp, f);
    forall g | StatementFact(payload, end, fp, g) && g.val == f.val ensures !FiledAfter(f, g) {
      CandidateIff(payload, end, fp, g);
      FirstIsEarliest(s, f, g);
    }
  }

  lemma FirstIsEarliest(s: seq<Fact>, f: Fact, g: Fact)
    requires SortedBy(s, Key) && g in s && g.val == f.val
    requires exists i :: FirstValueAt(s, i, f)
    ensures !FiledAfter(f, g)
  {
    var i :| FirstValueAt(s, i, f);
    var k :| 0 <= k < |s| && s[k] == g;
    LessTrichotomy(f.filed, f.filed);
    LessTrichotomy(f.accn, f.accn);
  }

  lemma {:induction false} SupersededInOrder(s: seq<Fact>, record: real)
    requires Valued(s) && SortedBy(s, Key)
    ensures InFilingOrder(SupersededIn(s, record))
  {
    if s != [] {
      SplitLast(s);
      var front, last := s[..|s| - 1], s[|s| - 1];
      SupersededInOrder(front, record);
      forall x | x in SupersededIn(front, record) ensures !PairLess(Key(last), (x.filed, x.accn)) {
        var f := SupersededFrom(front, record, x);
        var i :| FirstValueAt(front, i, f);
        assert front[i] == s[i];
      }
    }
  }

  lemma {:induction false} SupersededFrom(s: seq<Fact>, record: real, x: Superseded) returns (f: Fact)
    requires Valued(s) && x in SupersededIn(s, record)
    ensures f in s && f.val == Some(x.value) && f.accn == x.accn && f.form == x.form && f.filed == x.filed
    ensures exists i :: FirstValueAt(s, i, f)
  {
    var front, last := s[..|s| - 1], s[|s| - 1];
    if x in SupersededIn(front, record) {
      f := SupersededFrom(front, record, x);
      var i :| FirstValueAt(front, i, f);
      assert FirstValueAt(s, i, f);
    } else {
      f := last;
      NotReportedBefore(s, record);
      assert FirstValueAt(s, |s| - 1, f);
    }
  }

  /** s[i] is f and no fact before it has its value. */
  ghost predicate FirstValueAt(s: seq<Fact>, i: int, f: Fact) {
    0 <= i < |s| && s[i] == f && forall j :: 0 <= j < i ==> s[j].val != f.val
  }

  lemma NotReportedBefore(s: seq<Fact>, record: real)
    requires s != [] && Valued(s)
    requires SupersededIn(s, record) != SupersededIn(s[..|s| - 1], record)
    ensures forall j :: 0 <= j < |s| - 1 ==> s[j].val != s[|s| - 1].val
  {
    var front, v := s[..|s| - 1], s[|s| - 1].val.value;
    assert !Reports(front, v);
    forall j | 0 <= j < |s| - 1 ensures s[j].val != Some(v) {
      assert front[j] in front;
    }
  }

  lemma CandidateReports(payload: seq<seq<Fact>>, end: string, fp: FiscalPeriod)
    ensures var cs := Candidates(UsableFacts(payload), end, fp);
      forall v :: StatementReports(payload, end, fp, v) <==> Reports(cs, v)
  {
    forall f ensures f in Candidates(UsableFacts(payload), end, fp) <==> StatementFact(payload, end, fp, f) {
      CandidateIff(payload, end, fp, f);
    }
  }

  lemma ChosenFromCandidates(cs: seq<Fact>, end: string, key: Label)
    requires cs != [] && Valued(cs)
    ensures var s := Choose(cs, end, key).selection;
      && (exists f :: f in cs && f.val == Some(s.value) && forall g :: g in cs ==> !PairLess(Key(f), Key(g)))
      && (forall v :: v == s.value || v in SupersededValues(s) <==> Reports(cs, v))
      && Distinct([s.value] + SupersededValues(s))
  {
    LatestFiledIsGreatest(cs);
    var s := Choose(cs, end, key).selection;
    forall v ensures Reports(SortByFiled(cs), v) <==> Reports(cs, v) {
    }
    assert LatestFiled(cs) in cs;
    assert s.value !in SupersededValues(s);
  }

  // ----- independence of fact order -----

  /** A fact as far as selection looks at it once it is a candidate. */
  type Stamp = (Pair, real)

  function Stamps(s: seq<Fact>): seq<Stamp> {
    Map(s, (f: Fact) => (Key(f), f.val.GetOr(0.0)))
  }

  /** No two of these facts share a filing key while disagreeing on the value. */
  ghost predicate KeysDecide(s: seq<Fact>) {
    forall f, g :: f in s && g in s && Key(f) == Key(g) ==> f.val == g.val
  }

  lemma {:induction false} SupersededFollowStamps(a: seq<Fact>, b: seq<Fact>, record: real)
    requires Valued(a) && Valued(b) && |a| == |b|
    requires forall i :: 0 <= i < |a| ==> a[i].val == b[i].val
    ensures ValuesOf(SupersededIn(a, record)) == ValuesOf(SupersededIn(b, record))
  {
    if a != [] {
      SupersededFollowStamps(a[..|a| - 1], b[..|b| - 1], record);
      var x, y := SupersededIn(a[..|a| - 1], record), SupersededIn(b[..|b| - 1], record);
      var v := a[|a| - 1].val.value;
      assert |x| == |ValuesOf(x)| == |ValuesOf(y)| == |y|;
      assert Lists(x, v) <==> v in ValuesOf(x);
      assert Lists(y, v) <==> v in ValuesOf(y);
    }
  }

  lemma {:induction false} CandidatesPermute(a: seq<Fact>, b: seq<Fact>, end: string, fp: FiscalPeriod)
    requires multiset(a) == multiset(b)
    ensures multiset(Candidates(a, end, fp)) == multiset(Candidates(b, end, fp))
  {
    forall f ensures multiset(Candidates(a, end, fp))[f] == multiset(Candidates(b, end, fp))[f] {
      CandidateCount(a, end, fp, f);
      CandidateCount(b, end, fp, f);
    }
  }

  lemma {:induction false} CandidateCount(a: seq<Fact>, end: string, fp: FiscalPeriod, f: Fact)
    ensures multiset(Candidates(a, end, fp))[f] == if IsCandidate(f, end, fp) then multiset(a)[f] else 0
  {
    if a != [] {
      CandidateCount(a[..|a| - 1], end, fp, f);
      assert a == a[..|a| - 1] + [a[|a| - 1]];
    }
  }

  /**
   Neither the value nor the list of superseded values depends on the order of the facts, provided
   no two candidates with one filing key carry different values.
   */
  lemma SelectionOrderIndependent(p: seq<seq<Fact>>, q: seq<seq<Fact>>, calendar: Calendar, key: Label)
    requires multiset(UsableFacts(p)) == multiset(UsableFacts(q))
    requires key in calendar && calendar[key].Some? ==>
      KeysDecide(Candidates(UsableFacts(p), calendar[key].value.end, key.1))
    ensures var x, y := ChoiceFor(Some(p), calendar, key), ChoiceFor(Some(q), calendar, key);
      && x.Selected? == y.Selected?
      && (x.Declined? ==> x == y)
      && (x.Selected? ==> x.selection.value == y.selection.value
                          && SupersededValues(x.selection) == SupersededValues(y.selection))
  {
    if key in calendar && calendar[key].Some? {
      var end := calendar[key].value.end;
      var a, b := Candidates(UsableFacts(p), end, key.1), Candidates(UsableFacts(q), end, key.1);
      CandidatesPermute(UsableFacts(p), UsableFacts(q), end, key.1);
      SameMembers(a, b);
      if a != [] {
        ArrangementsAgree(a, b, end, key);
      }
    }
  }

  lemma ArrangementsAgree(a: seq<Fact>, b: seq<Fact>, end: string, key: Label)
    requires a != [] && b != [] && Valued(a) && Valued(b) && multiset(a) == multiset(b) && KeysDecide(a)
    ensures var x, y := Choose(a, end, key).selection, Choose(b, end, key).selection;
      x.value == y.value && SupersededValues(x) == SupersededValues(y)
  {
    SameMembers(a, b);
    LatestValuesAgree(a, b);
    SortedSupersededAgree(a, b, LatestFiled(a).val.value);
  }

  lemma SortedSupersededAgree(a: seq<Fact>, b: seq<Fact>, record: real)
    requires Valued(a) && Valued(b) && multiset(a) == multiset(b) && KeysDecide(a)
    ensures ValuesOf(SupersededIn(SortByFiled(a), record)) == ValuesOf(SupersededIn(SortByFiled(b), record))
  {
    SortBySorts(a, Key);
    SortBySorts(b, Key);
    SortedValuesAgree(SortByFiled(a), SortByFiled(b));
    SupersededFollowStamps(SortByFiled(a), SortByFiled(b), record);
  }

  lemma LatestValuesAgree(a: seq<Fact>, b: seq<Fact>)
    requires a != [] && b != [] && KeysDecide(a) && forall f :: f in a <==> f in b
    ensures LatestFiled(a).val == LatestFiled(b).val
  {
    PairTotal();
    LatestFiledIsGreatest(a);
    LatestFiledIsGreatest(b);
  }

  lemma SortedValuesAgree(x: seq<Fact>, y: seq<Fact>)
    requires Valued(x) && Valued(y) && KeysDecide(x) && multiset(x) == multiset(y)
    requires SortedBy(x, Key) && SortedBy(y, Key)
    ensures |x| == |y| && forall i :: 0 <= i < |x| ==> x[i].val == y[i].val
  {
    SameMembers(x, y);
    MapPermutes(x, y, (f: Fact) => (Key(f), f.val.GetOr(0.0)));
    SortedUnique(Stamps(x), Stamps(y), (s: Stamp) => s.0);
    forall i | 0 <= i < |x| ensures x[i].val == y[i].val {
      assert Stamps(x)[i] == Stamps(y)[i];
    }
  }

  // ----- independence of the whole selection -----

  /** All that a selection can show of a fact, beside the period's end. */
  type Face = (Pair, (Option<real>, Option<string>, Option<Form>))

  function FaceOf(f: Fact): Face {
    (Key(f), (f.val, f.start, f.form))
  }

  /** No two of these facts share a filing key while differing in what a selection shows. */
  ghost predicate KeysIdentify(s: seq<Fact>) {
    forall f, g :: f in s && g in s && Key(f) == Key(g) ==> FaceOf(f) == FaceOf(g)
  }

  lemma {:induction false} SupersededFollowFaces(a: seq<Fact>, b: seq<Fact>, record: real)
    requires Valued(a) && Valued(b) && |a| == |b|
    requires forall i :: 0 <= i < |a| ==> FaceOf(a[i]) == FaceOf(b[i])
    ensures SupersededIn(a, record) == SupersededIn(b, record)
  {
    if a != [] {
      SupersededFollowFaces(a[..|a| - 1], b[..|b| - 1], record);
      assert FaceOf(a[|a| - 1]) == FaceOf(b[|b| - 1]);
    }
  }

  lemma SortedFacesAgree(a: seq<Fact>, b: seq<Fact>)
    requires KeysIdentify(a) && multiset(a) == multiset(b)
    ensures var x, y := SortByFiled(a), SortByFiled(b);
      |x| == |y| && forall i :: 0 <= i < |x| ==> FaceOf(x[i]) == FaceOf(y[i])
  {
    var x, y := SortByFiled(a), SortByFiled(b);
    SortBySorts(a, Key);
    SortBySorts(b, Key);
    SameMembers(x, y);
    MapPermutes(x, y, FaceOf);
    SortedUnique(Map(x, FaceOf), Map(y, FaceOf), (t: Face) => t.0);
    forall i | 0 <= i < |x| ensures FaceOf(x[i]) == FaceOf(y[i]) {
      assert Map(x, FaceOf)[i] == Map(y, FaceOf)[i];
    }
  }

  lemma LatestFacesAgree(a: seq<Fact>, b: seq<Fact>)
    requires a != [] && b != [] && forall f :: f in a <==> f in b
    ensures Key(LatestFiled(a)) == Key(LatestFiled(b))
    ensures KeysIdentify(a) ==> FaceOf(LatestFiled(a)) == FaceOf(LatestFiled(b))
  {
    PairTotal();
    LatestFiledIsGreatest(a);
    LatestFiledIsGreatest(b);
  }

  /**
   The accession and filing date of the record never depend on the order of the facts, and nothing of the
   selection does, its start, its forms and its superseded entries included, when equal filing keys go
   with equal values, starts and forms.
   */
  lemma WholeSelectionOrderIndependent(p: seq<seq<Fact>>, q: seq<seq<Fact>>, calendar: Calendar, key: Label)
    requires multiset(UsableFacts(p)) == multiset(UsableFacts(q))
    requires ChoiceFor(Some(p), calendar, key).Selected?
    ensures var x, y := ChoiceFor(Some(p), calendar, key), ChoiceFor(Some(q), calendar, key);
      && y.Selected? && x.selection.accn == y.selection.accn && x.selection.filed == y.selection.filed
      && (KeysIdentify(Candidates(UsableFacts(p), calendar[key].value.end, key.1)) ==> x == y)
  {
    var end := calendar[key].value.end;
    var a, b := Candidates(UsableFacts(p), end, key.1), Candidates(UsableFacts(q), end, key.1);
    CandidatesPermute(UsableFacts(p), UsableFacts(q), end, key.1);
    SameMembers(a, b);
    LatestFacesAgree(a, b);
    if KeysIdentify(a) {
      assert FaceOf(LatestFiled(a)) == FaceOf(LatestFiled(b));
      SortedFacesAgree(a, b);
      SupersededFollowFaces(SortByFiled(a), SortByFiled(b), LatestFiled(a).val.value);
    }
  }

  // ----- when the value depends on the order -----

  /** The candidates filed last, those with the record's filing key, carry one value. */
  ghost predicate LatestAgree(s: seq<Fact>)
    requires s != []
  {
    forall f :: f in s && Key(f) == Key(LatestFiled(s)) ==> f.val == LatestFiled(s).val
  }

  ghost predicate SameValue(p: seq<seq<Fact>>, q: seq<seq<Fact>>, calendar: Calendar, key: Label)
    requires ChoiceFor(Some(p), calendar, key).Selected?
  {
    var y := ChoiceFor(Some(q), calendar, key);
    y.Selected? && y.selection.value == ChoiceFor(Some(p), calendar, key).selection.value
  }

  lemma {:induction false} AllUsable(facts: seq<Fact>)
    requires forall f :: f in facts ==> Usable(f)
    ensures UsableIn(facts) == facts
  {
    if facts != [] {
      SplitLast(facts);
      AllUsable(facts[..|facts| - 1]);
    }
  }

  lemma {:induction false} UsableFactsAreUsable(units: seq<seq<Fact>>)
    ensures forall f :: f in UsableFacts(units) ==> Usable(f)
  {
    if units != [] {
      UsableFactsAreUsable(units[..|units| - 1]);
    }
  }

  lemma CandidatesSnoc(front: seq<Fact>, last: Fact, end: string, fp: FiscalPeriod)
    ensures Candidates(front + [last], end, fp) == Candidates(front, end, fp) + if IsCandidate(last, end, fp) then [last] else []
  {
    assert (front + [last])[..|front|] == front;
  }

  lemma {:induction false} CandidatesCons(f: Fact, rest: seq<Fact>, end: string, fp: FiscalPeriod)
    requires IsCandidate(f, end, fp)
    ensures Candidates([f] + rest, end, fp) == [f] + Candidates(rest, end, fp)
  {
    if rest == [] {
      assert [f] + rest == [] + [f];
      CandidatesSnoc([], f, end, fp);
    } else {
      var front, last := rest[..|rest| - 1], rest[|rest| - 1];
      CandidatesCons(f, front, end, fp);
      assert rest == front + [last] && [f] + rest == [f] + front + [last];
      CandidatesSnoc([f] + front, last, end, fp);
      CandidatesSnoc(front, last, end, fp);
    }
  }

  lemma FirstGreatestIsLatest(f: Fact, rest: seq<Fact>)
    requires forall g :: g in rest ==> !PairLess(Key(f), Key(g))
    ensures LatestFiled([f] + rest) == f
  {
    var all := [f] + rest;
    PairTotal();
    forall j | 0 <= j < |all| ensures !PairLess(Key(f), Key(all[j])) {
      assert j == 0 || all[j] == rest[j - 1];
    }
    var k := LatestFiledIsFirst(all);
    assert all[0] == f;
  }

  lemma OneUnit(facts: seq<Fact>)
    requires forall f :: f in facts ==> Usable(f)
    ensures UsableFacts([facts]) == facts
  {
    AllUsable(facts);
    var units := [facts];
    assert units[..0] == [] && UsableFacts(units[..0]) == [];
  }

  /** A first candidate that no other was filed after gives the value of record. */
  lemma FirstGreatestIsChosen(payload: seq<seq<Fact>>, g: Fact, more: seq<Fact>, calendar: Calendar, key: Label)
    requires key in calendar && calendar[key].Some? && g.val.Some?
    requires Candidates(UsableFacts(payload), calendar[key].value.end, key.1) == [g] + more
    requires forall f :: f in more ==> !PairLess(Key(g), Key(f))
    ensures var y := ChoiceFor(Some(payload), calendar, key); y.Selected? && Some(y.selection.value) == g.val
  {
    FirstGreatestIsLatest(g, more);
  }

  lemma ChoiceWithFirst(g: Fact, rest: seq<Fact>, calendar: Calendar, key: Label)
    requires key in calendar && calendar[key].Some? && IsCandidate(g, calendar[key].value.end, key.1)
    requires forall f :: f in rest ==> Usable(f)
    requires forall f :: f in Candidates(rest, calendar[key].value.end, key.1) ==> !PairLess(Key(g), Key(f))
    ensures UsableFacts([[g] + rest]) == [g] + rest
    ensures var y := ChoiceFor(Some([[g] + rest]), calendar, key); y.Selected? && Some(y.selection.value) == g.val
  {
    var end := calendar[key].value.end;
    OneUnit([g] + rest);
    CandidatesCons(g, rest, end, key.1);
    FirstGreatestIsChosen([[g] + rest], g, Candidates(rest, end, key.1), calendar, key);
  }

  /** The payload with g first. */
  lemma GreatestCanComeFirst(p: seq<seq<Fact>>, g: Fact, calendar: Calendar, key: Label) returns (q: seq<seq<Fact>>)
    requires ChoiceFor(Some(p), calendar, key).Selected?
    requires var cs := Candidates(UsableFacts(p), calendar[key].value.end, key.1);
      g in cs && Key(g) == Key(LatestFiled(cs))
    ensures multiset(UsableFacts(q)) == multiset(UsableFacts(p))
    ensures var y := ChoiceFor(Some(q), calendar, key); y.Selected? && Some(y.selection.value) == g.val
  {
    var facts := UsableFacts(p);
    var i :| 0 <= i < |facts| && facts[i] == g;
    var rest := facts[..i] + facts[i + 1..];
    q := [[g] + rest];
    RemoveAt(facts, i);
    UsableFactsAreUsable(p);
    assert forall f :: f in rest ==> f in facts;
    LatestFiledIsGreatest(Candidates(facts, calendar[key].value.end, key.1));
    ChoiceWithFirst(g, rest, calendar, key);
  }

  /**
   The value survives every rearrangement of the facts if and only if all the candidates filed last, by
   filing date and accession, carry the same value.
   */
  lemma ValueOrderIndependence(p: seq<seq<Fact>>, calendar: Calendar, key: Label)
    requires ChoiceFor(Some(p), calendar, key).Selected?
    ensures (forall q: seq<seq<Fact>> :: multiset(UsableFacts(q)) == multiset(UsableFacts(p)) ==> SameValue(p, q, calendar, key))
      <==> LatestAgree(Candidates(UsableFacts(p), calendar[key].value.end, key.1))
  {
    var end := calendar[key].value.end;
    var cs := Candidates(UsableFacts(p), end, key.1);
    if LatestAgree(cs) {
      forall q: seq<seq<Fact>> | multiset(UsableFacts(q)) == multiset(UsableFacts(p)) ensures SameValue(p, q, calendar, key) {
        var ds := Candidates(UsableFacts(q), end, key.1);
        CandidatesPermute(UsableFacts(p), UsableFacts(q), end, key.1);
        SameMembers(cs, ds);
        LatestFacesAgree(cs, ds);
        assert LatestFiled(ds) in cs;
      }
    } else {
      var g :| g in cs && Key(g) == Key(LatestFiled(cs)) && g.val != LatestFiled(cs).val;
      var q := GreatestCanComeFirst(p, g, calendar, key);
      assert !SameValue(p, q, calendar, key);
    }
  }

  /** What a filing reports in one unit of measure. */
  function InUnit(filed: string, accn: string, end: string, v: real): Fact {
    Fact(None, None, Some(Form10K), None, Some(end), filed, accn, Some(v))
  }

  /** Of two units with different figures the one that comes first gives the value of record. */
  lemma FirstUnitWins(filed: string, accn: string, end: string, v: real, w: real, key: Label)
    requires end != ""
    ensures var calendar := map[key := Some(Period("", end))];
      var choice := ChoiceFor(Some([[InUnit(filed, accn, end, v)], [InUnit(filed, accn, end, w)]]), calendar, key);
      choice.Selected? && choice.selection.value == v
  {
    var f, g := InUnit(filed, accn, end, v), InUnit(filed, accn, end, w);
    assert Days(f) == None && Days(g) == None;
    TiedUnits(f, g, map[key := Some(Period("", end))], key);
  }

  lemma TiedUnits(f: Fact, g: Fact, calendar: Calendar, key: Label)
    requires key in calendar && calendar[key].Some? && Key(f) == Key(g)
    requires IsCandidate(f, calendar[key].value.end, key.1) && IsCandidate(g, calendar[key].value.end, key.1)
    ensures var y := ChoiceFor(Some([[f], [g]]), calendar, key); y.Selected? && Some(y.selection.value) == f.val
  {
    var end := calendar[key].value.end;
    TwoUnits(f, g);
    CandidatesCons(f, [g], end, key.1);
    CandidatesCons(g, [], end, key.1);
    assert [g] + [] == [g];
    PairTotal();
    FirstGreatestIsChosen([[f], [g]], f, [g], calendar, key);
  }

  lemma TwoUnits(f: Fact, g: Fact)
    requires Usable(f) && Usable(g)
    ensures UsableFacts([[f], [g]]) == [f] + [g]
  {
    var units := [[f], [g]];
    AllUsable([g]);
    OneUnit([f]);
    assert units[..1] == [[f]];
  }

  // ----- a later filing -----

  /**
   One more candidate, anywhere in the payload and filed after all the others, makes its value the value
   of record and turns the superseded values into the old ones, with the old value added and the new one
   removed.
   */
  lemma LaterFilingTakesOver(p: seq<seq<Fact>>, q: seq<seq<Fact>>, f: Fact, calendar: Calendar, key: Label)
    requires multiset(UsableFacts(q)) == multiset(UsableFacts(p)) + multiset{f}
    requires ChoiceFor(Some(p), calendar, key).Selected? && StatementFact(q, calendar[key].value.end, key.1, f)
    requires forall g :: StatementFact(p, calendar[key].value.end, key.1, g) ==> FiledAfter(f, g)
    ensures ChoiceFor(Some(q), calendar, key).Selected?
    ensures var before, after := ChoiceFor(Some(p), calendar, key).selection, ChoiceFor(Some(q), calendar, key).selection;
      && Some(after.value) == f.val
      && forall v :: v in SupersededValues(after) <==>
                     (v in SupersededValues(before) || v == before.value) && v != after.value
  {
    var end := calendar[key].value.end;
    OneMoreStatementFact(p, q, f, end, key.1);
    assert StatementReports(q, end, key.1, f.val.value);
    SelectionExists(Some(q), calendar, key);
    SelectionMeaning(p, calendar, key);
    SelectionMeaning(q, calendar, key);
    var before, after := ChoiceFor(Some(p), calendar, key).selection, ChoiceFor(Some(q), calendar, key).selection;
    OnlyLatest(p, q, f, end, key.1, after.value);
    ReportedNow(p, q, f, end, key.1);
    NotItsOwn(after);
  }

  lemma ReportedNow(p: seq<seq<Fact>>, q: seq<seq<Fact>>, f: Fact, end: string, fp: FiscalPeriod)
    requires forall g :: StatementFact(q, end, fp, g) <==> StatementFact(p, end, fp, g) || g == f
    ensures forall v :: StatementReports(q, end, fp, v) <==> StatementReports(p, end, fp, v) || f.val == Some(v)
  {
  }

  lemma OneMoreStatementFact(p: seq<seq<Fact>>, q: seq<seq<Fact>>, f: Fact, end: string, fp: FiscalPeriod)
    requires multiset(UsableFacts(q)) == multiset(UsableFacts(p)) + multiset{f} && StatementFact(q, end, fp, f)
    ensures forall g :: StatementFact(q, end, fp, g) <==> StatementFact(p, end, fp, g) || g == f
  {
    OneMoreFact(UsableFacts(p), UsableFacts(q), f);
    forall g ensures StatementFact(q, end, fp, g) <==> StatementFact(p, end, fp, g) || g == f {
      CandidateIff(p, end, fp, g);
      CandidateIff(q, end, fp, g);
    }
  }

  lemma OneMoreFact(a: seq<Fact>, b: seq<Fact>, f: Fact)
    requires multiset(b) == multiset(a) + multiset{f}
    ensures forall g :: g in b <==> g in a || g == f
  {
    forall g ensures g in b <==> g in a || g == f {
      assert g in b <==> g in multiset(b);
      assert g in a <==> g in multiset(a);
    }
  }

  lemma OnlyLatest(p: seq<seq<Fact>>, q: seq<seq<Fact>>, f: Fact, end: string, fp: FiscalPeriod, v: real)
    requires forall g :: StatementFact(q, end, fp, g) <==> StatementFact(p, end, fp, g) || g == f
    requires LatestReports(q, end, fp, v)
    requires forall g :: StatementFact(p, end, fp, g) ==> FiledAfter(f, g)
    ensures f.val == Some(v)
  {
    var g :| StatementFact(q, end, fp, g) && g.val == Some(v)
      && forall h :: StatementFact(q, end, fp, h) ==> !FiledAfter(h, g);
    assert !FiledAfter(f, g);
  }

  lemma NotItsOwn(s: Selection)
    requires Distinct([s.value] + SupersededValues(s))
    ensures s.value !in SupersededValues(s)
  {
    var earlier := SupersededValues(s);
    forall i | 0 <= i < |earlier| ensures earlier[i] != s.value {
      assert ([s.value] + earlier)[0] == s.value && ([s.value] + earlier)[i + 1] == earlier[i];
    }
  }
}

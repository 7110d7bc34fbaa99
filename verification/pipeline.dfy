/**
 From filed facts to a verdict: select_fact, _resolve_fiscal, the resolver, the comparator and execute,
 put together for a numeric claim on a statement metric and a fiscal period.
 */
module Pipeline {
  import opened Wrappers
  import opened Sequences
  import opened FactSelection
  import opened Metrics
  import opened Evidence
  import opened Verdicts
  import CalendarMeaning
  import opened Dates

  /** One issuer's companyfacts as the client keeps them. */
  datatype CompanyFacts = CompanyFacts(concepts: map<Concept, seq<seq<Fact>>>, calendar: Calendar)
  {
    function Payload(c: Concept): Option<seq<seq<Fact>>> {
      if c in concepts then Some(concepts[c]) else None
    }

    function Choice(c: Concept, key: Label): Choice {
      ChoiceFor(Payload(c), calendar, key)
    }
  }

  function ItemFor(c: Concept, s: Selection): Item {
    Item(c, Finite(s.value), Some(true), s.end, Some(s.key.0), Some(s.key.1),
         Map(SupersededValues(s), (v: real) => Finite(v)), s.accn)
  }

  /** The statement of a fiscal period: one line per concept that could be established, in concept order. */
  function StatementLines(concepts: seq<Concept>, facts: CompanyFacts, key: Label): seq<Item> {
    if concepts == [] then []
    else
      Line(concepts[0], facts, key) + StatementLines(concepts[1..], facts, key)
  }

  /** _resolve_fiscal; None stands for SECDataUnavailable. */
  method ResolveFiscal(concepts: seq<Concept>, facts: Option<CompanyFacts>, key: Label) returns (r: Option<seq<Item>>)
    ensures r == if facts == None then None else Some(StatementLines(concepts, facts.value, key))
  {
    if facts == None {
      return None;
    }
    var items: seq<Item> := [];
    for i := 0 to |concepts|
      invariant items + StatementLines(concepts[i..], facts.value, key) == StatementLines(concepts, facts.value, key)
    {
      NextLine(items, concepts, i, facts.value, key);
      items := AppendLine(items, concepts[i], facts.value, key);
    }
    assert items == items + StatementLines(concepts[|concepts|..], facts.value, key);
    r := Some(items);
  }

  /** The body of the loop. */
  method AppendLine(items: seq<Item>, c: Concept, facts: CompanyFacts, key: Label) returns (r: seq<Item>)
    ensures r == items + Line(c, facts, key)
  {
    var chosen := SelectFact(facts.Payload(c), facts.calendar, key);
    r := items;
    if chosen.Selected? {
      r := items + [ItemFor(c, chosen.selection)];
    }
  }

  function Line(c: Concept, facts: CompanyFacts, key: Label): seq<Item> {
    var choice := facts.Choice(c, key);
    if choice.Selected? then [ItemFor(c, choice.selection)] else []
  }

  lemma NextLine(items: seq<Item>, concepts: seq<Concept>, i: nat, facts: CompanyFacts, key: Label)
    requires i < |concepts|
    ensures items + StatementLines(concepts[i..], facts, key) ==
            items + Line(concepts[i], facts, key) + StatementLines(concepts[i + 1..], facts, key)
  {
    assert concepts[i..][1..] == concepts[i + 1..];
    Associates(items, Line(concepts[i], facts, key), StatementLines(concepts[i + 1..], facts, key));
  }

  lemma Associates(a: seq<Item>, b: seq<Item>, c: seq<Item>)
    ensures a + (b + c) == a + b + c
  {
  }

  /** The first of the concepts that carries the metric and has a selection for the period. */
  function FirstAnswer(concepts: seq<Concept>, facts: CompanyFacts, key: Label, m: XbrlMetric): (c: Option<Concept>)
    ensures c.Some? ==> Carries(c.value, m) && facts.Choice(c.value, key).Selected?
  {
    if concepts == [] then None
    else if Carries(concepts[0], m) && facts.Choice(concepts[0], key).Selected? then Some(concepts[0])
    else FirstAnswer(concepts[1..], facts, key, m)
  }

  lemma {:induction false} FirstAnswerAnswers(concepts: seq<Concept>, facts: CompanyFacts, key: Label, m: XbrlMetric)
    ensures var c := FirstAnswer(concepts, facts, key, m);
      && (c.Some? ==> c.value in concepts && Carries(c.value, m) && facts.Choice(c.value, key).Selected?)
      && (c == None <==> forall d :: d in concepts && Carries(d, m) ==> facts.Choice(d, key).Declined?)
  {
    if concepts != [] {
      assert concepts == [concepts[0]] + concepts[1..];
      FirstAnswerAnswers(concepts[1..], facts, key, m);
    }
  }

  /** A concept carries the metric and some statement fact of its payload reports a value for the settled period. */
  ghost predicate CanAnswer(facts: CompanyFacts, key: Label, m: XbrlMetric, c: Concept) {
    && Carries(c, m) && c in facts.concepts && key in facts.calendar && facts.calendar[key].Some?
    && exists f :: StatementFact(facts.concepts[c], facts.calendar[key].value.end, key.1, f)
  }

  /** The statement answers with the first concept, in the order asked for, that can answer. */
  lemma {:induction false} FirstAnswerIsFirst(concepts: seq<Concept>, facts: CompanyFacts, key: Label, m: XbrlMetric)
    ensures var c := FirstAnswer(concepts, facts, key, m);
      && (c == None <==> forall i :: 0 <= i < |concepts| ==> !CanAnswer(facts, key, m, concepts[i]))
      && (c.Some? ==> exists i :: 0 <= i < |concepts| && concepts[i] == c.value && CanAnswer(facts, key, m, concepts[i])
                                  && forall j :: 0 <= j < i ==> !CanAnswer(facts, key, m, concepts[j]))
  {
    if concepts != [] {
      CanAnswerIff(facts, key, m, concepts[0]);
      if CanAnswer(facts, key, m, concepts[0]) {
        assert concepts[0] == FirstAnswer(concepts, facts, key, m).value;
      } else {
        var rest := concepts[1..];
        FirstAnswerIsFirst(rest, facts, key, m);
        assert forall i :: 0 < i < |concepts| ==> concepts[i] == rest[i - 1];
        if FirstAnswer(rest, facts, key, m).Some? {
          var i :| 0 <= i < |rest| && rest[i] == FirstAnswer(rest, facts, key, m).value && CanAnswer(facts, key, m, rest[i])
                   && forall j :: 0 <= j < i ==> !CanAnswer(facts, key, m, rest[j]);
          assert concepts[i + 1] == rest[i];
        } else {
          assert forall i :: 0 < i < |concepts| ==> !CanAnswer(facts, key, m, concepts[i]);
        }
      }
    }
  }

  lemma CanAnswerIff(facts: CompanyFacts, key: Label, m: XbrlMetric, c: Concept)
    ensures CanAnswer(facts, key, m, c) <==> Carries(c, m) && facts.Choice(c, key).Selected?
  {
    SelectionExists(facts.Payload(c), facts.calendar, key);
    if c in facts.concepts && key in facts.calendar && facts.calendar[key].Some? {
      ReportedIffFact(facts.concepts[c], facts.calendar[key].value.end, key.1);
    }
  }

  lemma {:induction false} FiniteValuesOfFinite(vs: seq<real>)
    ensures FiniteValues(Map(vs, (v: real) => Finite(v))) == vs
  {
    if vs != [] {
      FiniteValuesOfFinite(vs[..|vs| - 1]);
      var mapped := Map(vs, (v: real) => Finite(v));
      assert mapped[..|vs| - 1] == Map(vs[..|vs| - 1], (v: real) => Finite(v));
      SplitLast(vs);
    }
  }

  /** A statement line made for a period is eligible for it when its concept carries the metric. */
  lemma LineEligible(record: ToolRecord, c: Concept, s: Selection, m: XbrlMetric, e: Expected)
    requires e.fiscal == Some(s.key)
    ensures Eligible(record, ItemFor(c, s), m, e) <==> Carries(c, m)
    ensures var o := Observe(record, ItemFor(c, s), Xbrl(m));
      o.value == s.value && o.superseded == SupersededValues(s)
  {
    FiniteValuesOfFinite(SupersededValues(s));
  }

  lemma ChoiceKeepsKey(facts: CompanyFacts, c: Concept, key: Label)
    requires facts.Choice(c, key).Selected?
    ensures facts.Choice(c, key).selection.key == key
  {
  }

  /** Reading the lines from any point on finds the first answering concept's line. */
  lemma {:induction false} LinesGiveFirstAnswer(record: ToolRecord, k: nat, concepts: seq<Concept>, facts: CompanyFacts,
                                                key: Label, m: XbrlMetric, e: Expected)
    requires k <= |record.items| && record.items[k..] == StatementLines(concepts, facts, key)
    requires e.fiscal == Some(key)
    ensures FromItems(record, Xbrl(m), e, k) ==
      match FirstAnswer(concepts, facts, key, m)
      case None => None
      case Some(c) => Some(Observe(record, ItemFor(c, facts.Choice(c, key).selection), Xbrl(m)))
    decreases |concepts|
  {
    if concepts == [] {
      assert k == |record.items|;
    } else {
      var c, rest := concepts[0], concepts[1..];
      if facts.Choice(c, key).Selected? {
        var line := ItemFor(c, facts.Choice(c, key).selection);
        ChoiceKeepsKey(facts, c, key);
        LineEligible(record, c, facts.Choice(c, key).selection, m, e);
        LineThenRest(record.items, k, line, StatementLines(rest, facts, key));
        LinesGiveFirstAnswer(record, k + 1, rest, facts, key, m, e);
      } else {
        assert record.items[k..] == StatementLines(rest, facts, key);
        LinesGiveFirstAnswer(record, k, rest, facts, key, m, e);
      }
    }
  }

  lemma LineThenRest(items: seq<Item>, k: nat, line: Item, rest: seq<Item>)
    requires k <= |items| && items[k..] == [line] + rest
    ensures k < |items| && items[k] == line && items[k + 1..] == rest
  {
    assert |items[k..]| == 1 + |rest|;
    assert items[k] == items[k..][0];
    assert items[k + 1..] == items[k..][1..];
  }

  /** The record of a successful statement call for that fiscal period. */
  predicate StatementRecord(record: ToolRecord, concepts: seq<Concept>, facts: CompanyFacts, key: Label) {
    && record.Trusted() && !record.tool.FilingTextSearch?
    && record.items == StatementLines(concepts, facts, key)
  }

  lemma StatementGivesFirstAnswer(record: ToolRecord, concepts: seq<Concept>, facts: CompanyFacts, key: Label,
                                  m: XbrlMetric, e: Expected)
    requires StatementRecord(record, concepts, facts, key) && e.fiscal == Some(key)
    ensures FromRecord(record, Xbrl(m), e) ==
      match FirstAnswer(concepts, facts, key, m)
      case None => None
      case Some(c) => Some(Observe(record, ItemFor(c, facts.Choice(c, key).selection), Xbrl(m)))
  {
    assert record.items[0..] == record.items;
    LinesGiveFirstAnswer(record, 0, concepts, facts, key, m, e);
    FromRecordIsFromItems(record, m, e);
  }

  lemma {:induction false} SkipSilentRecords(records: seq<ToolRecord>, metric: Metric, e: Expected, k: nat, n: nat)
    requires k <= n <= |records|
    requires forall i :: k <= i < n ==> FromRecord(records[i], metric, e) == None
    ensures FirstFrom(records, metric, e, k) == FirstFrom(records, metric, e, n)
    decreases n - k
  {
    if k < n {
      SkipSilentRecords(records, metric, e, k + 1, n);
    }
  }

  /** The first record from k on that answers, |records| if none does. */
  function FirstAnswering(records: seq<ToolRecord>, m: XbrlMetric, e: Expected, k: nat): (i: nat)
    requires k <= |records|
    ensures k <= i <= |records|
    ensures i < |records| ==> FromRecord(records[i], Xbrl(m), e).Some?
    ensures forall j :: k <= j < i ==> FromRecord(records[j], Xbrl(m), e) == None
    decreases |records| - k
  {
    if k == |records| || FromRecord(records[k], Xbrl(m), e).Some? then k else FirstAnswering(records, m, e, k + 1)
  }

  /** The resolver hands the comparator what the first answering record gives, or nothing. */
  lemma ResolvedIsFirstAnswering(records: seq<ToolRecord>, m: XbrlMetric, claimed: real, e: Expected)
    ensures var i := FirstAnswering(records, m, e, 0);
      Resolve(Some(Xbrl(m)), Some(claimed), None, "", records, e)
      == if i == |records| then None else FromRecord(records[i], Xbrl(m), e)
  {
    SkipSilentRecords(records, Xbrl(m), e, 0, FirstAnswering(records, m, e, 0));
  }

  /** If that record is a statement, it is the line of the statement's first answering concept. */
  lemma ResolvedFromStatement(records: seq<ToolRecord>, concepts: seq<Concept>, facts: CompanyFacts, key: Label,
                              m: XbrlMetric, claimed: real, e: Expected)
    ensures var i := FirstAnswering(records, m, e, 0);
      i < |records| && StatementRecord(records[i], concepts, facts, key) && e.fiscal == Some(key) ==>
        && FirstAnswer(concepts, facts, key, m).Some?
        && var c := FirstAnswer(concepts, facts, key, m).value;
           Resolve(Some(Xbrl(m)), Some(claimed), None, "", records, e)
           == Some(Observe(records[i], ItemFor(c, facts.Choice(c, key).selection), Xbrl(m)))
  {
    var i := FirstAnswering(records, m, e, 0);
    ResolvedIsFirstAnswering(records, m, claimed, e);
    if i < |records| && StatementRecord(records[i], concepts, facts, key) && e.fiscal == Some(key) {
      StatementGivesFirstAnswer(records[i], concepts, facts, key, m, e);
    }
  }

  /** The verdict of a run that resolved these records for the claim "metric op claimed". */
  function RunVerdict(x: Extraction, gap: Option<Gap>, records: seq<ToolRecord>, e: Expected, m: XbrlMetric,
                      op: Operator, claimed: real): Verdict
  {
    Decided(x, gap, Resolve(Some(Xbrl(m)), Some(claimed), None, "", records, e), op, claimed)
  }

  /** Some financial statement reported v for the concept the run rests on. */
  ghost predicate Reported(facts: CompanyFacts, c: Concept, key: Label, v: real)
    requires c in facts.concepts && key in facts.calendar && facts.calendar[key].Some?
  {
    StatementReports(facts.concepts[c], facts.calendar[key].value.end, key.1, v)
  }

  /** v is a value of record: reported, with no statement for the concept and period filed later. */
  ghost predicate OfRecord(facts: CompanyFacts, c: Concept, key: Label, v: real)
    requires c in facts.concepts && key in facts.calendar && facts.calendar[key].Some?
  {
    LatestReports(facts.concepts[c], facts.calendar[key].value.end, key.1, v)
  }

  lemma AnswerIsReported(concepts: seq<Concept>, facts: CompanyFacts, key: Label, m: XbrlMetric)
    requires FirstAnswer(concepts, facts, key, m).Some?
    ensures var c := FirstAnswer(concepts, facts, key, m).value;
      && c in facts.concepts && key in facts.calendar && facts.calendar[key].Some?
      && facts.Choice(c, key).Selected?
      && OfRecord(facts, c, key, facts.Choice(c, key).selection.value)
      && (forall v :: Reported(facts, c, key, v) <==>
            v == facts.Choice(c, key).selection.value || v in SupersededValues(facts.Choice(c, key).selection))
  {
    FirstAnswerAnswers(concepts, facts, key, m);
    var c := FirstAnswer(concepts, facts, key, m).value;
    SelectionMeaning(facts.concepts[c], facts.calendar, key);
  }

  /** The verdict is what the observation says: its value supports, and only it with every restated value refutes. */
  ghost predicate VerdictOn(verdict: Verdict, op: Operator, claimed: real, o: Observation)
    requires Interpretable(op)
  {
    && (verdict == Supports <==> Satisfies(op, claimed, o.value, Sec))
    && (verdict == Refutes <==>
          !Satisfies(op, claimed, o.value, Sec) && forall v :: v in o.superseded ==> !Satisfies(op, claimed, v, Sec))
  }

  /**
   The verdict is what the filings say: REFUTES exactly when every value any financial statement reported
   for the concept and period fails the claim, SUPPORTS exactly when the value of record satisfies it.
   */
  ghost predicate VerdictOnFilings(verdict: Verdict, op: Operator, claimed: real, facts: CompanyFacts, c: Concept, key: Label)
    requires Interpretable(op)
    requires c in facts.concepts && key in facts.calendar && facts.calendar[key].Some?
  {
    && (verdict == Refutes <==> forall v :: Reported(facts, c, key, v) ==> !Satisfies(op, claimed, v, Sec))
    && (exists v :: OfRecord(facts, c, key, v) && (verdict == Supports <==> Satisfies(op, claimed, v, Sec)))
  }

  /** The verdict is what the filings say of the concept the statement answers the metric with. */
  ghost predicate StatementSays(verdict: Verdict, op: Operator, claimed: real, concepts: seq<Concept>, facts: CompanyFacts,
                                key: Label, m: XbrlMetric)
    requires Interpretable(op)
  {
    && FirstAnswer(concepts, facts, key, m).Some?
    && var c := FirstAnswer(concepts, facts, key, m).value;
       && c in facts.concepts && key in facts.calendar && facts.calendar[key].Some?
       && VerdictOnFilings(verdict, op, claimed, facts, c, key)
  }

  /** Nothing to compare, or no way to, is declined; otherwise the first answering record's observation decides. */
  lemma VerdictOnFirstAnswering(x: Extraction, gap: Option<Gap>, records: seq<ToolRecord>, m: XbrlMetric, op: Operator,
                                claimed: real, e: Expected)
    ensures var i := FirstAnswering(records, m, e, 0);
      var verdict := RunVerdict(x, gap, records, e, m, op, claimed);
      && (i == |records| || !Interpretable(op) ==> verdict == NotEnoughInfo)
      && (i < |records| && Interpretable(op) ==> VerdictOn(verdict, op, claimed, FromRecord(records[i], Xbrl(m), e).value))
  {
    ResolvedIsFirstAnswering(records, m, claimed, e);
    DecisionOnAny(x, gap, Resolve(Some(Xbrl(m)), Some(claimed), None, "", records, e), op, claimed);
  }

  /** The verdict execute decides on an SEC claim. */
  function Decided(x: Extraction, gap: Option<Gap>, o: Option<Observation>, op: Operator, claimed: real): Verdict {
    Decide(x, false, false, Claim(Some(claimed), Some(op)), o, gap, Sec).verdict
  }

  lemma DecisionOnAny(x: Extraction, gap: Option<Gap>, o: Option<Observation>, op: Operator, claimed: real)
    ensures o == None || !Interpretable(op) ==> Decided(x, gap, o, op, claimed) == NotEnoughInfo
    ensures o.Some? && Interpretable(op) ==> VerdictOn(Decided(x, gap, o, op, claimed), op, claimed, o.value)
  {
    if o.Some? && Interpretable(op) {
      DecisionOnObservation(x, gap, o.value, op, claimed);
    }
  }

  /**
   What a verdict on a numeric claim means, whatever the model said and whether or not it said anything.
   If no record answers, or the operator cannot be interpreted, the run is declined. Otherwise the verdict
   is what the first answering record's observation says; and if that record is the statement of the
   fiscal period the claim names, it is what the filings say of the concept the statement answers with.
   */
  lemma WhatAVerdictMeans(x: Extraction, gap: Option<Gap>, records: seq<ToolRecord>, concepts: seq<Concept>,
                          facts: CompanyFacts, key: Label, m: XbrlMetric, op: Operator, claimed: real, e: Expected)
    ensures var i := FirstAnswering(records, m, e, 0);
      var verdict := RunVerdict(x, gap, records, e, m, op, claimed);
      && (i == |records| || !Interpretable(op) ==> verdict == NotEnoughInfo)
      && (i < |records| && Interpretable(op) ==> VerdictOn(verdict, op, claimed, FromRecord(records[i], Xbrl(m), e).value))
      && (i < |records| && Interpretable(op) && StatementRecord(records[i], concepts, facts, key) && e.fiscal == Some(key) ==>
            StatementSays(verdict, op, claimed, concepts, facts, key, m))
  {
    VerdictOnFirstAnswering(x, gap, records, m, op, claimed, e);
    var i := FirstAnswering(records, m, e, 0);
    if i < |records| && Interpretable(op) && StatementRecord(records[i], concepts, facts, key) && e.fiscal == Some(key) {
      StatementVerdict(RunVerdict(x, gap, records, e, m, op, claimed), records[i], concepts, facts, key, m, op, claimed, e);
    }
  }

  lemma StatementVerdict(verdict: Verdict, record: ToolRecord, concepts: seq<Concept>, facts: CompanyFacts, key: Label,
                         m: XbrlMetric, op: Operator, claimed: real, e: Expected)
    requires Interpretable(op) && StatementRecord(record, concepts, facts, key) && e.fiscal == Some(key)
    requires FromRecord(record, Xbrl(m), e).Some? && VerdictOn(verdict, op, claimed, FromRecord(record, Xbrl(m), e).value)
    ensures StatementSays(verdict, op, claimed, concepts, facts, key, m)
  {
    StatementGivesFirstAnswer(record, concepts, facts, key, m, e);
    ObservedIsReported(record, concepts, facts, key, m, e);
    ObservationOnFilings(verdict, op, claimed, FromRecord(record, Xbrl(m), e).value, facts,
                         FirstAnswer(concepts, facts, key, m).value, key);
  }

  /** The observation's value is of record, and it with the restated ones is what was reported. */
  lemma ObservedIsReported(record: ToolRecord, concepts: seq<Concept>, facts: CompanyFacts, key: Label, m: XbrlMetric, e: Expected)
    requires StatementRecord(record, concepts, facts, key) && e.fiscal == Some(key) && FirstAnswer(concepts, facts, key, m).Some?
    ensures FromRecord(record, Xbrl(m), e).Some?
    ensures var c := FirstAnswer(concepts, facts, key, m).value;
      && c in facts.concepts && key in facts.calendar && facts.calendar[key].Some?
      && var o := FromRecord(record, Xbrl(m), e).value;
         OfRecord(facts, c, key, o.value) && forall v :: Reported(facts, c, key, v) <==> v == o.value || v in o.superseded
  {
    var c := FirstAnswer(concepts, facts, key, m).value;
    StatementGivesFirstAnswer(record, concepts, facts, key, m, e);
    AnswerIsReported(concepts, facts, key, m);
    ChoiceKeepsKey(facts, c, key);
    LineEligible(record, c, facts.Choice(c, key).selection, m, e);
  }

  lemma ObservationOnFilings(verdict: Verdict, op: Operator, claimed: real, o: Observation, facts: CompanyFacts, c: Concept, key: Label)
    requires Interpretable(op) && VerdictOn(verdict, op, claimed, o)
    requires c in facts.concepts && key in facts.calendar && facts.calendar[key].Some? && OfRecord(facts, c, key, o.value)
    requires forall v :: Reported(facts, c, key, v) <==> v == o.value || v in o.superseded
    ensures VerdictOnFilings(verdict, op, claimed, facts, c, key)
  {
  }

  /**
   Under a calendar built from the issuer's own rows, the period a claim was answered for is that of some
   filing's latest flow stamped with it, as long as such a period is.
   */
  lemma AnsweredPeriodIsWitnessed(concepts: seq<Concept>, facts: CompanyFacts, key: Label, m: XbrlMetric)
    requires CalendarMeaning.Built(facts.calendar, facts.concepts)
    requires FirstAnswer(concepts, facts, key, m).Some?
    ensures key in facts.calendar && facts.calendar[key].Some?
    ensures var p := facts.calendar[key].value;
      && (exists f :: CalendarMeaning.LatestFlow(facts.concepts, key.0, key.1, f) && f.start == Some(p.start) && f.end == Some(p.end))
      && (forall end :: CalendarMeaning.Counts(facts.concepts, facts.calendar, key.0, key.1, end) <==> end == p.end)
      && Parse(p.start).Some? && Parse(p.end).Some?
      && var days := DayNumber(Parse(p.end).value) - DayNumber(Parse(p.start).value);
         if key.1 == FY then 330 <= days <= 400 else 75 <= days <= 105
  {
    AnswerIsReported(concepts, facts, key, m);
    CalendarMeaning.PeriodIsSettled(facts.calendar, facts.concepts, key.0, key.1);
    CalendarMeaning.PeriodIsEarliest(facts.calendar, facts.concepts, key.0, key.1);
  }

  /** When the latest statement's value is one value, SUPPORTS means exactly that this value satisfies the claim. */
  lemma LatestValueDecides(verdict: Verdict, op: Operator, claimed: real, facts: CompanyFacts, c: Concept, key: Label, latest: real)
    requires Interpretable(op) && c in facts.concepts && key in facts.calendar && facts.calendar[key].Some?
    requires VerdictOnFilings(verdict, op, claimed, facts, c, key)
    requires forall v :: OfRecord(facts, c, key, v) <==> v == latest
    ensures verdict == Supports <==> Satisfies(op, claimed, latest, Sec)
  {
    var v :| OfRecord(facts, c, key, v) && (verdict == Supports <==> Satisfies(op, claimed, v, Sec));
  }

  /** The decision is the comparison's, but for a refutation that a restated value meets. */
  lemma DecisionFollowsComparison(x: Extraction, gap: Option<Gap>, o: Observation, op: Operator, claimed: real)
    ensures var claim := Claim(Some(claimed), Some(op));
      var r := Compare(claim, Some(o.value), Sec).verdict;
      Decided(x, gap, Some(o), op, claimed) ==
      if r == Refutes && SupersededMatch(claim, o.superseded, Sec).Some? then NotEnoughInfo else r
  {
  }

  lemma DecisionOnObservation(x: Extraction, gap: Option<Gap>, o: Observation, op: Operator, claimed: real)
    requires Interpretable(op)
    ensures VerdictOn(Decided(x, gap, Some(o), op, claimed), op, claimed, o)
  {
    var claim := Claim(Some(claimed), Some(op));
    DecisionFollowsComparison(x, gap, o, op, claimed);
    CompareMeaning(claim, Some(o.value), Sec);
    RestatedMeaning(o.superseded, op, claimed);
  }

  lemma RestatedMeaning(earlier: seq<real>, op: Operator, claimed: real)
    requires Interpretable(op)
    ensures SupersededMatch(Claim(Some(claimed), Some(op)), earlier, Sec) == None <==>
      forall v :: v in earlier ==> !Satisfies(op, claimed, v, Sec)
  {
    var claim := Claim(Some(claimed), Some(op));
    SupersededMatchMeaning(claim, earlier, Sec);
    forall v ensures Compare(claim, Some(v), Sec).verdict == Supports <==> Satisfies(op, claimed, v, Sec) {
      CompareMeaning(claim, Some(v), Sec);
    }
  }

  /** When no concept answers and no other record does, a numeric claim is declined. */
  lemma NoAnswerIsDeclined(x: Extraction, gap: Option<Gap>, records: seq<ToolRecord>, n: nat, concepts: seq<Concept>,
                           facts: CompanyFacts, key: Label, m: XbrlMetric, op: Operator, claimed: real, e: Expected)
    requires n < |records| && StatementRecord(records[n], concepts, facts, key) && e.fiscal == Some(key)
    requires forall i :: 0 <= i < |records| && i != n ==> FromRecord(records[i], Xbrl(m), e) == None
    requires FirstAnswer(concepts, facts, key, m) == None
    ensures RunVerdict(x, gap, records, e, m, op, claimed) == NotEnoughInfo
  {
    StatementGivesFirstAnswer(records[n], concepts, facts, key, m, e);
    SilenceIsDeclined(x, gap, records, m, op, claimed, e);
  }

  lemma SilenceIsDeclined(x: Extraction, gap: Option<Gap>, records: seq<ToolRecord>, m: XbrlMetric, op: Operator,
                          claimed: real, e: Expected)
    requires forall i :: 0 <= i < |records| ==> FromRecord(records[i], Xbrl(m), e) == None
    ensures RunVerdict(x, gap, records, e, m, op, claimed) == NotEnoughInfo
  {
    SkipSilentRecords(records, Xbrl(m), e, 0, |records|);
  }
}

/**
 Which number of a run's tool results may be compared with a claim (src/finvet/models/evidence.py).
 "" stands for a missing string wherever the program only tests a string for being there.
 */
module Evidence {
  import opened Wrappers
  import opened Dates
  import opened FactSelection
  import opened Metrics

  /** A raw JSON value as far as _coerce_number tells values apart. */
  datatype RawNumber = NotANumber | NonFinite | Finite(value: real)

  function Coerce(n: RawNumber): Option<real> {
    if n.Finite? then Some(n.value) else None
  }

  /** One statement line; name is line_item, or concept when that is empty. */
  datatype Item = Item(
    name: Concept, value: RawNumber, consolidated: Option<bool>, periodEnd: string,
    fiscalYear: Option<int>, fiscalPeriod: Option<FiscalPeriod>,
    superseded: seq<RawNumber>, accession: string)

  /** A penalty amount Python lifted from a passage. */
  datatype Amount = Amount(value: real, currency: string, evidenceId: string)

  datatype Tool = StockQuote | FilingTextSearch | NewsSearch | OtherTool(name: string)

  datatype ToolRecord = ToolRecord(
    tool: Tool, transportSuccess: bool, applicationSuccess: Option<bool>,
    items: seq<Item>, periodEnd: string,
    fields: map<MarketMetric, RawNumber>, tradingDay: string,
    found: Option<int>, noCorpus: bool, amounts: seq<Option<Amount>>)
  {
    /** May a number from this call reach the comparator? */
    predicate Trusted() {
      transportSuccess && applicationSuccess == Some(true)
    }

    /** The tool retrieves source text and reports how much it found. */
    predicate Retrieval() {
      tool.FilingTextSearch? || tool.NewsSearch?
    }
  }

  datatype Observation = Observation(
    metric: Metric, value: real, periodEnd: string, observedAt: string,
    concept: Option<Concept>, fiscal: Option<Label>, superseded: seq<real>, sourceId: string)

  /** What the claim's period resolved to: a window, and the fiscal period the claim names. */
  datatype Expected = Expected(start: string, end: string, fiscal: Option<Label>)

  predicate PeriodMatches(periodEnd: string, e: Expected) {
    if e.end == "" then true
    else if periodEnd == "" then false
    else if e.start != "" then AtMost(e.start, periodEnd) && AtMost(periodEnd, e.end)
    else periodEnd == e.end
  }

  function FiscalLabel(item: Item): Option<Label> {
    if item.fiscalYear.Some? && item.fiscalPeriod.Some? then Some((item.fiscalYear.value, item.fiscalPeriod.value))
    else None
  }

  function FiniteValues(xs: seq<RawNumber>): seq<real> {
    if xs == [] then []
    else
      var rest := FiniteValues(xs[..|xs| - 1]);
      var last := xs[|xs| - 1];
      if last.Finite? then rest + [last.value] else rest
  }

  function ItemPeriodEnd(record: ToolRecord, item: Item): string {
    if item.periodEnd != "" then item.periodEnd else record.periodEnd
  }

  // ----- statement lines -----

  /** The claim names this fiscal period, or the line names none and ends in the claim's window. */
  predicate BoundTo(record: ToolRecord, item: Item, e: Expected) {
    if FiscalLabel(item).Some? && e.fiscal.Some? then FiscalLabel(item) == e.fiscal
    else PeriodMatches(ItemPeriodEnd(record, item), e)
  }

  predicate Eligible(record: ToolRecord, item: Item, m: XbrlMetric, e: Expected) {
    Carries(item.name, m) && item.value.Finite? && item.consolidated != Some(false) && BoundTo(record, item, e)
  }

  function Observe(record: ToolRecord, item: Item, metric: Metric): Observation
    requires item.value.Finite?
  {
    Observation(metric, item.value.value, ItemPeriodEnd(record, item), "", Some(item.name), FiscalLabel(item),
                FiniteValues(item.superseded), item.accession)
  }

  /** The first eligible line from position k on. */
  function FromItems(record: ToolRecord, metric: Metric, e: Expected, k: nat): Option<Observation>
    requires k <= |record.items|
    decreases |record.items| - k
  {
    if !metric.Xbrl? || k == |record.items| then None
    else if Eligible(record, record.items[k], metric.xbrl, e) then Some(Observe(record, record.items[k], metric))
    else FromItems(record, metric, e, k + 1)
  }

  method ObservationFromItems(record: ToolRecord, metric: Metric, e: Expected) returns (r: Option<Observation>)
    ensures r == FromItems(record, metric, e, 0)
  {
    if !metric.Xbrl? {
      return None;
    }
    for k := 0 to |record.items|
      invariant FromItems(record, metric, e, 0) == FromItems(record, metric, e, k)
    {
      var item := record.items[k];
      if !Carries(item.name, metric.xbrl) { continue; }
      var value := Coerce(item.value);
      if value == None { continue; }
      if item.consolidated == Some(false) { continue; }
      var periodEnd := ItemPeriodEnd(record, item);
      var fiscal := FiscalLabel(item);
      if fiscal.Some? && e.fiscal.Some? {
        if fiscal != e.fiscal { continue; }
      } else if !PeriodMatches(periodEnd, e) {
        continue;
      }
      return Some(Observation(metric, value.value, periodEnd, "", Some(item.name), fiscal,
                              FiniteValues(item.superseded), item.accession));
    }
    r := None;
  }

  // ----- quotes and penalties -----

  /** Only a quote says when its number was true, and only with a readable date. */
  function FromField(record: ToolRecord, metric: Metric): Option<Observation> {
    if !record.tool.StockQuote? || !metric.Market? || metric.market !in record.fields then None
    else if !record.fields[metric.market].Finite? || Parse(record.tradingDay) == None then None
    else Some(Observation(metric, record.fields[metric.market].value, "", record.tradingDay, None, None, [], ""))
  }

  function AmountsIn(xs: seq<Option<Amount>>): seq<Amount> {
    if xs == [] then []
    else
      var rest := AmountsIn(xs[..|xs| - 1]);
      if xs[|xs| - 1].Some? then rest + [xs[|xs| - 1].value] else rest
  }

  function PenaltyAmounts(records: seq<ToolRecord>): seq<Amount> {
    if records == [] then []
    else
      var last := records[|records| - 1];
      PenaltyAmounts(records[..|records| - 1]) + if last.Retrieval() && last.Trusted() then AmountsIn(last.amounts) else []
  }

  function Abs(x: real): real {
    if x < 0.0 then -x else x
  }

  function Max(a: real, b: real): real {
    if a >= b then a else b
  }

  function Min(a: real, b: real): real {
    if a <= b then a else b
  }

  const FX_SAFE_MAGNITUDE_RATIO := 10.0

  function PenaltyObservation(claimed: Option<real>, claimCurrency: string, records: seq<ToolRecord>, metric: Metric)
    : Option<Observation>
  {
    var found := PenaltyAmounts(records);
    if found == [] then None
    else if exists a, b :: a in found && b in found && (a.value != b.value || a.currency != b.currency) then None
    else
      var a := found[0];
      var c := Abs(claimed.GetOr(0.0));
      if c != 0.0 && claimCurrency != a.currency
         && Max(c, a.value) / Max(Min(c, a.value), 0.000000001) < FX_SAFE_MAGNITUDE_RATIO
      then None
      else Some(Observation(metric, a.value, "", "", None, None, [], a.evidenceId))
  }

  // ----- the resolver -----

  /** The observation was selected for the fiscal period the claim names. */
  predicate Named(o: Observation, e: Expected) {
    e.fiscal.Some? && o.fiscal == e.fiscal
  }

  /** What one record contributes, after the outer period check. */
  function FromRecord(record: ToolRecord, metric: Metric, e: Expected): Option<Observation> {
    if !record.Trusted() || record.tool.FilingTextSearch? then None
    else
      var items := FromItems(record, metric, e, 0);
      var o := if items.Some? then items else FromField(record, metric);
      if o.Some? && (Named(o.value, e) || PeriodMatches(o.value.periodEnd, e)) then o else None
  }

  function FirstFrom(records: seq<ToolRecord>, metric: Metric, e: Expected, k: nat): Option<Observation>
    requires k <= |records|
    decreases |records| - k
  {
    if k == |records| then None
    else
      var o := FromRecord(records[k], metric, e);
      if o.Some? then o else FirstFrom(records, metric, e, k + 1)
  }

  /** resolve_trusted_observation; narrative is the metric carried beside a delegated claim. */
  function Resolve(metric: Option<Metric>, claimed: Option<real>, narrative: Option<Metric>, claimCurrency: string,
                   records: seq<ToolRecord>, e: Expected): Option<Observation>
  {
    var penalty := if narrative.Some? then narrative else metric;
    if penalty.Some? && penalty.value.Penalty() then PenaltyObservation(claimed, claimCurrency, records, penalty.value)
    else if metric == None then None
    else FirstFrom(records, metric.value, e, 0)
  }

  method ResolveTrustedObservation(metric: Option<Metric>, claimed: Option<real>, narrative: Option<Metric>,
                                   claimCurrency: string, records: seq<ToolRecord>, e: Expected)
    returns (r: Option<Observation>)
    ensures r == Resolve(metric, claimed, narrative, claimCurrency, records, e)
  {
    var penalty := if narrative.Some? then narrative else metric;
    if penalty.Some? && penalty.value.Penalty() {
      return PenaltyObservation(claimed, claimCurrency, records, penalty.value);
    }
    if metric == None {
      return None;
    }
    for k := 0 to |records|
      invariant FirstFrom(records, metric.value, e, 0) == FirstFrom(records, metric.value, e, k)
    {
      var record := records[k];
      if !record.Trusted() { continue; }
      if record.tool.FilingTextSearch? { continue; }
      var o := ObservationFromItems(record, metric.value, e);
      if o == None {
        o := FromField(record, metric.value);
      }
      if o == None { continue; }
      var named := e.fiscal.Some? && o.value.fiscal.Some? && o.value.fiscal.value == e.fiscal.value;
      if !named && !PeriodMatches(o.value.periodEnd, e) { continue; }
      return o;
    }
    r := None;
  }

  // ----- what the resolver finds for a statement metric -----

  /** A line the resolver may rest a verdict on. */
  predicate Admissible(record: ToolRecord, item: Item, m: XbrlMetric, e: Expected) {
    record.Trusted() && !record.tool.FilingTextSearch? && Eligible(record, item, m, e)
  }

  /**
   A line is admissible exactly when its call succeeded and was no text search, it carries the metric with a
   finite value, is not marked as unconsolidated, and is for the claim's period: by name if both name one,
   and otherwise by where its end falls.
   */
  lemma AdmissibleIff(record: ToolRecord, item: Item, m: XbrlMetric, e: Expected)
    ensures Admissible(record, item, m, e) <==>
      && record.transportSuccess && record.applicationSuccess == Some(true) && record.tool != FilingTextSearch
      && Carries(item.name, m) && item.value.Finite? && item.consolidated != Some(false)
      && if item.fiscalYear.Some? && item.fiscalPeriod.Some? && e.fiscal.Some?
         then e.fiscal.value.0 == item.fiscalYear.value && e.fiscal.value.1 == item.fiscalPeriod.value
         else EndsWithin(if item.periodEnd == "" then record.periodEnd else item.periodEnd, e)
  {
  }

  /** No end is expected, or there is one and it is the one expected or in the window. */
  ghost predicate EndsWithin(periodEnd: string, e: Expected) {
    || e.end == ""
    || (periodEnd != "" && periodEnd == e.end && e.start == "")
    || (periodEnd != "" && e.start != "" && !Less(periodEnd, e.start) && !Less(e.end, periodEnd))
  }

  /** For full-dates the window is one of day numbers, both ends included. */
  lemma WindowInDays(periodEnd: string, e: Expected)
    requires Parse(periodEnd).Some? && Parse(e.start).Some? && Parse(e.end).Some?
    ensures PeriodMatches(periodEnd, e) <==>
      DayNumber(Parse(e.start).value) <= DayNumber(Parse(periodEnd).value) <= DayNumber(Parse(e.end).value)
  {
    LessAgrees(periodEnd, e.start);
    LessAgrees(e.end, periodEnd);
  }

  /** What is observed of a line is its own value, period and restated values, those that are numbers, in order. */
  lemma ObservedOfLine(record: ToolRecord, item: Item, m: Metric)
    requires item.value.Finite?
    ensures var o := Observe(record, item, m);
      && item.value == Finite(o.value) && o.concept == Some(item.name) && o.metric == m && o.sourceId == item.accession
      && o.periodEnd == (if item.periodEnd == "" then record.periodEnd else item.periodEnd)
      && (forall y, p :: o.fiscal == Some((y, p)) <==> item.fiscalYear == Some(y) && item.fiscalPeriod == Some(p))
      && (forall v :: v in o.superseded <==> Finite(v) in item.superseded)
  {
    forall v ensures v in FiniteValues(item.superseded) <==> Finite(v) in item.superseded {
      FiniteValuesMembers(item.superseded, v);
    }
  }

  lemma {:induction false} FiniteValuesMembers(xs: seq<RawNumber>, v: real)
    ensures v in FiniteValues(xs) <==> Finite(v) in xs
  {
    if xs != [] {
      assert xs == xs[..|xs| - 1] + [xs[|xs| - 1]];
      FiniteValuesMembers(xs[..|xs| - 1], v);
    }
  }

  predicate AdmissibleAt(records: seq<ToolRecord>, m: XbrlMetric, e: Expected, i: int, j: int) {
    0 <= i < |records| && 0 <= j < |records[i].items| && Admissible(records[i], records[i].items[j], m, e)
  }

  ghost predicate FirstEligible(record: ToolRecord, m: XbrlMetric, e: Expected, k: int, j: int) {
    && k <= j < |record.items| && 0 <= j && Eligible(record, record.items[j], m, e)
    && (forall i :: 0 <= k <= i < j ==> !Eligible(record, record.items[i], m, e))
  }

  /** r is what the first eligible line from k on gives, or None if there is none. */
  ghost predicate FirstLine(r: Option<Observation>, record: ToolRecord, m: XbrlMetric, e: Expected, k: nat) {
    && (r == None <==> forall j :: k <= j < |record.items| ==> !Eligible(record, record.items[j], m, e))
    && (r.Some? ==> exists j :: FirstEligible(record, m, e, k, j) && r == Some(Observe(record, record.items[j], Xbrl(m))))
  }

  lemma FirstLineEarlier(r: Option<Observation>, record: ToolRecord, m: XbrlMetric, e: Expected, k: nat)
    requires k < |record.items| && !Eligible(record, record.items[k], m, e) && FirstLine(r, record, m, e, k + 1)
    ensures FirstLine(r, record, m, e, k)
  {
    if r.Some? {
      var j :| FirstEligible(record, m, e, k + 1, j) && r == Some(Observe(record, record.items[j], Xbrl(m)));
      assert FirstEligible(record, m, e, k, j);
    }
  }

  lemma {:induction false} FromItemsFirst(record: ToolRecord, m: XbrlMetric, e: Expected, k: nat)
    requires k <= |record.items|
    ensures FirstLine(FromItems(record, Xbrl(m), e, k), record, m, e, k)
    decreases |record.items| - k
  {
    if k < |record.items| {
      if Eligible(record, record.items[k], m, e) {
        assert FirstEligible(record, m, e, k, k);
      } else {
        FromItemsFirst(record, m, e, k + 1);
        FirstLineEarlier(FromItems(record, Xbrl(m), e, k + 1), record, m, e, k);
      }
    }
  }

  /** The outer period check never rejects a line the inner one accepted. */
  lemma OuterCheckAgrees(record: ToolRecord, item: Item, m: XbrlMetric, e: Expected)
    requires Eligible(record, item, m, e)
    ensures Named(Observe(record, item, Xbrl(m)), e) || PeriodMatches(Observe(record, item, Xbrl(m)).periodEnd, e)
  {
  }

  /** A record gives what its lines give: for a statement metric the outer check and the quote fields add nothing. */
  lemma FromRecordIsFromItems(record: ToolRecord, m: XbrlMetric, e: Expected)
    ensures FromRecord(record, Xbrl(m), e) ==
      if record.Trusted() && !record.tool.FilingTextSearch? then FromItems(record, Xbrl(m), e, 0) else None
  {
    FromItemsFirst(record, m, e, 0);
    if FromItems(record, Xbrl(m), e, 0).Some? {
      var j :| FirstEligible(record, m, e, 0, j)
          && FromItems(record, Xbrl(m), e, 0) == Some(Observe(record, record.items[j], Xbrl(m)));
      OuterCheckAgrees(record, record.items[j], m, e);
    }
  }

  /** (i, j) is the first admissible position from record k on, in record-then-line order. */
  ghost predicate FirstAdmissible(records: seq<ToolRecord>, m: XbrlMetric, e: Expected, k: int, i: int, j: int) {
    && k <= i && AdmissibleAt(records, m, e, i, j)
    && (forall i', j' :: k <= i' && (i' < i || (i' == i && j' < j)) ==> !AdmissibleAt(records, m, e, i', j'))
  }

  ghost predicate FoundFirst(r: Option<Observation>, records: seq<ToolRecord>, m: XbrlMetric, e: Expected, k: int) {
    && (r == None <==> forall i, j :: k <= i ==> !AdmissibleAt(records, m, e, i, j))
    && (r.Some? ==> exists i, j :: FirstAdmissible(records, m, e, k, i, j)
                                   && r == Some(Observe(records[i], records[i].items[j], Xbrl(m))))
  }

  lemma FoundHere(records: seq<ToolRecord>, m: XbrlMetric, e: Expected, k: nat)
    requires k < |records| && FromRecord(records[k], Xbrl(m), e).Some?
    ensures FoundFirst(FromRecord(records[k], Xbrl(m), e), records, m, e, k)
  {
    var record := records[k];
    FromRecordIsFromItems(record, m, e);
    FromItemsFirst(record, m, e, 0);
    var j :| FirstEligible(record, m, e, 0, j)
        && FromItems(record, Xbrl(m), e, 0) == Some(Observe(record, record.items[j], Xbrl(m)));
    assert FirstAdmissible(records, m, e, k, k, j);
  }

  lemma FoundLater(r: Option<Observation>, records: seq<ToolRecord>, m: XbrlMetric, e: Expected, k: nat)
    requires k < |records| && FromRecord(records[k], Xbrl(m), e) == None
    requires FoundFirst(r, records, m, e, k + 1)
    ensures FoundFirst(r, records, m, e, k)
  {
    NoneAdmissibleIn(records, m, e, k);
    if r.Some? {
      var i, j :| FirstAdmissible(records, m, e, k + 1, i, j)
          && r == Some(Observe(records[i], records[i].items[j], Xbrl(m)));
      assert FirstAdmissible(records, m, e, k, i, j);
    }
  }

  lemma NoneAdmissibleIn(records: seq<ToolRecord>, m: XbrlMetric, e: Expected, k: nat)
    requires k < |records| && FromRecord(records[k], Xbrl(m), e) == None
    ensures forall j :: !AdmissibleAt(records, m, e, k, j)
  {
    FromRecordIsFromItems(records[k], m, e);
    FromItemsFirst(records[k], m, e, 0);
  }

  lemma {:induction false} FirstFromFirst(records: seq<ToolRecord>, m: XbrlMetric, e: Expected, k: nat)
    requires k <= |records|
    ensures FoundFirst(FirstFrom(records, Xbrl(m), e, k), records, m, e, k)
    decreases |records| - k
  {
    if k < |records| {
      if FromRecord(records[k], Xbrl(m), e) == None {
        FirstFromFirst(records, m, e, k + 1);
        FoundLater(FirstFrom(records, Xbrl(m), e, k + 1), records, m, e, k);
      } else {
        FoundHere(records, m, e, k);
      }
    }
  }

  /**
   For a statement metric the resolver returns the first admissible line in record-then-line order,
   and nothing exactly when no record holds one; so a stale line ahead never hides a correct one.
   */
  lemma ResolveFindsFirst(m: XbrlMetric, claimed: Option<real>, narrative: Option<Metric>, claimCurrency: string,
                          records: seq<ToolRecord>, e: Expected)
    requires narrative != Some(FineAmount) && narrative != Some(SettlementAmount)
    ensures var r := Resolve(Some(Xbrl(m)), claimed, narrative, claimCurrency, records, e);
      && (r == None <==> forall i, j :: !AdmissibleAt(records, m, e, i, j))
      && (r.Some? ==> exists i, j :: FirstAdmissible(records, m, e, 0, i, j)
                                     && r == Some(Observe(records[i], records[i].items[j], Xbrl(m))))
  {
    FirstFromFirst(records, m, e, 0);
  }

  // ----- claims that name no value -----

  datatype Gap = RetrievalUnavailable | NoRetrievalAttempted | NoIndexedSource | NoSupportingEvidence

  /** A call of one of the two tools that retrieve source text. */
  ghost predicate Searches(r: ToolRecord) {
    r.tool == FilingTextSearch || r.tool == NewsSearch
  }

  ghost predicate Succeeded(r: ToolRecord) {
    r.transportSuccess && r.applicationSuccess == Some(true)
  }

  ghost predicate Productive(r: ToolRecord) {
    Searches(r) && Succeeded(r) && r.found.Some? && r.found.value > 0
  }

  /** Why a claim naming no value has nothing behind it: what the records, taken together, say. */
  method QualitativeEvidenceGap(records: seq<ToolRecord>) returns (r: Option<Gap>)
    ensures r == None <==> exists x :: x in records && Productive(x)
    ensures r == Some(NoRetrievalAttempted) <==> forall x :: x in records ==> !Searches(x)
    ensures r == Some(RetrievalUnavailable) <==>
      (exists x :: x in records && Searches(x)) && (forall x :: x in records && Searches(x) ==> !Succeeded(x))
    ensures r == Some(NoIndexedSource) <==>
      (forall x :: x in records ==> !Productive(x)) && (exists x :: x in records && Searches(x) && Succeeded(x) && x.noCorpus)
  {
    var searched, unavailable, noCorpus := false, false, false;
    for k := 0 to |records|
      invariant forall x :: x in records[..k] ==> !Productive(x)
      invariant searched <==> exists x :: x in records[..k] && Searches(x) && Succeeded(x)
      invariant unavailable <==> exists x :: x in records[..k] && Searches(x) && !Succeeded(x)
      invariant noCorpus <==> exists x :: x in records[..k] && Searches(x) && Succeeded(x) && x.noCorpus
    {
      var record := records[k];
      assert records[..k + 1] == records[..k] + [record];
      assert record in records[..k + 1] && (record.Retrieval() <==> Searches(record)) && (record.Trusted() <==> Succeeded(record));
      if !record.Retrieval() { continue; }
      if !record.Trusted() {
        unavailable := true;
        continue;
      }
      searched := true;
      if record.found.Some? && record.found.value > 0 {
        assert record in records && Productive(record);
        return None;
      }
      if record.noCorpus {
        noCorpus := true;
      }
    }
    assert records[..|records|] == records;
    if !searched {
      return Some(if unavailable then RetrievalUnavailable else NoRetrievalAttempted);
    }
    r := Some(if noCorpus then NoIndexedSource else NoSupportingEvidence);
  }

  // ----- what the resolver finds for a market or penalty metric -----

  /** A trusted quote with a finite number in the field and a readable trading day. */
  ghost predicate Quotes(record: ToolRecord, m: MarketMetric) {
    && record.transportSuccess && record.applicationSuccess == Some(true) && record.tool == StockQuote
    && m in record.fields && record.fields[m].Finite? && Parse(record.tradingDay).Some?
  }

  ghost predicate FirstQuote(records: seq<ToolRecord>, m: MarketMetric, k: nat, i: nat) {
    k <= i < |records| && Quotes(records[i], m) && forall j :: k <= j < i ==> !Quotes(records[j], m)
  }

  /** r is what the first quote from k on says, or None if there is none. */
  ghost predicate FirstQuoted(r: Option<Observation>, records: seq<ToolRecord>, m: MarketMetric, k: nat) {
    && (r == None <==> forall j :: k <= j < |records| ==> !Quotes(records[j], m))
    && (r.Some? ==> exists i: nat :: FirstQuote(records, m, k, i) && Says(r.value, records[i], m))
  }

  ghost predicate Says(o: Observation, record: ToolRecord, m: MarketMetric) {
    m in record.fields && record.fields[m] == Finite(o.value) && o.observedAt == record.tradingDay
  }

  lemma FromQuote(record: ToolRecord, m: MarketMetric, e: Expected)
    ensures FromRecord(record, Market(m), e).Some? <==> e.end == "" && Quotes(record, m)
    ensures FromRecord(record, Market(m), e).Some? ==> Says(FromRecord(record, Market(m), e).value, record, m)
  {
  }

  lemma {:induction false} FirstFromQuotes(records: seq<ToolRecord>, m: MarketMetric, e: Expected, k: nat)
    requires k <= |records|
    ensures if e.end == "" then FirstQuoted(FirstFrom(records, Market(m), e, k), records, m, k)
            else FirstFrom(records, Market(m), e, k) == None
    decreases |records| - k
  {
    if k < |records| {
      FromQuote(records[k], m, e);
      FirstFromQuotes(records, m, e, k + 1);
      if e.end == "" && Quotes(records[k], m) {
        assert FirstQuote(records, m, k, k);
      } else if e.end == "" {
        QuotedEarlier(FirstFrom(records, Market(m), e, k + 1), records, m, k);
      }
    }
  }

  lemma QuotedEarlier(r: Option<Observation>, records: seq<ToolRecord>, m: MarketMetric, k: nat)
    requires k < |records| && !Quotes(records[k], m) && FirstQuoted(r, records, m, k + 1)
    ensures FirstQuoted(r, records, m, k)
  {
    if r.Some? {
      var i: nat :| FirstQuote(records, m, k + 1, i) && Says(r.value, records[i], m);
      assert FirstQuote(records, m, k, i);
    }
  }

  /**
   For a market metric the resolver returns the first trusted quote with a readable day, and nothing for
   any claim bound to a period: a quote is observed, not reported.
   */
  lemma ResolveFindsFirstQuote(records: seq<ToolRecord>, m: MarketMetric, claimed: Option<real>, narrative: Option<Metric>,
                               claimCurrency: string, e: Expected)
    requires narrative != Some(FineAmount) && narrative != Some(SettlementAmount)
    ensures var r := Resolve(Some(Market(m)), claimed, narrative, claimCurrency, records, e);
      if e.end == "" then FirstQuoted(r, records, m, 0) else r == None
  {
    assert Resolve(Some(Market(m)), claimed, narrative, claimCurrency, records, e) == FirstFrom(records, Market(m), e, 0);
    FirstFromQuotes(records, m, e, 0);
  }

  /** A trusted retrieval found this amount. */
  ghost predicate Discloses(records: seq<ToolRecord>, a: Amount) {
    exists i :: 0 <= i < |records| && DisclosedBy(records[i], a)
  }

  ghost predicate DisclosedBy(record: ToolRecord, a: Amount) {
    Searches(record) && Succeeded(record) && Some(a) in record.amounts
  }

  lemma {:induction false} AmountsAreDisclosed(records: seq<ToolRecord>, a: Amount)
    ensures a in PenaltyAmounts(records) <==> Discloses(records, a)
  {
    if records != [] {
      var front, last := records[..|records| - 1], records[|records| - 1];
      AmountsAreDisclosed(front, a);
      AmountsMembers(last.amounts, a);
      assert records == front + [last];
      if Discloses(front, a) {
        var i :| 0 <= i < |front| && DisclosedBy(front[i], a);
        assert DisclosedBy(records[i], a);
      }
      if DisclosedBy(last, a) {
        assert DisclosedBy(records[|front|], a);
      }
    }
  }

  lemma {:induction false} AmountsMembers(xs: seq<Option<Amount>>, a: Amount)
    ensures a in AmountsIn(xs) <==> Some(a) in xs
  {
    if xs != [] {
      AmountsMembers(xs[..|xs| - 1], a);
      assert xs == xs[..|xs| - 1] + [xs[|xs| - 1]];
    }
  }

  /** The claim is about a fine or a settlement, named beside it if anything is. */
  ghost predicate AboutPenalty(metric: Option<Metric>, narrative: Option<Metric>, p: Metric) {
    (p == FineAmount || p == SettlementAmount) && (narrative == Some(p) || (narrative == None && metric == Some(p)))
  }

  /** Of two magnitudes the larger is ten times the other, or more, and not under ten billionths. */
  ghost predicate TenfoldApart(x: real, y: real) {
    (x >= 10.0 * y && x >= 0.00000001) || (y >= 10.0 * x && y >= 0.00000001)
  }

  /**
   A penalty claim rests on a disclosed amount if and only if no two trusted passages disclosed different
   values or currencies and the amount is in the claim's currency, or the claim names no magnitude, or the
   two magnitudes are a factor of ten or more apart; it is that amount.
   */
  lemma PenaltyIsUnanimous(records: seq<ToolRecord>, metric: Option<Metric>, narrative: Option<Metric>, p: Metric,
                           claimed: Option<real>, claimCurrency: string, e: Expected, a: Amount)
    requires AboutPenalty(metric, narrative, p) && Discloses(records, a)
    ensures var r := Resolve(metric, claimed, narrative, claimCurrency, records, e);
      var c := claimed.GetOr(0.0);
      && (r.Some? ==> r.value.value == a.value && r.value.metric == p)
      && (r.Some? <==>
            && (forall b :: Discloses(records, b) ==> b.value == a.value && b.currency == a.currency)
            && (claimCurrency == a.currency || c == 0.0 || TenfoldApart(if c < 0.0 then -c else c, a.value)))
  {
    var found := PenaltyAmounts(records);
    forall b ensures b in found <==> Discloses(records, b) {
      AmountsAreDisclosed(records, b);
    }
    assert a in found && found[0] in found;
    var c := Abs(claimed.GetOr(0.0));
    RatioIsDistance(c, found[0].value);
    FarApartIsTenfold(c, found[0].value);
  }

  /** With nothing disclosed by a trusted passage such a claim has no observation, whatever else was retrieved. */
  lemma UndisclosedPenalty(records: seq<ToolRecord>, metric: Option<Metric>, narrative: Option<Metric>, p: Metric,
                           claimed: Option<real>, claimCurrency: string, e: Expected)
    requires AboutPenalty(metric, narrative, p) && forall b :: !Discloses(records, b)
    ensures Resolve(metric, claimed, narrative, claimCurrency, records, e) == None
  {
    var found := PenaltyAmounts(records);
    if found != [] {
      AmountsAreDisclosed(records, found[0]);
    }
  }

  /** A factor of ten or more apart, magnitudes under a billionth counting as a billionth. */
  predicate FarApart(x: real, y: real) {
    Max(x, y) >= FX_SAFE_MAGNITUDE_RATIO * Max(Min(x, y), 0.000000001)
  }

  lemma FarApartIsTenfold(x: real, y: real)
    requires x >= 0.0
    ensures FarApart(x, y) <==> TenfoldApart(x, y)
  {
  }

  lemma RatioIsDistance(x: real, y: real)
    ensures Max(x, y) / Max(Min(x, y), 0.000000001) < FX_SAFE_MAGNITUDE_RATIO <==> !FarApart(x, y)
  {
    QuotientBelow(Max(x, y), Max(Min(x, y), 0.000000001), FX_SAFE_MAGNITUDE_RATIO);
  }

  lemma QuotientBelow(n: real, d: real, t: real)
    requires d > 0.0
    ensures n / d < t <==> n < t * d
  {
    var q := n / d;
    assert q * d == n;
    if q < t {
      assert q * d < t * d;
    } else {
      assert q * d >= t * d;
    }
  }
}

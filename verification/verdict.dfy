/**
 Comparing a claim with the one trusted observation, and what becomes of the verdict
 (src/finvet/agents/base.py and _adjust_confidence in src/finvet/graph/workflow.py).
 Floats are reals; the claim, the tolerance and the observation are therefore compared exactly.
 */
module Verdicts {
  import opened Wrappers
  import opened Evidence

  datatype Verdict = Supports | Refutes | NotEnoughInfo

  datatype Operator = Eq | Gt | Gte | Lt | Lte | Approx | Range

  /** A parsed claim as the comparator reads it; a missing claim names no value. */
  datatype Claim = Claim(value: Option<real>, operator: Option<Operator>)
  {
    function Op(): Operator {
      operator.GetOr(Eq)
    }
  }

  datatype Agent = Sec | MarketAgent | News

  const SEC_LARGE_VALUE_THRESHOLD := 1000000000.0
  const TOLERANCE_SEC_LARGE_VALUES := 1.5
  const TOLERANCE_SEC_SMALL_VALUES := 2.0
  const TOLERANCE_MARKET := 5.0
  const TOLERANCE_NEWS := 5.0
  const TOLERANCE_APPROX_MULTIPLIER := 2.0
  const HITL_THRESHOLD := 0.70

  /** The tolerance, in percent, of the claimed (not the retrieved) magnitude. */
  function ToleranceFor(claimed: real, agent: Agent): (t: real)
    ensures 0.0 < t <= 5.0
  {
    if agent == MarketAgent then TOLERANCE_MARKET
    else if agent == News then TOLERANCE_NEWS
    else if Abs(claimed) >= SEC_LARGE_VALUE_THRESHOLD then TOLERANCE_SEC_LARGE_VALUES
    else TOLERANCE_SEC_SMALL_VALUES
  }

  function WidenedTolerance(op: Operator, claimed: real, agent: Agent): (t: real)
    ensures 0.0 < t <= 10.0
  {
    if op == Approx then ToleranceFor(claimed, agent) * TOLERANCE_APPROX_MULTIPLIER else ToleranceFor(claimed, agent)
  }

  function MagnitudeDiff(claimed: real, retrieved: real): real {
    var divisor := Max(Abs(claimed), Abs(retrieved));
    if divisor > 0.0 then Abs(claimed - retrieved) / divisor * 100.0 else 0.0
  }

  datatype Comparison = Comparison(verdict: Verdict, confidence: real, diff: Option<real>)

  /** compare_observation. */
  function Compare(claim: Claim, retrieved: Option<real>, agent: Agent): Comparison {
    if claim.value == None || retrieved == None then Comparison(NotEnoughInfo, 0.5, None)
    else
      var c, v := claim.value.value, retrieved.value;
      var diff := MagnitudeDiff(c, v);
      var tolerance := WidenedTolerance(claim.Op(), c, agent);
      match claim.Op()
      case Eq | Approx =>
        if diff <= tolerance then Comparison(Supports, if diff < tolerance / 2.0 then 0.90 else 0.85, Some(diff))
        else Comparison(Refutes, 0.90, Some(diff))
      case Gt => Comparison(if v > c then Supports else Refutes, 0.90, Some(diff))
      case Gte => Comparison(if v >= c then Supports else Refutes, 0.90, Some(diff))
      case Lt => Comparison(if v < c then Supports else Refutes, 0.90, Some(diff))
      case Lte => Comparison(if v <= c then Supports else Refutes, 0.90, Some(diff))
      case Range => Comparison(NotEnoughInfo, 0.5, Some(diff))
  }

  // ----- what a comparison means -----

  /** Of one sign, and the smaller magnitude at least (1 - t/100) of the larger. */
  predicate CloseWithin(a: real, b: real, t: real) {
    a * b >= 0.0 && Min(Abs(a), Abs(b)) >= (1.0 - t / 100.0) * Max(Abs(a), Abs(b))
  }

  predicate Interpretable(op: Operator) {
    op != Range
  }

  /** The value v bears out the claim "op c". */
  predicate Satisfies(op: Operator, c: real, v: real, agent: Agent)
    requires Interpretable(op)
  {
    match op
    case Eq => CloseWithin(c, v, ToleranceFor(c, agent))
    case Approx => CloseWithin(c, v, 2.0 * ToleranceFor(c, agent))
    case Gt => v > c
    case Gte => v >= c
    case Lt => v < c
    case Lte => v <= c
  }

  lemma ScaledQuotient(x: real, d: real, t: real)
    requires d > 0.0
    ensures x / d * 100.0 <= t <==> 100.0 * x <= t * d
  {
    var q := x / d;
    assert q * d == x;
    if q * 100.0 <= t {
      assert q * 100.0 * d <= t * d;
    } else {
      assert q * 100.0 * d > t * d;
    }
  }

  lemma SignOfProduct(a: real, b: real)
    ensures a * b >= 0.0 <==> (a >= 0.0 && b >= 0.0) || (a <= 0.0 && b <= 0.0)
  {
  }

  lemma DistanceOfMagnitudes(a: real, b: real)
    ensures a * b >= 0.0 ==> Abs(a - b) == Max(Abs(a), Abs(b)) - Min(Abs(a), Abs(b))
    ensures a * b < 0.0 ==> Abs(a - b) > Max(Abs(a), Abs(b)) > 0.0
  {
    SignOfProduct(a, b);
  }

  lemma PercentOfLarger(low: real, d: real, t: real)
    ensures low >= (1.0 - t / 100.0) * d <==> 100.0 * (d - low) <= t * d
  {
    var p := t / 100.0;
    assert t == 100.0 * p;
    assert (1.0 - p) * d == d - p * d;
    assert t * d == 100.0 * (p * d);
  }

  lemma LessThanWhole(d: real, t: real)
    requires d > 0.0 && t < 100.0
    ensures t * d < 100.0 * d
  {
  }

  lemma ClosenessCore(x: real, d: real, low: real, t: real, sameSign: bool)
    requires d > 0.0 && t < 100.0
    requires if sameSign then x == d - low else x > d
    ensures x / d * 100.0 <= t <==> sameSign && low >= (1.0 - t / 100.0) * d
  {
    PercentOfLarger(low, d, t);
    ScaledQuotient(x, d, t);
    LessThanWhole(d, t);
  }

  lemma CloseToLarger(a: real, b: real, t: real, d: real)
    requires 0.0 <= t < 100.0 && d == Max(Abs(a), Abs(b)) && d > 0.0
    ensures Abs(a - b) / d * 100.0 <= t <==> CloseWithin(a, b, t)
  {
    DistanceOfMagnitudes(a, b);
    ClosenessCore(Abs(a - b), d, Min(Abs(a), Abs(b)), t, a * b >= 0.0);
  }

  /** Being within t percent is being of one sign and close in magnitude. */
  lemma DiffIsCloseness(a: real, b: real, t: real)
    requires 0.0 <= t < 100.0
    ensures MagnitudeDiff(a, b) <= t <==> CloseWithin(a, b, t)
  {
    var d := Max(Abs(a), Abs(b));
    if d > 0.0 {
      CloseToLarger(a, b, t, d);
    } else {
      assert a == 0.0 && b == 0.0;
      ZeroIsClose(t);
    }
  }

  lemma ZeroIsClose(t: real)
    requires 0.0 <= t
    ensures MagnitudeDiff(0.0, 0.0) <= t && CloseWithin(0.0, 0.0, t)
  {
  }

  /** The comparator decides exactly the claims it can interpret, and by what they mean. */
  lemma CompareMeaning(claim: Claim, retrieved: Option<real>, agent: Agent)
    ensures var r := Compare(claim, retrieved, agent).verdict;
      && (r == NotEnoughInfo <==> claim.value == None || retrieved == None || !Interpretable(claim.Op()))
      && (r == Supports <==> claim.value.Some? && retrieved.Some? && Interpretable(claim.Op())
                             && Satisfies(claim.Op(), claim.value.value, retrieved.value, agent))
  {
    if claim.value.Some? && retrieved.Some? {
      DiffIsCloseness(claim.value.value, retrieved.value, WidenedTolerance(claim.Op(), claim.value.value, agent));
    }
  }

  /** The share of the larger magnitude that the smaller must reach. */
  ghost predicate Share(share: real, op: Option<Operator>, claimed: real, agent: Agent) {
    var large := claimed >= 1000000000.0 || claimed <= -1000000000.0;
    if op == Some(Approx) then share == if agent != Sec then 0.90 else if large then 0.97 else 0.96
    else share == if agent != Sec then 0.95 else if large then 0.985 else 0.98
  }

  /** An equality or approximation is supported by a value of its sign if neither is under that share of the other. */
  lemma SupportInNumbers(claimed: real, v: real, op: Option<Operator>, agent: Agent, share: real)
    requires op == None || op == Some(Eq) || op == Some(Approx)
    requires Share(share, op, claimed, agent)
    ensures Compare(Claim(Some(claimed), op), Some(v), agent).verdict == Supports <==>
      || (claimed >= 0.0 && v >= 0.0 && v >= share * claimed && claimed >= share * v)
      || (claimed <= 0.0 && v <= 0.0 && v <= share * claimed && claimed <= share * v)
  {
    var claim := Claim(Some(claimed), op);
    CompareMeaning(claim, Some(v), agent);
    var t := WidenedTolerance(claim.Op(), claimed, agent);
    assert 1.0 - t / 100.0 == share;
    CloseInNumbers(claimed, v, t, share);
  }

  lemma CloseInNumbers(a: real, b: real, t: real, share: real)
    requires 0.0 < share < 1.0 && share == 1.0 - t / 100.0
    ensures CloseWithin(a, b, t) <==>
      || (a >= 0.0 && b >= 0.0 && b >= share * a && a >= share * b)
      || (a <= 0.0 && b <= 0.0 && b <= share * a && a <= share * b)
  {
    SignOfProduct(a, b);
    if a >= 0.0 && b >= 0.0 {
      CloseMagnitudes(a, b, share);
    } else if a <= 0.0 && b <= 0.0 {
      CloseMagnitudes(-a, -b, share);
      assert share * -a == -(share * a) && share * -b == -(share * b);
    }
  }

  lemma CloseMagnitudes(x: real, y: real, share: real)
    requires x >= 0.0 && y >= 0.0 && 0.0 < share < 1.0
    ensures Min(x, y) >= share * Max(x, y) <==> y >= share * x && x >= share * y
  {
    ShareOfItself(x, share);
    ShareOfItself(y, share);
  }

  lemma ShareOfItself(x: real, share: real)
    requires 0.0 < share < 1.0
    ensures x >= 0.0 ==> x >= share * x
    ensures x <= 0.0 ==> x <= share * x
  {
  }

  /** The comparator is 0.90 sure but for an equality that holds by no less than half the tolerance. */
  lemma CompareConfidence(claimed: real, v: real, op: Operator, agent: Agent, share: real)
    requires Share(share, Some(op), claimed, agent)
    ensures var r := Compare(Claim(Some(claimed), Some(op)), Some(v), agent);
      && (op == Range <==> r.confidence == 0.5)
      && (r.confidence == 0.5 || r.confidence == 0.85 || r.confidence == 0.90)
      && r.diff == Some(MagnitudeDiff(claimed, v))
      && (r.confidence == 0.85 <==>
            (op == Eq || op == Approx) && r.verdict == Supports && MagnitudeDiff(claimed, v) >= 50.0 * (1.0 - share))
  {
    HalfTolerance(claimed, op, agent, share);
    HideDiff(claimed, v, op, agent, MagnitudeDiff(claimed, v), WidenedTolerance(op, claimed, agent));
  }

  lemma HideDiff(claimed: real, v: real, op: Operator, agent: Agent, diff: real, t: real)
    requires diff == MagnitudeDiff(claimed, v) && t == WidenedTolerance(op, claimed, agent)
    ensures var r := Compare(Claim(Some(claimed), Some(op)), Some(v), agent);
      && (op == Range <==> r.confidence == 0.5)
      && (r.confidence == 0.5 || r.confidence == 0.85 || r.confidence == 0.90)
      && r.diff == Some(diff)
      && (r.confidence == 0.85 <==> (op == Eq || op == Approx) && r.verdict == Supports && diff >= t / 2.0)
  {
  }

  lemma HalfTolerance(claimed: real, op: Operator, agent: Agent, share: real)
    requires Share(share, Some(op), claimed, agent)
    ensures WidenedTolerance(op, claimed, agent) / 2.0 == 50.0 * (1.0 - share)
  {
  }

  /** The difference is a percentage of the larger magnitude, and nothing of zero. */
  lemma DiffInNumbers(a: real, b: real)
    ensures MagnitudeDiff(a, b) >= 0.0
    ensures MagnitudeDiff(a, b) * Max(Abs(a), Abs(b)) == 100.0 * Abs(a - b)
    ensures a == b ==> MagnitudeDiff(a, b) == 0.0
  {
    var d := Max(Abs(a), Abs(b));
    if d > 0.0 {
      var q := Abs(a - b) / d;
      assert q * d == Abs(a - b);
      assert q * 100.0 * d == 100.0 * (q * d);
      assert q >= 0.0;
    }
  }

  // ----- restated figures -----

  /** superseded_value_match: the first restated figure the claim holds against, from position k on. */
  function SupersededMatch(claim: Claim, earlier: seq<real>, agent: Agent): Option<real> {
    if earlier == [] then None
    else if Compare(claim, Some(earlier[0]), agent).verdict == Supports then Some(earlier[0])
    else SupersededMatch(claim, earlier[1..], agent)
  }

  method SupersededValueMatch(claim: Claim, o: Option<Observation>, agent: Agent) returns (r: Option<real>)
    ensures r == if o == None then None else SupersededMatch(claim, o.value.superseded, agent)
  {
    if o == None {
      return None;
    }
    var earlier := o.value.superseded;
    for k := 0 to |earlier|
      invariant SupersededMatch(claim, earlier, agent) == SupersededMatch(claim, earlier[k..], agent)
    {
      if Compare(claim, Some(earlier[k]), agent).verdict == Supports {
        return Some(earlier[k]);
      }
      assert earlier[k..][1..] == earlier[k + 1..];
    }
    r := None;
  }

  lemma {:induction false} SupersededMatchMeaning(claim: Claim, earlier: seq<real>, agent: Agent)
    ensures SupersededMatch(claim, earlier, agent) == None <==>
      forall v :: v in earlier ==> Compare(claim, Some(v), agent).verdict != Supports
  {
    if earlier != [] {
      assert earlier == [earlier[0]] + earlier[1..];
      SupersededMatchMeaning(claim, earlier[1..], agent);
    }
  }

  /** What it finds is the first restated figure the claim holds against. */
  lemma {:induction false} SupersededMatchIsFirst(claim: Claim, earlier: seq<real>, agent: Agent) returns (k: nat)
    requires SupersededMatch(claim, earlier, agent).Some?
    ensures k < |earlier| && SupersededMatch(claim, earlier, agent) == Some(earlier[k])
    ensures Compare(claim, Some(earlier[k]), agent).verdict == Supports
    ensures forall j :: 0 <= j < k ==> Compare(claim, Some(earlier[j]), agent).verdict != Supports
  {
    if Compare(claim, Some(earlier[0]), agent).verdict == Supports {
      k := 0;
    } else {
      k := SupersededMatchIsFirst(claim, earlier[1..], agent);
      k := k + 1;
    }
  }

  // ----- the model's verdict, overruled -----

  datatype Limitation =
    | MatchesSupersededValue
    | EvidenceGap(gap: Gap)
    | NonCorroboration        // non_corroboration_is_not_contradiction
    | AmountNotCertifiable

  /** qualitative_decline_reason. */
  function DeclineReason(claimed: Option<real>, verdict: Verdict, gap: Option<Gap>): Option<Limitation> {
    if claimed.Some? then None
    else if gap.Some? && verdict != NotEnoughInfo then Some(EvidenceGap(gap.value))
    else if verdict == Refutes then Some(NonCorroboration)
    else None
  }

  function SettleConfidence(prior: Verdict, new_: Verdict, priorConfidence: real, comparator: real): real {
    if new_ != prior then comparator else Max(priorConfidence, comparator)
  }

  /** A model's answer, written over by the comparison. */
  class VerdictOutput {
    const verdict: Verdict
    const confidence: real
    var retrievedValue: Option<real>

    constructor (verdict: Verdict, confidence: real, retrievedValue: Option<real>)
      ensures this.verdict == verdict && this.confidence == confidence && this.retrievedValue == retrievedValue
    {
      this.verdict, this.confidence, this.retrievedValue := verdict, confidence, retrievedValue;
    }
  }

  function ValueOf(o: Option<Observation>): Option<real> {
    if o.Some? then Some(o.value.value) else None
  }

  /** What _apply_override must return, stated through Compare. */
  function Overridden(model: Verdict, confidence: real, claim: Claim, o: Option<Observation>, gap: Option<Gap>, agent: Agent)
    : Comparison
  {
    if claim.value.Some? then
      var r := Compare(claim, ValueOf(o), agent);
      if r.verdict == NotEnoughInfo then r.(confidence := Min(confidence, 0.5))
      else r.(confidence := SettleConfidence(model, r.verdict, confidence, r.confidence))
    else if DeclineReason(claim.value, model, gap).Some? then Comparison(NotEnoughInfo, Min(confidence, 0.5), None)
    else Comparison(model, confidence, None)
  }

  /**
   _apply_override, which writes the branching of compare_observation out a second time. It returns
   what compare_observation would decide, and shows the value that was compared.
   */
  method ApplyOverride(out: VerdictOutput, claim: Claim, o: Option<Observation>, gap: Option<Gap>, agent: Agent)
    returns (r: Comparison)
    modifies out
    ensures r == Overridden(out.verdict, out.confidence, claim, o, gap, agent)
    ensures out.retrievedValue ==
      if claim.value == None && DeclineReason(claim.value, out.verdict, gap).Some? then old(out.retrievedValue)
      else ValueOf(o)
  {
    var verdict, confidence := out.verdict, out.confidence;
    if claim.value.Some? && o == None {
      out.retrievedValue := None;
      return Comparison(NotEnoughInfo, Min(confidence, 0.5), None);
    }
    var decline := DeclineReason(claim.value, verdict, gap);
    if decline.Some? {
      return Comparison(NotEnoughInfo, Min(confidence, 0.5), None);
    }
    var retrieved := ValueOf(o);
    out.retrievedValue := retrieved;
    var diff: Option<real> := None;
    if claim.value.Some? && retrieved.Some? {
      var claimed, actual := claim.value.value, retrieved.value;
      var divisor := Max(Abs(claimed), Abs(actual));
      var magnitude := if divisor > 0.0 then Abs(claimed - actual) / divisor * 100.0 else 0.0;
      diff := Some(magnitude);
      var comparison, tolerance := claim.Op(), ToleranceFor(claimed, agent);
      if comparison == Approx {
        tolerance := tolerance * TOLERANCE_APPROX_MULTIPLIER;
        comparison := Eq;
      }
      if comparison == Eq {
        if magnitude <= tolerance {
          confidence := SettleConfidence(verdict, Supports, confidence, if magnitude < tolerance / 2.0 then 0.90 else 0.85);
          verdict := Supports;
        } else {
          confidence := SettleConfidence(verdict, Refutes, confidence, 0.90);
          verdict := Refutes;
        }
      } else if comparison == Gt || comparison == Gte {
        var passes := (comparison == Gt && actual > claimed) || (comparison == Gte && actual >= claimed);
        var newVerdict := if passes then Supports else Refutes;
        confidence := SettleConfidence(verdict, newVerdict, confidence, 0.90);
        verdict := newVerdict;
      } else if comparison == Lt || comparison == Lte {
        var passes := (comparison == Lt && actual < claimed) || (comparison == Lte && actual <= claimed);
        var newVerdict := if passes then Supports else Refutes;
        confidence := SettleConfidence(verdict, newVerdict, confidence, 0.90);
        verdict := newVerdict;
      } else {
        verdict := NotEnoughInfo;
        confidence := Min(confidence, 0.5);
      }
    }
    r := Comparison(verdict, confidence, diff);
  }

  /**
   The model's confidence has no say in the answer's exactly when the comparison is decisive and
   contradicts the model.
   */
  lemma OverruledConfidence(model: Verdict, claim: Claim, o: Option<Observation>, gap: Option<Gap>, agent: Agent)
    requires claim.value.Some?
    ensures
      (forall x, y :: 0.0 <= x <= 1.0 && 0.0 <= y <= 1.0 ==>
         Overridden(model, x, claim, o, gap, agent).confidence == Overridden(model, y, claim, o, gap, agent).confidence)
      <==>
      (var r := Compare(claim, ValueOf(o), agent).verdict; r != NotEnoughInfo && r != model)
  {
    var r := Compare(claim, ValueOf(o), agent);
    if r.verdict == NotEnoughInfo || r.verdict == model {
      assert r.confidence < 1.0;
      assert Overridden(model, 0.0, claim, o, gap, agent).confidence != Overridden(model, 1.0, claim, o, gap, agent).confidence;
    }
  }

  // ----- the decision part of execute -----

  /** What verdict extraction produced: a model's answer, or an exception. */
  datatype Extraction = Answered(verdict: Verdict, confidence: real) | ExtractionFailed

  datatype Decision = Decision(verdict: Verdict, confidence: real, diff: Option<real>,
                               limitation: Option<Limitation>, failed: bool)

  /** An unresolved named period drops the observation. */
  function UsableObservation(o: Option<Observation>, namesPeriod: bool, periodResolved: bool): Option<Observation> {
    if namesPeriod && !periodResolved then None else o
  }

  function Matched(claim: Claim, o: Option<Observation>, agent: Agent): Option<real> {
    if o == None then None else SupersededMatch(claim, o.value.superseded, agent)
  }

  /**
   What execute returns once tools have run. raised: the override threw; narrative: the claim's
   strategy reads prose, so a missing figure can never be certified.
   */
  function Decide(x: Extraction, raised: bool, narrative: bool, claim: Claim, o: Option<Observation>, gap: Option<Gap>,
                  agent: Agent): Decision
  {
    match x
    case ExtractionFailed =>
      var r := Compare(claim, ValueOf(o), agent);
      if r.verdict == Refutes && Matched(claim, o, agent).Some?
      then Decision(NotEnoughInfo, Min(r.confidence, 0.5), r.diff, Some(MatchesSupersededValue), false)
      else if r.verdict != NotEnoughInfo then Decision(r.verdict, r.confidence, r.diff, None, false)
      else Decision(NotEnoughInfo, 0.2, None, None, true)
    case Answered(model, confidence) =>
      var reason := DeclineReason(claim.value, model, gap);
      var other := if reason.Some? then reason
                   else if o == None && claim.value.Some? && narrative then Some(AmountNotCertifiable) else None;
      if raised then Decision(NotEnoughInfo, Min(confidence, HITL_THRESHOLD), None, other, true)
      else
        var r := Overridden(model, confidence, claim, o, gap, agent);
        if r.verdict == Refutes && Matched(claim, o, agent).Some?
        then Decision(NotEnoughInfo, Min(r.confidence, 0.5), r.diff, Some(MatchesSupersededValue), false)
        else Decision(r.verdict, r.confidence, r.diff, other, false)
  }

  method Execute(out: VerdictOutput?, raised: bool, narrative: bool, claim: Claim, resolved: Option<Observation>,
                 namesPeriod: bool, periodResolved: bool, gap: Option<Gap>, agent: Agent)
    returns (d: Decision)
    modifies if out == null then {} else {out}
    ensures d == Decide(if out == null then ExtractionFailed else Answered(out.verdict, out.confidence),
                        raised, narrative, claim, UsableObservation(resolved, namesPeriod, periodResolved), gap, agent)
  {
    var o := resolved;
    if namesPeriod && !periodResolved {
      o := None;
    }
    if out == null {
      var fallback := Compare(claim, ValueOf(o), agent);
      if fallback.verdict == Refutes {
        var earlier := SupersededValueMatch(claim, o, agent);
        if earlier.Some? {
          return Decision(NotEnoughInfo, Min(fallback.confidence, 0.5), fallback.diff, Some(MatchesSupersededValue), false);
        }
      }
      if fallback.verdict != NotEnoughInfo {
        return Decision(fallback.verdict, fallback.confidence, fallback.diff, None, false);
      }
      return Decision(NotEnoughInfo, 0.2, None, None, true);
    }
    var verdict, confidence, diff := NotEnoughInfo, Min(out.confidence, HITL_THRESHOLD), None;
    if !raised {
      var r := ApplyOverride(out, claim, o, gap, agent);
      verdict, confidence, diff := r.verdict, r.confidence, r.diff;
    }
    var superseded: Option<Limitation> := None;
    if verdict == Refutes && !raised {
      var earlier := SupersededValueMatch(claim, o, agent);
      if earlier.Some? {
        verdict, confidence, superseded := NotEnoughInfo, Min(confidence, 0.5), Some(MatchesSupersededValue);
      }
    }
    var reason := DeclineReason(claim.value, out.verdict, gap);
    var qualitative := if reason.Some? then reason
                       else if o == None && claim.value.Some? && narrative then Some(AmountNotCertifiable) else None;
    d := Decision(verdict, confidence, diff, if superseded.Some? then superseded else qualitative, raised);
  }

  /**
   For a claim naming a value the verdict is one function of claim and observation, whatever the
   model said, however sure it was, whatever the evidence gap, and also when extraction failed.
   */
  lemma VerdictIgnoresModel(x: Extraction, y: Extraction, n: bool, n': bool, claim: Claim, o: Option<Observation>,
                            gap: Option<Gap>, gap': Option<Gap>, agent: Agent)
    requires claim.value.Some?
    ensures Decide(x, false, n, claim, o, gap, agent).verdict == Decide(y, false, n', claim, o, gap', agent).verdict
  {
  }

  /** A decisive verdict is never the model's own: it is what the claim means against the observation. */
  lemma DecisiveMeansCompared(x: Extraction, raised: bool, n: bool, claim: Claim, o: Option<Observation>,
                              gap: Option<Gap>, agent: Agent)
    requires claim.value.Some?
    ensures var v := Decide(x, raised, n, claim, o, gap, agent).verdict;
      && (v == Supports ==> o.Some? && Interpretable(claim.Op()) && Satisfies(claim.Op(), claim.value.value, o.value.value, agent))
      && (v == Refutes ==> o.Some? && Interpretable(claim.Op()) && !Satisfies(claim.Op(), claim.value.value, o.value.value, agent)
                           && forall e :: e in o.value.superseded ==> !Satisfies(claim.Op(), claim.value.value, e, agent))
  {
    CompareMeaning(claim, ValueOf(o), agent);
    if o.Some? && Interpretable(claim.Op()) {
      RestatedSatisfies(claim, o.value.superseded, agent);
    }
  }

  lemma RestatedSatisfies(claim: Claim, earlier: seq<real>, agent: Agent)
    requires claim.value.Some? && Interpretable(claim.Op())
    ensures SupersededMatch(claim, earlier, agent).Some? <==>
      exists e :: e in earlier && Satisfies(claim.Op(), claim.value.value, e, agent)
  {
    SupersededMatchMeaning(claim, earlier, agent);
    forall e ensures Compare(claim, Some(e), agent).verdict == Supports <==> Satisfies(claim.Op(), claim.value.value, e, agent) {
      CompareMeaning(claim, Some(e), agent);
    }
  }

  /**
   All that is decided about a claim naming a value when the override does not raise: the verdict, the
   limitation stated, and whether the run failed.
   */
  lemma NumericDecision(x: Extraction, n: bool, claim: Claim, o: Option<Observation>, gap: Option<Gap>, agent: Agent)
    requires claim.value.Some?
    ensures var d := Decide(x, false, n, claim, o, gap, agent);
      var comparable := o.Some? && Interpretable(claim.Op());
      var holds := comparable && Satisfies(claim.Op(), claim.value.value, o.value.value, agent);
      var held := comparable && exists e :: e in o.value.superseded && Satisfies(claim.Op(), claim.value.value, e, agent);
      && (d.verdict == Supports <==> holds)
      && (d.verdict == Refutes <==> comparable && !holds && !held)
      && (d.limitation == Some(MatchesSupersededValue) <==> comparable && !holds && held)
      && (d.limitation == Some(AmountNotCertifiable) <==> o == None && n && x.Answered?)
      && (d.limitation.Some? ==> d.limitation.value == MatchesSupersededValue || d.limitation.value == AmountNotCertifiable)
      && (d.failed <==> x == ExtractionFailed && !comparable)
  {
    CompareMeaning(claim, ValueOf(o), agent);
    if o.Some? && Interpretable(claim.Op()) {
      RestatedSatisfies(claim, o.value.superseded, agent);
    }
  }

  /**
   A claim naming no value is never refuted. It is supported exactly when the model answers so, something
   was retrieved to rest that on, and nothing raised; otherwise it is declined, with what is missing if a
   decisive answer rested on nothing, and as non-corroboration if the model refuted it.
   */
  lemma ValuelessDecision(x: Extraction, raised: bool, n: bool, op: Option<Operator>, o: Option<Observation>,
                          gap: Option<Gap>, agent: Agent)
    ensures var d := Decide(x, raised, n, Claim(None, op), o, gap, agent);
      && d.verdict != Refutes && d.diff == None
      && (d.verdict == Supports <==> x.Answered? && x.verdict == Supports && gap == None && !raised)
      && (forall g :: d.limitation == Some(EvidenceGap(g)) <==> gap == Some(g) && x.Answered? && x.verdict != NotEnoughInfo)
      && (d.limitation == Some(NonCorroboration) <==> gap == None && x.Answered? && x.verdict == Refutes)
      && (d.limitation.Some? ==> d.limitation.value.EvidenceGap? || d.limitation.value == NonCorroboration)
      && (d.failed <==> x == ExtractionFailed || raised)
  {
  }

  /** And it keeps the model's confidence only when it was not declined for a reason. */
  lemma ValuelessConfidence(x: Extraction, raised: bool, n: bool, op: Option<Operator>, o: Option<Observation>,
                            gap: Option<Gap>, agent: Agent)
    ensures var d := Decide(x, raised, n, Claim(None, op), o, gap, agent);
      && (x == ExtractionFailed ==> d.confidence == 0.2)
      && (x.Answered? && raised ==> d.confidence <= 0.70 && (d.confidence == x.confidence || x.confidence > d.confidence == 0.70))
      && (x.Answered? && !raised && d.limitation.Some? ==>
            d.confidence <= 0.5 && (d.confidence == x.confidence || x.confidence > d.confidence == 0.5))
      && (x.Answered? && !raised && d.limitation == None ==> d.confidence == x.confidence)
  {
  }

  /** A numeric claim whose named period could not be resolved is never decided, whatever was observed. */
  lemma UnresolvedPeriodIsDeclined(x: Extraction, raised: bool, n: bool, claim: Claim, o: Option<Observation>,
                                   gap: Option<Gap>, agent: Agent)
    requires claim.value.Some?
    ensures Decide(x, raised, n, claim, UsableObservation(o, true, false), gap, agent).verdict == NotEnoughInfo
    ensures forall named, resolved :: !named || resolved ==> UsableObservation(o, named, resolved) == o
  {
  }

  // ----- confidence -----

  const CONFIDENCE_LARGE_DIFF_PCT := 20.0
  const CONFIDENCE_CLOSE_MATCH_PCT := 2.0
  const CONFIDENCE_LARGE_DIFF_PENALTY := -0.1
  const CONFIDENCE_CLOSE_MATCH_BONUS := 0.05
  const CONFIDENCE_THOROUGH_BONUS := 0.05
  const CONFIDENCE_THOROUGH_TOOL_COUNT := 3
  const CONFIDENCE_AUTOMATED_CAP := 0.95

  datatype Adjustment = LargeDifference | CloseMatch | Thorough

  function MagnitudeAdjustment(op: Operator, diff: Option<real>): real {
    if diff == None || op != Eq then 0.0
    else if diff.value > CONFIDENCE_LARGE_DIFF_PCT then CONFIDENCE_LARGE_DIFF_PENALTY
    else if diff.value < CONFIDENCE_CLOSE_MATCH_PCT then CONFIDENCE_CLOSE_MATCH_BONUS
    else 0.0
  }

  function Clamp(x: real): real {
    Max(0.0, Min(CONFIDENCE_AUTOMATED_CAP, x))
  }

  function Adjusted(confidence: real, op: Operator, diff: Option<real>, tools: nat): real {
    Clamp(confidence + MagnitudeAdjustment(op, diff)
          + if tools >= CONFIDENCE_THOROUGH_TOOL_COUNT then CONFIDENCE_THOROUGH_BONUS else 0.0)
  }

  /** _adjust_confidence on an agent's decision, or on none. */
  method AdjustConfidence(d: Option<Decision>, op: Operator, tools: nat)
    returns (verdict: Verdict, confidence: real, adjustments: seq<Adjustment>)
    ensures verdict == if d.Some? then d.value.verdict else NotEnoughInfo
    ensures confidence == if d.Some? then Adjusted(d.value.confidence, op, d.value.diff, tools) else 0.2
    ensures LargeDifference in adjustments <==> d.Some? && op == Eq && d.value.diff.Some? && d.value.diff.value > 20.0
    ensures CloseMatch in adjustments <==> d.Some? && op == Eq && d.value.diff.Some? && d.value.diff.value < 2.0
    ensures Thorough in adjustments <==> d.Some? && tools >= 3
    ensures d.Some? ==>
      var sum := d.value.confidence - (if LargeDifference in adjustments then 0.1 else 0.0)
        + (if CloseMatch in adjustments then 0.05 else 0.0) + (if Thorough in adjustments then 0.05 else 0.0);
      confidence == if sum <= 0.0 then 0.0 else if sum >= 0.95 then 0.95 else sum
  {
    adjustments := [];
    if d == None {
      return NotEnoughInfo, 0.2, adjustments;
    }
    verdict, confidence := d.value.verdict, d.value.confidence;
    if d.value.diff.Some? && op == Eq {
      if d.value.diff.value > CONFIDENCE_LARGE_DIFF_PCT {
        confidence := confidence + CONFIDENCE_LARGE_DIFF_PENALTY;
        adjustments := adjustments + [LargeDifference];
      } else if d.value.diff.value < CONFIDENCE_CLOSE_MATCH_PCT {
        confidence := confidence + CONFIDENCE_CLOSE_MATCH_BONUS;
        adjustments := adjustments + [CloseMatch];
      }
    }
    if tools >= CONFIDENCE_THOROUGH_TOOL_COUNT {
      confidence := confidence + CONFIDENCE_THOROUGH_BONUS;
      adjustments := adjustments + [Thorough];
    }
    confidence := Clamp(confidence);
  }

  /** A supported equality or approximation never meets the large-difference penalty. */
  lemma SupportIsNeverPenalised(x: Extraction, n: bool, claim: Claim, o: Option<Observation>, gap: Option<Gap>, agent: Agent)
    requires claim.value.Some? && Decide(x, false, n, claim, o, gap, agent).verdict == Supports
    ensures var d := Decide(x, false, n, claim, o, gap, agent);
      MagnitudeAdjustment(claim.Op(), d.diff) >= 0.0
  {
  }

  /**
   After the confidence adjuster, a numeric claim stands at or above the review threshold exactly when
   it was decided, and then between 0.80 and 0.95.
   */
  lemma DecidedIffConfident(x: Extraction, n: bool, claim: Claim, o: Option<Observation>, gap: Option<Gap>, agent: Agent,
                            tools: nat)
    requires claim.value.Some? && (x.Answered? ==> 0.0 <= x.confidence <= 1.0)
    ensures var d := Decide(x, false, n, claim, o, gap, agent);
      var c := Adjusted(d.confidence, claim.Op(), d.diff, tools);
      && (d.verdict != NotEnoughInfo <==> c >= HITL_THRESHOLD)
      && (d.verdict != NotEnoughInfo ==> 0.80 <= c <= 0.95)
      && (d.verdict == NotEnoughInfo ==> c <= 0.60)
  {
    var d := Decide(x, false, n, claim, o, gap, agent);
    var r := Compare(claim, ValueOf(o), agent);
    assert r.verdict != NotEnoughInfo ==> 0.85 <= r.confidence <= 0.90;
    assert d.verdict != NotEnoughInfo ==> d.verdict == r.verdict && 0.85 <= d.confidence <= 1.0 && d.diff == r.diff;
    assert d.verdict == Supports && claim.Op() == Eq ==> d.diff.value <= 5.0;
    assert d.verdict == Refutes ==> 0.90 <= d.confidence;
    assert d.verdict == NotEnoughInfo ==> d.confidence <= 0.5;
  }

  /** output_guardrails, check 1: low confidence with no stated limitation asks for a person. */
  predicate LowConfidenceReview(d: Decision, op: Operator, tools: nat) {
    Adjusted(d.confidence, op, d.diff, tools) < HITL_THRESHOLD && d.limitation == None
  }

  /** Without a raised override, a numeric claim asks for a person exactly when it is declined without a reason. */
  lemma ReviewIffUnexplained(x: Extraction, n: bool, claim: Claim, o: Option<Observation>, gap: Option<Gap>, agent: Agent,
                             tools: nat)
    requires claim.value.Some? && (x.Answered? ==> 0.0 <= x.confidence <= 1.0)
    ensures var d := Decide(x, false, n, claim, o, gap, agent);
      LowConfidenceReview(d, claim.Op(), tools) <==> d.verdict == NotEnoughInfo && d.limitation == None
  {
    DecidedIffConfident(x, n, claim, o, gap, agent, tools);
  }

  /**
   Were the override to raise, whatever the model said, the verdict would be declined with its confidence
   capped at the threshold rather than below it: the claim would escape review exactly when a reason for
   declining is stated anyway or the model was sure enough.
   */
  lemma RaisedOverrideReview(model: Verdict, confidence: real, n: bool, claim: Claim, o: Option<Observation>, gap: Option<Gap>,
                             agent: Agent, tools: nat)
    requires claim.value.Some? && 0.0 <= confidence <= 1.0
    ensures var d := Decide(Answered(model, confidence), true, n, claim, o, gap, agent);
      && d.verdict == NotEnoughInfo && d.failed
      && (d.limitation == None <==> o.Some? || !n)
      && (LowConfidenceReview(d, claim.Op(), tools) <==>
            (o.Some? || !n) && confidence < if tools >= CONFIDENCE_THOROUGH_TOOL_COUNT then 0.65 else 0.70)
  {
  }
}

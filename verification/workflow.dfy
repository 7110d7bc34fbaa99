/**
 The verification graph: who decides the released verdict, and when a person must
 (src/finvet/graph/workflow.py, with the outcomes of src/finvet/graph/nodes/output_guardrails.py and
 src/finvet/graph/nodes/response_generator.py).
 */
module Workflow {
  import opened Wrappers
  import opened Verdicts
  import opened Evidence
  import AuditStore
  import AuditRecords

  datatype ClaimType = SecClaim | MarketClaim | NewsClaim | RejectClaim

  datatype Node =
    | InputGuardrails | ClaimParser | PeriodResolver | SecAgent | MarketNode | NewsAgent | RejectHandler
    | ConfidenceAdjuster | OutputGuardrails | HitlGate | ApplyHitlDecision | ResponseGenerator | End

  datatype HumanDecision = Approve | Override(verdict: Verdict) | Reject

  datatype Answer = Verdict(verdict: Verdict) | RejectedAnswer | PendingAnswer | ErrorAnswer

  datatype Response = Response(answer: Answer, confidence: real)

  datatype State = State(
    parsed: Option<ClaimType>, evidence: Option<Decision>, answer: Option<Answer>, confidence: real,
    required: bool, gatePassed: bool, decision: Option<HumanDecision>, rejected: bool, response: Option<Response>)

  /** What the parser, the agent and the guards answer. */
  datatype World = World(parsed: Option<ClaimType>, evidence: Option<Decision>, op: Operator, tools: nat,
                         unsafe_: bool, contradicted: bool)

  const START := State(None, None, None, 0.0, false, false, None, false, None)

  function RouteAfterParsing(s: State): Node {
    match s.parsed
    case None => RejectHandler
    case Some(SecClaim) => PeriodResolver
    case Some(MarketClaim) => MarketNode
    case Some(NewsClaim) => NewsAgent
    case Some(RejectClaim) => RejectHandler
  }

  function Carried(w: World, s: State): State {
    if s.evidence == None then s.(answer := Some(Verdict(NotEnoughInfo)), confidence := 0.2)
    else
      s.(answer := Some(Verdict(s.evidence.value.verdict)),
         confidence := Adjusted(s.evidence.value.confidence, w.op, s.evidence.value.diff, w.tools))
  }

  /** output_guardrails: doubt without a stated reason, an unsafe text, or a primary source that disagrees. */
  predicate NeedsHuman(w: World, s: State) {
    s.answer.Some? &&
    ((s.confidence < HITL_THRESHOLD && !(s.evidence.Some? && s.evidence.value.limitation.Some?))
     || w.unsafe_ || w.contradicted)
  }

  function Apply(s: State): State {
    match s.decision
    case None => s
    case Some(Approve) => s
    case Some(Override(v)) => s.(answer := Some(Verdict(v)), confidence := 0.95)
    case Some(Reject) => s.(answer := Some(RejectedAnswer), confidence := 1.0, rejected := true)
  }

  function Respond(s: State): Response {
    if s.required && s.decision == None then Response(PendingAnswer, 0.0)
    else if s.rejected || s.parsed == Some(RejectClaim) then Response(RejectedAnswer, 1.0)
    else if s.evidence == None then Response(ErrorAnswer, 0.0)
    else Response(s.answer.GetOr(Verdict(s.evidence.value.verdict)), s.confidence)
  }

  function Step(w: World, node: Node, s: State): (Node, State) {
    match node
    case InputGuardrails => (ClaimParser, s)
    case ClaimParser => var s' := s.(parsed := w.parsed); (RouteAfterParsing(s'), s')
    case PeriodResolver => (SecAgent, s)
    case SecAgent => (ConfidenceAdjuster, s.(evidence := w.evidence))
    case MarketNode => (ConfidenceAdjuster, s.(evidence := w.evidence))
    case NewsAgent => (ConfidenceAdjuster, s.(evidence := w.evidence))
    case RejectHandler => (ResponseGenerator, s.(answer := Some(RejectedAnswer), confidence := 1.0, rejected := true))
    case ConfidenceAdjuster => (OutputGuardrails, Carried(w, s))
    case OutputGuardrails => var s' := s.(required := NeedsHuman(w, s)); (if s'.required then HitlGate else ResponseGenerator, s')
    case HitlGate => (ApplyHitlDecision, s.(gatePassed := true))
    case ApplyHitlDecision => (ResponseGenerator, Apply(s))
    case ResponseGenerator => (End, s.(response := Some(Respond(s))))
    case End => (End, s)
  }

  /** The graph has no cycles: every edge goes down. */
  function Height(node: Node): nat {
    match node
    case InputGuardrails => 9
    case ClaimParser => 8
    case PeriodResolver => 7
    case SecAgent => 6
    case MarketNode => 6
    case NewsAgent => 6
    case RejectHandler => 5
    case ConfidenceAdjuster => 5
    case OutputGuardrails => 4
    case HitlGate => 3
    case ApplyHitlDecision => 2
    case ResponseGenerator => 1
    case End => 0
  }

  /** Invoking the graph from a node; with a checkpointer it stops before hitl_gate. */
  function Invoke(w: World, node: Node, s: State, stops: bool): (Node, State)
    decreases Height(node)
  {
    if node == End || (node == HitlGate && stops) then (node, s)
    else
      var (next, s') := Step(w, node, s);
      Invoke(w, next, s', stops)
  }

  predicate GoesToAgent(w: World) {
    w.parsed.Some? && w.parsed.value != RejectClaim
  }

  /** The state the agents, the adjuster and the guards leave. */
  function Checked(w: World): State {
    var s := Carried(w, START.(parsed := w.parsed, evidence := w.evidence));
    s.(required := NeedsHuman(w, s))
  }

  predicate Flagged(w: World) {
    GoesToAgent(w) && Checked(w).required
  }

  /**
   A claim is flagged exactly when an agent answered it and its text is unsafe, a primary source contradicts
   it, there is no evidence, or the adjusted confidence is under 0.70 with no limitation to explain it.
   */
  lemma FlaggedIff(w: World)
    ensures Flagged(w) <==>
      && (w.parsed == Some(SecClaim) || w.parsed == Some(MarketClaim) || w.parsed == Some(NewsClaim))
      && (w.unsafe_ || w.contradicted || w.evidence == None
          || (w.evidence.value.limitation == None
              && Adjusted(w.evidence.value.confidence, w.op, w.evidence.value.diff, w.tools) < 0.70))
  {
  }

  /** The nodes a run passes. */
  function Visited(w: World, node: Node, s: State, stops: bool): seq<Node>
    decreases Height(node)
  {
    if node == End || (node == HitlGate && stops) then [node]
    else
      var (next, s') := Step(w, node, s);
      [node] + Visited(w, next, s', stops)
  }

  /** The way of a claim that an agent answered: past the gate only if it is flagged and nothing stops it there. */
  function FromAgent(w: World, stops: bool): seq<Node> {
    [ConfidenceAdjuster, OutputGuardrails] + AfterGuards(w, stops)
  }

  function AfterGuards(w: World, stops: bool): seq<Node> {
    if !Flagged(w) then [ResponseGenerator, End]
    else if stops then [HitlGate]
    else [HitlGate, ApplyHitlDecision, ResponseGenerator, End]
  }

  lemma VisitedFromResponse(w: World, s: State, stops: bool)
    ensures Visited(w, ResponseGenerator, s, stops) == [ResponseGenerator, End]
  {
    assert Visited(w, End, s.(response := Some(Respond(s))), stops) == [End];
  }

  lemma VisitedFromGate(w: World, s: State, stops: bool)
    ensures Visited(w, HitlGate, s, stops) == if stops then [HitlGate] else [HitlGate, ApplyHitlDecision, ResponseGenerator, End]
  {
    if !stops {
      var t := s.(gatePassed := true);
      VisitedFromResponse(w, Apply(t), stops);
      assert Visited(w, ApplyHitlDecision, t, stops) == [ApplyHitlDecision] + [ResponseGenerator, End];
      assert Visited(w, HitlGate, s, stops) == [HitlGate] + [ApplyHitlDecision, ResponseGenerator, End];
    }
  }

  lemma VisitedFromAdjuster(w: World, stops: bool)
    requires GoesToAgent(w)
    ensures Visited(w, ConfidenceAdjuster, START.(parsed := w.parsed, evidence := w.evidence), stops) == FromAgent(w, stops)
  {
    var s := START.(parsed := w.parsed, evidence := w.evidence);
    VisitedFromGuards(w, Carried(w, s), stops);
    assert Visited(w, ConfidenceAdjuster, s, stops) == [ConfidenceAdjuster] + Visited(w, OutputGuardrails, Carried(w, s), stops);
    TwoNodes(ConfidenceAdjuster, OutputGuardrails, AfterGuards(w, stops));
  }

  lemma VisitedFromGuards(w: World, s: State, stops: bool)
    requires GoesToAgent(w) && Checked(w) == s.(required := NeedsHuman(w, s))
    ensures Visited(w, OutputGuardrails, s, stops) == [OutputGuardrails] + AfterGuards(w, stops)
  {
    VisitedFromResponse(w, Checked(w), stops);
    VisitedFromGate(w, Checked(w), stops);
  }

  lemma TwoNodes(a: Node, b: Node, rest: seq<Node>)
    ensures [a] + ([b] + rest) == [a, b] + rest
  {
  }

  /** The nodes between the parser and the adjuster. */
  function ToAdjuster(parsed: Option<ClaimType>): seq<Node> {
    match parsed
    case Some(SecClaim) => [PeriodResolver, SecAgent]
    case Some(MarketClaim) => [MarketNode]
    case Some(NewsClaim) => [NewsAgent]
    case _ => [RejectHandler]
  }

  lemma VisitedFromAgent(w: World, s: State, stops: bool)
    requires Visited(w, ConfidenceAdjuster, s.(evidence := w.evidence), stops) == FromAgent(w, stops)
    ensures Visited(w, MarketNode, s, stops) == [MarketNode] + FromAgent(w, stops)
    ensures Visited(w, NewsAgent, s, stops) == [NewsAgent] + FromAgent(w, stops)
    ensures Visited(w, PeriodResolver, s, stops) == [PeriodResolver, SecAgent] + FromAgent(w, stops)
  {
    assert Visited(w, SecAgent, s, stops) == [SecAgent] + FromAgent(w, stops);
    TwoNodes(PeriodResolver, SecAgent, FromAgent(w, stops));
  }

  lemma VisitedFromParser(w: World, stops: bool)
    ensures var s := START.(parsed := w.parsed);
      Visited(w, RouteAfterParsing(s), s, stops) ==
      ToAdjuster(w.parsed) + if GoesToAgent(w) then FromAgent(w, stops) else [ResponseGenerator, End]
  {
    var s := START.(parsed := w.parsed);
    if GoesToAgent(w) {
      VisitedFromAdjuster(w, stops);
      VisitedFromAgent(w, s, stops);
    } else {
      VisitedFromResponse(w, Refused(w), stops);
    }
  }

  /** Each kind of claim takes its own way through the graph; a refused or unparsed one meets no agent. */
  lemma RouteTaken(w: World, stops: bool)
    ensures Visited(w, InputGuardrails, START, stops) ==
      [InputGuardrails, ClaimParser] + (ToAdjuster(w.parsed) + if GoesToAgent(w) then FromAgent(w, stops) else [ResponseGenerator, End])
  {
    var s := START.(parsed := w.parsed);
    VisitedFromParser(w, stops);
    var rest := Visited(w, RouteAfterParsing(s), s, stops);
    assert Visited(w, ClaimParser, START, stops) == [ClaimParser] + rest;
    assert Visited(w, InputGuardrails, START, stops) == [InputGuardrails] + Visited(w, ClaimParser, START, stops);
    TwoNodes(InputGuardrails, ClaimParser, rest);
  }

  lemma AgentReachesGuards(w: World, node: Node, s: State, stops: bool)
    requires node == PeriodResolver || node == MarketNode || node == NewsAgent
    ensures Invoke(w, node, s, stops) == Invoke(w, OutputGuardrails, Carried(w, s.(evidence := w.evidence)), stops)
  {
    var e := s.(evidence := w.evidence);
    assert Invoke(w, ConfidenceAdjuster, e, stops) == Invoke(w, OutputGuardrails, Carried(w, e), stops);
    assert Invoke(w, SecAgent, s, stops) == Invoke(w, ConfidenceAdjuster, e, stops);
  }

  lemma ReachesGuards(w: World, stops: bool)
    ensures var s := START.(parsed := w.parsed);
      Invoke(w, InputGuardrails, START, stops) ==
      if GoesToAgent(w) then Invoke(w, OutputGuardrails, Carried(w, s.(evidence := w.evidence)), stops)
      else Invoke(w, RejectHandler, s, stops)
  {
    var s := START.(parsed := w.parsed);
    assert Invoke(w, ClaimParser, START, stops) == Invoke(w, RouteAfterParsing(s), s, stops);
    assert Invoke(w, InputGuardrails, START, stops) == Invoke(w, ClaimParser, START, stops);
    if GoesToAgent(w) {
      AgentReachesGuards(w, RouteAfterParsing(s), s, stops);
    }
  }

  lemma UnflaggedEnds(w: World, stops: bool)
    requires GoesToAgent(w) && !Flagged(w)
    ensures Invoke(w, InputGuardrails, START, stops) == (End, Checked(w).(response := Some(Respond(Checked(w)))))
  {
    ReachesGuards(w, stops);
    assert Invoke(w, OutputGuardrails, Carried(w, START.(parsed := w.parsed, evidence := w.evidence)), stops)
        == Invoke(w, ResponseGenerator, Checked(w), stops);
    ResponseEnds(w, Checked(w), stops);
  }

  /** The state reject_handler leaves. */
  function Refused(w: World): State {
    START.(parsed := w.parsed, answer := Some(RejectedAnswer), confidence := 1.0, rejected := true)
  }

  lemma RefusedEnds(w: World, stops: bool)
    requires !GoesToAgent(w)
    ensures Invoke(w, InputGuardrails, START, stops) == (End, Refused(w).(response := Some(Response(RejectedAnswer, 1.0))))
  {
    ReachesGuards(w, stops);
    assert Invoke(w, RejectHandler, START.(parsed := w.parsed), stops) == Invoke(w, ResponseGenerator, Refused(w), stops);
    ResponseEnds(w, Refused(w), stops);
  }

  lemma ResponseEnds(w: World, s: State, stops: bool)
    ensures Invoke(w, ResponseGenerator, s, stops) == (End, s.(response := Some(Respond(s))))
  {
  }

  /**
   With a checkpointer the graph pauses before the gate exactly on flagged claims; any other claim is
   answered with the agent's verdict at its adjusted confidence, or refused by the parser.
   */
  lemma PausesExactlyOnFlagged(w: World)
    ensures var (node, s) := Invoke(w, InputGuardrails, START, true);
      && (Flagged(w) ==> node == HitlGate && s == Checked(w) && s.response == None && !s.gatePassed)
      && (!Flagged(w) ==> node == End && s.response == Some(
            if !GoesToAgent(w) then Response(RejectedAnswer, 1.0)
            else Response(Verdict(w.evidence.value.verdict), Adjusted(w.evidence.value.confidence, w.op, w.evidence.value.diff, w.tools))))
  {
    if Flagged(w) {
      ReachesGuards(w, true);
    } else if GoesToAgent(w) {
      UnflaggedEnds(w, true);
    } else {
      RefusedEnds(w, true);
    }
  }

  /**
   Resuming a paused run answers what the person decided: approval releases the agent's verdict as it
   was, an override the person's at 0.95, a rejection no verdict. Without evidence only a rejection
   takes effect; approval and override end as an error.
   */
  lemma ResumeFollowsDecision(w: World, d: HumanDecision)
    requires Flagged(w)
    ensures var (node, s) := Invoke(w, HitlGate, Checked(w).(decision := Some(d)), false);
      && node == End && s.gatePassed && (d == Reject ==> s.answer == Some(RejectedAnswer) && s.confidence == 1.0)
      && s.response == Some(
           match d
           case Reject => Response(RejectedAnswer, 1.0)
           case Approve => if w.evidence == None then Response(ErrorAnswer, 0.0)
                           else Response(Verdict(w.evidence.value.verdict), Checked(w).confidence)
           case Override(v) => if w.evidence == None then Response(ErrorAnswer, 0.0) else Response(Verdict(v), 0.95))
  {
    var s := Checked(w).(decision := Some(d));
    var s' := Apply(s.(gatePassed := true));
    assert Invoke(w, HitlGate, s, false) == Invoke(w, ApplyHitlDecision, s.(gatePassed := true), false);
    assert Invoke(w, ApplyHitlDecision, s.(gatePassed := true), false) == Invoke(w, ResponseGenerator, s', false);
    ResponseEnds(w, s', false);
  }

  /** A claim the parser refused is answered so from any state that does not wait for a person, also one saved without a disposition. */
  lemma RefusedFromAnyState(s: State)
    requires s.parsed == Some(RejectClaim) && !(s.required && s.decision == None)
    ensures Respond(s) == Response(RejectedAnswer, 1.0)
  {
  }

  /** Without a checkpointer nothing pauses, but a flagged verdict is withheld all the same. */
  lemma WithheldWithoutCheckpointer(w: World)
    requires Flagged(w)
    ensures var (node, s) := Invoke(w, InputGuardrails, START, false);
      node == End && s.gatePassed && s.response == Some(Response(PendingAnswer, 0.0))
  {
    ReachesGuards(w, false);
    var s := Checked(w);
    assert Invoke(w, OutputGuardrails, Carried(w, START.(parsed := w.parsed, evidence := w.evidence)), false)
        == Invoke(w, HitlGate, s, false);
    assert Invoke(w, HitlGate, s, false) == Invoke(w, ApplyHitlDecision, s.(gatePassed := true), false);
    assert Invoke(w, ApplyHitlDecision, s.(gatePassed := true), false) == Invoke(w, ResponseGenerator, s.(gatePassed := true), false);
    ResponseEnds(w, s.(gatePassed := true), false);
  }

  /** However the graph is compiled, a run no person decided releases a verdict exactly when it is not flagged. */
  lemma UndecidedVerdictsAreUnflagged(w: World, stops: bool)
    requires GoesToAgent(w)
    ensures var s := Invoke(w, InputGuardrails, START, stops).1;
      (s.response.Some? && s.response.value.answer.Verdict?) <==> !Flagged(w)
  {
    if Flagged(w) {
      if stops { PausesExactlyOnFlagged(w); } else { WithheldWithoutCheckpointer(w); }
    } else {
      UnflaggedEnds(w, stops);
    }
  }

  /**
   A numeric claim whose verdict is released with no person involved was either decided, by comparison
   with a trusted observation, or declined for a stated reason.
   */
  lemma UnreviewedNumericVerdict(w: World, x: Extraction, n: bool, claim: Claim, o: Option<Observation>, gap: Option<Gap>, agent: Agent)
    requires GoesToAgent(w) && !Flagged(w) && claim.value.Some? && (x.Answered? ==> 0.0 <= x.confidence <= 1.0) && w.op == claim.Op()
    requires w.evidence == Some(Decide(x, false, n, claim, o, gap, agent))
    ensures var response := Invoke(w, InputGuardrails, START, true).1.response;
      && response.Some? && response.value.answer == Verdict(w.evidence.value.verdict)
      && (w.evidence.value.verdict == NotEnoughInfo ==> w.evidence.value.limitation.Some?)
      && (w.evidence.value.verdict != NotEnoughInfo ==>
            && 0.80 <= response.value.confidence <= 0.95
            && o.Some? && Interpretable(claim.Op())
            && (w.evidence.value.verdict == Supports <==> Satisfies(claim.Op(), claim.value.value, o.value.value, agent)))
  {
    PausesExactlyOnFlagged(w);
    ReviewIffUnexplained(x, n, claim, o, gap, agent, w.tools);
    DecidedIffConfident(x, n, claim, o, gap, agent, w.tools);
    DecisiveMeansCompared(x, false, n, claim, o, gap, agent);
  }

  /** What the finalizer reads of a finished invocation: of the body, only whether it is a refusal. */
  function StatusOf(s: State): AuditRecords.TerminalStatus {
    AuditStore.DeriveTerminalStatus(
      AuditStore.RunState(s.required, s.gatePassed, []),
      if s.response == None then None
      else Some(AuditStore.Response(s.response.value.answer == RejectedAnswer, AuditRecords.Final(None),
                                    AuditStore.Integrity.Float(s.response.value.confidence), AuditStore.Integrity.Null, AuditStore.Integrity.Null)))
  }

  /**
   The status recorded for an undecided run is pending_review exactly for flagged claims when there is a
   checkpointer; without one the gate counts as passed and a withheld verdict is recorded as a success.
   */
  lemma StatusOfUndecided(w: World, stops: bool)
    ensures var status := StatusOf(Invoke(w, InputGuardrails, START, stops).1);
      && (status == AuditRecords.PendingReview <==> Flagged(w) && stops)
      && (status == AuditRecords.Rejected <==> w.parsed == None || w.parsed == Some(RejectClaim))
      && (status == AuditRecords.PendingReview || status == AuditRecords.Rejected || status == AuditRecords.Success)
      && (Flagged(w) && !stops ==> status == AuditRecords.Success)
  {
    if Flagged(w) {
      if stops { PausesExactlyOnFlagged(w); } else { WithheldWithoutCheckpointer(w); }
    } else if GoesToAgent(w) {
      UnflaggedEnds(w, stops);
    } else {
      RefusedEnds(w, stops);
    }
  }

  /** An SEC claim whose agent could not answer, and gave no reason for declining. */
  const UNANSWERED := World(Some(SecClaim), Some(Decision(NotEnoughInfo, 0.2, None, None, true)), Eq, 0, false, false)

  /**
   Such a claim is flagged; a person's override decides it, and without a checkpointer its withheld verdict
   is recorded as a success.
   */
  lemma UnansweredClaim(v: Verdict)
    ensures Flagged(UNANSWERED)
    ensures Invoke(UNANSWERED, HitlGate, Checked(UNANSWERED).(decision := Some(Override(v))), false).1.response
         == Some(Response(Verdict(v), 0.95))
    ensures Invoke(UNANSWERED, InputGuardrails, START, false).1.response == Some(Response(PendingAnswer, 0.0))
    ensures StatusOf(Invoke(UNANSWERED, InputGuardrails, START, false).1) == AuditRecords.Success
  {
    ResumeFollowsDecision(UNANSWERED, Override(v));
    WithheldWithoutCheckpointer(UNANSWERED);
    StatusOfUndecided(UNANSWERED, false);
  }
}

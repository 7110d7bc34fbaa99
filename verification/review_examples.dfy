/**
 Plays from the empty system that show how a review can go wrong (src/finvet/api/routes/review.py,
 src/finvet/audit/database.py): the failing inputs that go with the conditions in ReviewProtocol,
 AuditTrail and AuditRecords. Each ends with the program's own digest, for every hash.
 */
module ReviewExamples {
  import opened Wrappers
  import opened Integrity
  import opened AuditRecords
  import opened AuditTrail
  import opened Checksums
  import opened ReviewProtocol

  const EMPTY := System(Log(map[], map[], map[], map[]), map[], map[])

  /** Envelopes of representable values have a digest. */
  ghost predicate Defined(digest: Digest) {
    forall e: Envelope :: Hashable(e) ==> digest(e).Some?
  }

  lemma ChecksumIsDefined(hash: Hash)
    ensures Defined(ChecksumOf(hash))
  {
    forall e: Envelope | Hashable(e) ensures ChecksumOf(hash)(e).Some? {
      ChecksumDefined(e, hash);
    }
  }

  /** Playing on. */
  lemma Then(s: System, moves: seq<Move>, m: Move, digest: Digest)
    ensures Play(s, moves + [m], digest) == After(Play(s, moves, digest), m, digest)
    ensures Plays(s, moves + [m], digest) <==> Plays(s, moves, digest) && Permitted(Play(s, moves, digest), m)
  {
    assert (moves + [m])[..|moves|] == moves;
  }

  // ----- a paused run -----

  function PausedReport(claim: string): Report {
    Report(claim, Pending, Float(0.0), [], Null, Null, Some(PendingReview))
  }

  function Submission(r: string, claim: string, llmConfig: Value): Move {
    Store(Commit(r, PausedReport(claim), llmConfig, true))
  }

  /** What is buffered, and what was ever logged; nothing of it was written. */
  datatype Trail = Trail(buffers: map<string, seq<Event>>, issued: map<string, Event>)

  const NONE := Trail(map[], map[])

  function Waiting(e: Event): Trail {
    Trail(map[e.requestId := [e]], map[e.id := e])
  }

  function Forgotten(e: Event): Trail {
    Trail(map[], map[e.id := e])
  }

  /** A system of one row and an empty event table. */
  function With(b: Trail, r: string, row: Row, clients: map<nat, Client>, entered: map<string, ReviewDecision>): System {
    System(Log(b.buffers, map[], map[r := row], b.issued), clients, entered)
  }

  function PausedRow(r: string, claim: string, llmConfig: Value, digest: Digest): Row
    requires digest(BuildEnvelope(r, PausedReport(claim), [], llmConfig)).Some?
  {
    NewRow(r, PausedReport(claim), [], llmConfig, digest)
  }

  lemma Submitted(r: string, claim: string, llmConfig: Value, digest: Digest)
    requires Defined(digest) && Representable(llmConfig)
    ensures digest(BuildEnvelope(r, PausedReport(claim), [], llmConfig)).Some?
    ensures var m := Submission(r, claim, llmConfig);
      && Permitted(EMPTY, m) && After(EMPTY, m, digest) == With(NONE, r, PausedRow(r, claim, llmConfig, digest), map[], map[])
  {
    var e := BuildEnvelope(r, PausedReport(claim), [], llmConfig);
    assert Hashable(e);
    assert Inserted(map[], []) == Some(map[]);
    var s' := After(EMPTY, Submission(r, claim, llmConfig), digest);
    assert s'.log.buffers == map[] && s'.log.table == map[];
  }

  lemma Taken(b: Trail, r: string, row: Row, c: nat, decision: ReviewDecision, digest: Digest)
    requires row.verdict == Pending
    ensures var s, m := With(b, r, row, map[], map[]), TakePending(c, r, decision, true);
      Permitted(s, m) && After(s, m, digest) == With(b, r, row.(verdict := Reviewing), map[c := Holding(r, decision)], map[])
  {
  }

  lemma Entered(b: Trail, r: string, row: Row, c: nat, decision: ReviewDecision, digest: Digest)
    ensures var s, m := With(b, r, row, map[c := Holding(r, decision)], map[]), Enter(c);
      Permitted(s, m) && After(s, m, digest) == With(b, r, row, map[c := InGraph(r, decision)], map[r := decision])
  {
  }

  /** Submitted, claimed and entered. */
  function UntilEntered(r: string, claim: string, llmConfig: Value, decision: ReviewDecision): seq<Move> {
    [Submission(r, claim, llmConfig), TakePending(0, r, decision, true), Enter(0)]
  }

  lemma PlayedUntilEntered(r: string, claim: string, llmConfig: Value, decision: ReviewDecision, digest: Digest)
    requires Defined(digest) && Representable(llmConfig)
    ensures digest(BuildEnvelope(r, PausedReport(claim), [], llmConfig)).Some?
    ensures var moves := UntilEntered(r, claim, llmConfig, decision);
      && Plays(EMPTY, moves, digest)
      && Play(EMPTY, moves, digest) ==
           With(NONE, r, PausedRow(r, claim, llmConfig, digest).(verdict := Reviewing), map[0 := InGraph(r, decision)], map[r := decision])
  {
    Submitted(r, claim, llmConfig, digest);
    var row := PausedRow(r, claim, llmConfig, digest);
    var m1, m2, m3 := Submission(r, claim, llmConfig), TakePending(0, r, decision, true), Enter(0);
    OneMove(EMPTY, m1, digest);
    Taken(NONE, r, row, 0, decision, digest);
    Then(EMPTY, [m1], m2, digest);
    Entered(NONE, r, row.(verdict := Reviewing), 0, decision, digest);
    Then(EMPTY, [m1, m2], m3, digest);
    assert [m1] + [m2] == [m1, m2] && [m1, m2] + [m3] == [m1, m2, m3];
  }

  // ----- stranded -----

  /** A reviewer's process dies after its claim: the row is stranded. */
  lemma CrashStrands(r: string, claim: string, hash: Hash) returns (moves: seq<Move>)
    ensures Plays(EMPTY, moves, ChecksumOf(hash)) && Stranded(Play(EMPTY, moves, ChecksumOf(hash)), r)
  {
    ChecksumIsDefined(hash);
    moves := CrashStrandsIn(r, claim, ChecksumOf(hash));
  }

  lemma CrashStrandsIn(r: string, claim: string, digest: Digest) returns (moves: seq<Move>)
    requires Defined(digest)
    ensures Plays(EMPTY, moves, digest) && Stranded(Play(EMPTY, moves, digest), r)
  {
    moves := UntilEntered(r, claim, Null, Approve) + [Crash(0)];
    PlayedUntilEntered(r, claim, Null, Approve, digest);
    Then(EMPTY, UntilEntered(r, claim, Null, Approve), Crash(0), digest);
  }

  // ----- a rejection recorded as an approval -----

  const FAILURE := Recovery("audit_persistence_failed", "", Reject, None, true)

  /** What the checkpoint holds, with the decision the reconciler took for recorded. */
  function Outcome(decision: ReviewDecision): Reviewed {
    Reviewed("NOT_ENOUGH_INFO", Float(0.5), Null, None, [], decision, None)
  }

  /**
   A reviewer rejects, the outcome cannot be written, and a reconciler whose read of the row fails once
   records an approval.
   */
  lemma UnreadRejectionIsApproved(r: string, claim: string, hash: Hash) returns (moves: seq<Move>)
    ensures Plays(EMPTY, moves, ChecksumOf(hash))
    ensures var s := Play(EMPTY, moves, ChecksumOf(hash));
      IsReviewed(s, r) && DecisionOf(s, r) == Approve && r in s.entered && s.entered[r] == Reject
  {
    ChecksumIsDefined(hash);
    moves := UnreadRejectionIsApprovedIn(r, claim, ChecksumOf(hash));
  }

  lemma UnreadRejectionIsApprovedIn(r: string, claim: string, digest: Digest) returns (moves: seq<Move>)
    requires Defined(digest)
    ensures Plays(EMPTY, moves, digest)
    ensures var s := Play(EMPTY, moves, digest);
      IsReviewed(s, r) && DecisionOf(s, r) == Approve && r in s.entered && s.entered[r] == Reject
  {
    var front, m := UntilEntered(r, claim, Null, Reject), Complete(1, Outcome(Approve), false, true);
    PlayedUntilEntered(r, claim, Null, Reject, digest);
    var row := PausedRow(r, claim, Null, digest).(verdict := Reviewing);
    Retried(NONE, r, row, front, digest);
    var marked := MarkedRow(row, FAILURE, digest);
    Completed(NONE, r, marked.(verdict := Reviewing), 1, Reconciling(r), Outcome(Approve), false, map[r := Reject], digest);
    Then(EMPTY, Retry(front, r), m, digest);
    moves := Retry(front, r) + [m];
  }

  /** Marked for reconciliation, and claimed for it by another handler. */
  function Retry(front: seq<Move>, r: string): seq<Move> {
    front + [MarkFailed(0, FAILURE, true)] + [TakeFailed(1, r, true)]
  }

  lemma Retried(b: Trail, r: string, row: Row, front: seq<Move>, digest: Digest)
    requires Defined(digest) && Plays(EMPTY, front, digest) && row.verdict == Reviewing && Hashable(row.fullTrace)
    requires Play(EMPTY, front, digest) == With(b, r, row, map[0 := InGraph(r, Reject)], map[r := Reject])
    ensures digest(MarkedEnvelope(row.fullTrace, FAILURE)).Some? && Plays(EMPTY, Retry(front, r), digest)
    ensures Play(EMPTY, Retry(front, r), digest)
      == With(b, r, MarkedRow(row, FAILURE, digest).(verdict := Reviewing), map[1 := Reconciling(r)], map[r := Reject])
  {
    Marked(b, r, row, FAILURE, digest);
    Then(EMPTY, front, MarkFailed(0, FAILURE, true), digest);
    Retaken(b, r, MarkedRow(row, FAILURE, digest), map[r := Reject], digest);
    Then(EMPTY, front + [MarkFailed(0, FAILURE, true)], TakeFailed(1, r, true), digest);
  }

  lemma Marked(b: Trail, r: string, row: Row, recovery: Recovery, digest: Digest)
    requires Defined(digest) && row.verdict == Reviewing && Hashable(row.fullTrace)
    ensures digest(MarkedEnvelope(row.fullTrace, recovery)).Some?
    ensures var s, m := With(b, r, row, map[0 := InGraph(r, recovery.decision)], map[r := recovery.decision]), MarkFailed(0, recovery, true);
      && Permitted(s, m)
      && After(s, m, digest) == With(b, r, MarkedRow(row, recovery, digest), map[], map[r := recovery.decision])
  {
    assert Hashable(MarkedEnvelope(row.fullTrace, recovery));
    var s, m := With(b, r, row, map[0 := InGraph(r, recovery.decision)], map[r := recovery.decision]), MarkFailed(0, recovery, true);
    assert After(s, m, digest).clients == map[];
  }

  lemma Retaken(b: Trail, r: string, row: Row, entered: map<string, ReviewDecision>, digest: Digest)
    requires row.verdict == FinalizationFailed
    ensures var s, m := With(b, r, row, map[], entered), TakeFailed(1, r, true);
      Permitted(s, m) && After(s, m, digest) == With(b, r, row.(verdict := Reviewing), map[1 := Reconciling(r)], entered)
  {
  }

  lemma Completed(b: Trail, r: string, row: Row, c: nat, client: Client, x: Reviewed, readable: bool,
                  entered: map<string, ReviewDecision>, digest: Digest)
    requires Defined(digest) && row.verdict == Reviewing && client.id == r && !client.Holding?
    requires x.events == [] && Representable(x.confidence) && Representable(x.finalResponse) && x.dataSources == None
    requires x.decision == if client.InGraph? then client.decision else ReadDecision(row, readable)
    ensures digest(FinalizedEnvelope(row, x)).Some?
    ensures var s, m := With(b, r, row, map[c := client], entered), Complete(c, x, readable, true);
      Permitted(s, m) && After(s, m, digest) == With(b, r, FinalizedRow(row, x, digest), map[], entered)
  {
    assert FinalizedEnvelope(row, x).events == [];
    assert Hashable(FinalizedEnvelope(row, x));
    assert Inserted(map[], x.events) == Some(map[]);
    var s, m := With(b, r, row, map[c := client], entered), Complete(c, x, readable, true);
    assert After(s, m, digest).clients == map[];
  }

  // ----- drift of the model configuration -----

  /** A paused run that recorded its models drifts on them as soon as it is approved. */
  lemma ApprovalDropsModels(r: string, claim: string, model: string, hash: Hash) returns (moves: seq<Move>)
    ensures Plays(EMPTY, moves, ChecksumOf(hash))
    ensures var rows := Play(EMPTY, moves, ChecksumOf(hash)).log.rows;
      r in rows && LlmConfigField in Drift(rows[r], [])
  {
    ChecksumIsDefined(hash);
    moves := ApprovalDropsModelsIn(r, claim, model, ChecksumOf(hash));
  }

  lemma ApprovalDropsModelsIn(r: string, claim: string, model: string, digest: Digest) returns (moves: seq<Move>)
    requires Defined(digest)
    ensures Plays(EMPTY, moves, digest)
    ensures var rows := Play(EMPTY, moves, digest).log.rows;
      r in rows && LlmConfigField in Drift(rows[r], [])
  {
    var front, m := UntilEntered(r, claim, Str(model), Approve), Complete(0, Outcome(Approve), true, true);
    PlayedUntilEntered(r, claim, Str(model), Approve, digest);
    var row := PausedRow(r, claim, Str(model), digest).(verdict := Reviewing);
    Completed(NONE, r, row, 0, InGraph(r, Approve), Outcome(Approve), true, map[r := Approve], digest);
    Then(EMPTY, front, m, digest);
    moves := front + [m];
    assert Canonical(Str(model)) == Some(CStr(model)) && Canonical(Null) == Some(CNull);
  }

  // ----- a lost event -----

  /**
   An event logged while a review is finishing has its immediate write fail; the review fails too, and so
   does the reconcile, which discards the buffer. The next attempt no longer lists the event.
   */
  lemma FailedReconcileLosesEvent(e: Event, claim: string, hash: Hash) returns (moves: seq<Move>, n: nat)
    requires e.id != ""
    ensures n <= |moves| && Plays(EMPTY, moves, ChecksumOf(hash))
    ensures Known(Play(EMPTY, moves[..n], ChecksumOf(hash)).log, e)
    ensures var log := Play(EMPTY, moves, ChecksumOf(hash)).log;
      && e.requestId in log.rows && log.rows[e.requestId].verdict == FinalizationFailed
      && Lists([], log.table, e.requestId) && e !in ForFinalization(Buffered(log, e.requestId), [])
  {
    ChecksumIsDefined(hash);
    moves, n := FailedReconcileLosesEventIn(e, claim, ChecksumOf(hash));
  }

  lemma FailedReconcileLosesEventIn(e: Event, claim: string, digest: Digest) returns (moves: seq<Move>, n: nat)
    requires Defined(digest) && e.id != ""
    ensures n <= |moves| && Plays(EMPTY, moves, digest) && Known(Play(EMPTY, moves[..n], digest).log, e)
    ensures var log := Play(EMPTY, moves, digest).log;
      && e.requestId in log.rows && log.rows[e.requestId].verdict == FinalizationFailed
      && Lists([], log.table, e.requestId) && e !in ForFinalization(Buffered(log, e.requestId), [])
  {
    var r, front := e.requestId, UntilBuffered(e, claim);
    PlayedUntilBuffered(e, claim, digest);
    FailedReconcile(e, front, ReviewingRow(r, claim, digest), digest);
    DoomedFrom(front, r);
    moves, n := Doomed(front, r), |front|;
  }

  /** From there: the review cannot be written, nor can the reconcile. */
  function Doomed(front: seq<Move>, r: string): seq<Move> {
    Retry(front, r) + [PutBack(1, true)] + [Store(Discard(r))]
  }

  lemma DoomedFrom(front: seq<Move>, r: string)
    ensures |front| <= |Doomed(front, r)| && Doomed(front, r)[..|front|] == front
  {
  }

  lemma FailedReconcile(e: Event, front: seq<Move>, row: Row, digest: Digest)
    requires Defined(digest) && Plays(EMPTY, front, digest) && row.verdict == Reviewing && Hashable(row.fullTrace)
    requires Play(EMPTY, front, digest)
      == With(Waiting(e), e.requestId, row, map[0 := InGraph(e.requestId, Reject)], map[e.requestId := Reject])
    ensures digest(MarkedEnvelope(row.fullTrace, FAILURE)).Some? && Plays(EMPTY, Doomed(front, e.requestId), digest)
    ensures Play(EMPTY, Doomed(front, e.requestId), digest)
      == With(Forgotten(e), e.requestId, MarkedRow(row, FAILURE, digest).(verdict := Reviewing).(verdict := FinalizationFailed),
              map[], map[e.requestId := Reject])
    ensures Lists([], map[], e.requestId) && e !in ForFinalization([], [])
  {
    Retried(Waiting(e), e.requestId, row, front, digest);
    ReconcileFails(e, MarkedRow(row, FAILURE, digest).(verdict := Reviewing), Retry(front, e.requestId), digest);
  }

  lemma ReconcileFails(e: Event, row: Row, front: seq<Move>, digest: Digest)
    requires Plays(EMPTY, front, digest) && row.verdict == Reviewing
    requires Play(EMPTY, front, digest)
      == With(Waiting(e), e.requestId, row, map[1 := Reconciling(e.requestId)], map[e.requestId := Reject])
    ensures var moves := front + [PutBack(1, true)] + [Store(Discard(e.requestId))];
      && Plays(EMPTY, moves, digest)
      && Play(EMPTY, moves, digest)
         == With(Forgotten(e), e.requestId, row.(verdict := FinalizationFailed), map[], map[e.requestId := Reject])
    ensures Lists([], map[], e.requestId) && e !in ForFinalization([], [])
  {
    var r, m1, m2 := e.requestId, PutBack(1, true), Store(Discard(e.requestId));
    GivenUp(Waiting(e), r, row, map[r := Reject], digest);
    Then(EMPTY, front, m1, digest);
    Dropped(e, row.(verdict := FinalizationFailed), map[r := Reject], digest);
    Then(EMPTY, front + [m1], m2, digest);
  }

  lemma Dropped(e: Event, row: Row, entered: map<string, ReviewDecision>, digest: Digest)
    ensures var s, m := With(Waiting(e), e.requestId, row, map[], entered), Store(Discard(e.requestId));
      && Permitted(s, m) && After(s, m, digest) == With(Forgotten(e), e.requestId, row, map[], entered)
    ensures var log := With(Forgotten(e), e.requestId, row, map[], entered).log;
      Lists([], log.table, e.requestId) && e !in ForFinalization(Buffered(log, e.requestId), [])
  {
    var s, m := With(Waiting(e), e.requestId, row, map[], entered), Store(Discard(e.requestId));
    assert After(s, m, digest).log.buffers == map[];
    NothingToFinalize(e);
  }

  /** Entered, and an event logged whose immediate write fails. */
  function UntilBuffered(e: Event, claim: string): seq<Move> {
    UntilEntered(e.requestId, claim, Null, Reject) + [Store(Record(e, false))]
  }

  lemma PlayedUntilBuffered(e: Event, claim: string, digest: Digest)
    requires Defined(digest) && e.id != ""
    ensures Plays(EMPTY, UntilBuffered(e, claim), digest)
    ensures var s, r := Play(EMPTY, UntilBuffered(e, claim), digest), e.requestId;
      && s == With(Waiting(e), r, ReviewingRow(r, claim, digest), map[0 := InGraph(r, Reject)], map[r := Reject])
      && Known(s.log, e)
  {
    var r := e.requestId;
    PlayedUntilEntered(r, claim, Null, Reject, digest);
    BufferedOnly(e, ReviewingRow(r, claim, digest), map[0 := InGraph(r, Reject)], map[r := Reject], digest);
    Then(EMPTY, UntilEntered(r, claim, Null, Reject), Store(Record(e, false)), digest);
  }

  function ReviewingRow(r: string, claim: string, digest: Digest): Row
    requires Defined(digest)
  {
    Submitted(r, claim, Null, digest);
    PausedRow(r, claim, Null, digest).(verdict := Reviewing)
  }

  lemma BufferedOnly(e: Event, row: Row, clients: map<nat, Client>, entered: map<string, ReviewDecision>, digest: Digest)
    requires e.id != ""
    ensures var s, m := With(NONE, e.requestId, row, clients, entered), Store(Record(e, false));
      && Permitted(s, m) && After(s, m, digest) == With(Waiting(e), e.requestId, row, clients, entered)
      && Known(After(s, m, digest).log, e)
  {
    var s, m := With(NONE, e.requestId, row, clients, entered), Store(Record(e, false));
    assert Buffered(s.log, e.requestId) + [e] == [e];
  }

  lemma GivenUp(b: Trail, r: string, row: Row, entered: map<string, ReviewDecision>, digest: Digest)
    requires row.verdict == Reviewing
    ensures var s, m := With(b, r, row, map[1 := Reconciling(r)], entered), PutBack(1, true);
      Permitted(s, m) && After(s, m, digest) == With(b, r, row.(verdict := FinalizationFailed), map[], entered)
  {
    assert After(With(b, r, row, map[1 := Reconciling(r)], entered), PutBack(1, true), digest).clients == map[];
  }

  lemma NothingToFinalize(e: Event)
    ensures e !in ForFinalization([], [])
  {
    var none: seq<Event> := [];
    assert none + none == [];
  }
}

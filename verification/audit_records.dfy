/**
 The rows of the audit store and what a transaction does to them (src/finvet/audit/database.py,
 build_execution_envelope and compare_execution_projection in src/finvet/audit/integrity.py).

 The transitions here are pure; AuditStore holds them as a class. The digest is any partial function of
 the envelope, undefined where the checksum refuses a value; Checksums gives the program's. The verdict column doubles as lifecycle state, so its type does too.
 */
module AuditRecords {
  import opened Wrappers
  import opened Sequences
  import opened Sorting
  import opened Integrity
  import Dates

  /** One audit event; detail holds its parent, type, agent and data. */
  datatype Event = Event(id: string, requestId: string, timestamp: string, detail: Value)

  datatype Column = Pending | Reviewing | FinalizationFailed | Final(verdict: Option<string>)

  datatype TerminalStatus =
    | Success | PendingReview | Rejected | GuardrailBlocked | Error
    | ReviewFinalizationFailed | ReviewDone

  datatype ReviewDecision = Approve | Override | Reject

  datatype ReviewBlock = ReviewBlock(decision: ReviewDecision, notes: Option<string>, supersedes: string)

  datatype Recovery = Recovery(
    errorType: string, occurredAt: string, decision: ReviewDecision, notes: Option<string>, hasFinalState: bool)

  datatype Envelope = Envelope(
    requestId: string, claim: string, terminalStatus: Option<TerminalStatus>, verdict: Column, confidence: Value,
    agentsRun: seq<string>, events: seq<Event>, finalResponse: Value, dataSources: Value, llmConfig: Value,
    review: Option<ReviewBlock>, recovery: Option<Recovery>)

  datatype Row = Row(
    requestId: string, claimText: string, verdict: Column, confidence: Value, agentsRun: seq<string>,
    totalEvents: nat, executionHash: string, fullTrace: Envelope, dataSources: Value, llmConfig: Value)

  type Digest = Envelope -> Option<string>
  type Rows = map<string, Row>
  type EventTable = map<string, Event>

  // ----- envelopes -----

  function EventKey(e: Event): Pair {
    (e.timestamp, e.id)
  }

  /** canonical_event_order. */
  function CanonicalOrder(events: seq<Event>): seq<Event> {
    SortBy(events, EventKey)
  }

  ghost predicate DistinctIds(events: seq<Event>) {
    forall i, j :: 0 <= i < j < |events| ==> events[i].id != events[j].id
  }

  /** The order is by timestamp and then by id, and keeps every event. */
  lemma CanonicalOrderIsByTime(events: seq<Event>)
    ensures multiset(CanonicalOrder(events)) == multiset(events)
    ensures var es := CanonicalOrder(events);
      forall i, j :: 0 <= i < j < |es| ==>
        && !Dates.Less(es[j].timestamp, es[i].timestamp)
        && (es[j].timestamp == es[i].timestamp ==> !Dates.Less(es[j].id, es[i].id))
  {
    SortBySorts(events, EventKey);
  }

  /** Any two arrangements of events with distinct ids are put in one order. */
  lemma CanonicalOrderUnique(a: seq<Event>, b: seq<Event>)
    requires multiset(a) == multiset(b) && DistinctIds(a)
    ensures CanonicalOrder(a) == CanonicalOrder(b)
  {
    SortBySorts(a, EventKey);
    SortBySorts(b, EventKey);
    SortedUnique(CanonicalOrder(a), CanonicalOrder(b), EventKey);
  }

  /** What one run reports to be recorded. */
  datatype Report = Report(
    claimText: string, verdict: Column, confidence: Value, agentsRun: seq<string>, finalResponse: Value,
    dataSources: Value, terminalStatus: Option<TerminalStatus>)

  function BuildEnvelope(requestId: string, r: Report, events: seq<Event>, llmConfig: Value): Envelope {
    Envelope(requestId, r.claimText, r.terminalStatus, r.verdict, r.confidence, r.agentsRun, CanonicalOrder(events),
             r.finalResponse, r.dataSources, llmConfig, None, None)
  }

  function NewRow(requestId: string, r: Report, events: seq<Event>, llmConfig: Value, digest: Digest): Row
    requires digest(BuildEnvelope(requestId, r, events, llmConfig)).Some?
  {
    var envelope := BuildEnvelope(requestId, r, events, llmConfig);
    Row(requestId, r.claimText, r.verdict, r.confidence, r.agentsRun, |events|, digest(envelope).value, envelope,
        r.dataSources, llmConfig)
  }

  // ----- review transitions -----

  datatype ClaimResult = Claimed | Conflict | Missing | Unavailable

  /** The conditional UPDATE both claims use: from one column value to REVIEWING. */
  function ClaimFrom(rows: Rows, r: string, from: Column): (Rows, ClaimResult) {
    if r in rows && rows[r].verdict == from then (rows[r := rows[r].(verdict := Reviewing)], Claimed)
    else (rows, if r in rows then Conflict else Missing)
  }

  /** The conditional UPDATE of release and restore: from REVIEWING to another column value. */
  function LeaveReviewing(rows: Rows, r: string, to: Column): (Rows, bool) {
    if r in rows && rows[r].verdict == Reviewing then (rows[r := rows[r].(verdict := to)], true) else (rows, false)
  }

  function MarkedEnvelope(e: Envelope, recovery: Recovery): Envelope {
    e.(terminalStatus := Some(ReviewFinalizationFailed), recovery := Some(recovery))
  }

  /** mark_review_finalization_failed: the recovery block joins the envelope and the digest follows. */
  function MarkedRow(row: Row, recovery: Recovery, digest: Digest): Row
    requires digest(MarkedEnvelope(row.fullTrace, recovery)).Some?
  {
    var envelope := MarkedEnvelope(row.fullTrace, recovery);
    row.(verdict := FinalizationFailed, fullTrace := envelope, executionHash := digest(envelope).value)
  }

  predicate Marks(rows: Rows, r: string, recovery: Recovery, digest: Digest) {
    r in rows && rows[r].verdict == Reviewing && digest(MarkedEnvelope(rows[r].fullTrace, recovery)).Some?
  }

  function Mark(rows: Rows, r: string, recovery: Recovery, digest: Digest): (Rows, bool) {
    if Marks(rows, r, recovery, digest) then (rows[r := MarkedRow(rows[r], recovery, digest)], true) else (rows, false)
  }

  /** What a finished review writes; dataSources None leaves the column alone. */
  datatype Reviewed = Reviewed(
    verdict: string, confidence: Value, finalResponse: Value, dataSources: Option<Value>, events: seq<Event>,
    decision: ReviewDecision, notes: Option<string>)

  /** finalize_review builds the envelope anew, without llm_config. */
  function FinalizedEnvelope(row: Row, x: Reviewed): Envelope {
    var report := Report(row.claimText, Final(Some(x.verdict)), x.confidence, row.agentsRun, x.finalResponse,
                         x.dataSources.GetOr(Null), Some(ReviewDone));
    BuildEnvelope(row.requestId, report, x.events, Null).(review := Some(ReviewBlock(x.decision, x.notes, row.executionHash)))
  }

  function FinalizedRow(row: Row, x: Reviewed, digest: Digest): Row
    requires digest(FinalizedEnvelope(row, x)).Some?
  {
    var envelope := FinalizedEnvelope(row, x);
    row.(verdict := Final(Some(x.verdict)), confidence := x.confidence, fullTrace := envelope,
         executionHash := digest(envelope).value, totalEvents := |x.events|, dataSources := x.dataSources.GetOr(row.dataSources))
  }

  /** The queue of get_pending_reviews. */
  predicate InQueue(rows: Rows, r: string) {
    r in rows && (rows[r].verdict == Pending || rows[r].verdict == Reviewing || rows[r].verdict == FinalizationFailed)
  }

  // ----- events joining the table -----

  /**
   _insert_missing_events: the events whose id the table lacked at the start, each added in turn; None
   when one id is added twice, which violates the primary key.
   */
  function Inserted(table: EventTable, events: seq<Event>): Option<EventTable> {
    if events == [] then Some(table)
    else
      var front, last := Inserted(table, events[..|events| - 1]), events[|events| - 1];
      if front == None || last.id == "" || last.id in table then front
      else if last.id in front.value then None
      else Some(front.value[last.id := last])
  }

  /** The last event with an id. */
  function ById(events: seq<Event>, id: string): (r: Option<Event>)
    ensures r.Some? ==> r.value in events && r.value.id == id
    ensures r == None ==> forall e :: e in events ==> e.id != id
  {
    if events == [] then None
    else
      SplitLast(events);
      if events[|events| - 1].id == id then Some(events[|events| - 1]) else ById(events[..|events| - 1], id)
  }

  /** No two events the table lacks share an id. */
  ghost predicate InsertsOnce(table: EventTable, events: seq<Event>) {
    forall i, j :: 0 <= i < j < |events| && events[i].id == events[j].id && events[i].id != "" ==> events[i].id in table
  }

  /**
   The insertion violates the key exactly when two missing events share an id; otherwise the new table
   answers each id with its old event if it had one, and else with the event that bears it.
   */
  lemma {:induction false} InsertedLooksUp(table: EventTable, events: seq<Event>, id: string)
    ensures Inserted(table, events).Some? <==> InsertsOnce(table, events)
    ensures Inserted(table, events).Some? ==>
      var t := Inserted(table, events).value;
      if id in table then id in t && t[id] == table[id]
      else if id == "" then id !in t
      else (if id in t then Some(t[id]) else None) == ById(events, id)
  {
    if events != [] {
      var front, last := events[..|events| - 1], events[|events| - 1];
      InsertedLooksUp(table, front, id);
      InsertsOnceLast(table, events);
      if Inserted(table, front).Some? {
        InsertedLooksUp(table, front, last.id);
      }
    }
  }

  lemma InsertsOnceLast(table: EventTable, events: seq<Event>)
    requires events != []
    ensures var front, last := events[..|events| - 1], events[|events| - 1];
      InsertsOnce(table, events) <==>
      InsertsOnce(table, front) && (last.id == "" || last.id in table || ById(front, last.id) == None)
  {
    var front, last := events[..|events| - 1], events[|events| - 1];
    var found := ById(front, last.id);
    if found.Some? {
      var i :| 0 <= i < |front| && front[i] == found.value;
      assert events[i].id == last.id;
    }
  }

  // ----- what is true of every row -----

  ghost predicate Lifecycle(c: Column) {
    c == Pending || c == Reviewing || c == FinalizationFailed
  }

  /**
   Its hash is the digest of its envelope; the envelope repeats its columns, except that the verdict
   column moves during a review, and that a finished review drops the model configuration and keeps
   older data sources when it was given none.
   */
  ghost predicate RowOk(row: Row, digest: Digest) {
    var e := row.fullTrace;
    && digest(e) == Some(row.executionHash)
    && row.requestId == e.requestId && row.claimText == e.claim
    && row.confidence == e.confidence && row.agentsRun == e.agentsRun && row.totalEvents == |e.events|
    && (e.review == None ==>
          && row.dataSources == e.dataSources && row.llmConfig == e.llmConfig
          && (Lifecycle(row.verdict) ==> e.verdict == Pending)
          && (!Lifecycle(row.verdict) ==> e.verdict == row.verdict))
    && (e.review.Some? ==>
          && !Lifecycle(row.verdict) && row.verdict == e.verdict
          && e.llmConfig == Null && (e.dataSources == Null || e.dataSources == row.dataSources))
  }

  /** A row starts either paused or with a verdict; the two review states are never committed. */
  predicate Initial(r: Report) {
    r.verdict == Pending || r.verdict.Final?
  }

  lemma NewRowOk(requestId: string, r: Report, events: seq<Event>, llmConfig: Value, digest: Digest)
    requires Initial(r) && digest(BuildEnvelope(requestId, r, events, llmConfig)).Some?
    ensures var row := NewRow(requestId, r, events, llmConfig, digest);
      && RowOk(row, digest) && row.requestId == requestId && row.verdict == r.verdict
      && row.fullTrace.finalResponse == r.finalResponse && row.fullTrace.terminalStatus == r.terminalStatus
      && multiset(row.fullTrace.events) == multiset(events) && SortedBy(row.fullTrace.events, EventKey)
  {
    SameMembers(CanonicalOrder(events), events);
    SortBySorts(events, EventKey);
  }

  lemma MarkedRowOk(row: Row, recovery: Recovery, digest: Digest)
    requires RowOk(row, digest) && row.verdict == Reviewing && digest(MarkedEnvelope(row.fullTrace, recovery)).Some?
    ensures RowOk(MarkedRow(row, recovery, digest), digest)
  {
  }

  lemma ColumnMoveOk(row: Row, to: Column, digest: Digest)
    requires RowOk(row, digest) && Lifecycle(row.verdict) && Lifecycle(to)
    ensures RowOk(row.(verdict := to), digest)
  {
  }

  /** A finished review names, as superseded, the checksum of exactly the envelope it replaces. */
  lemma FinalizedRowOk(row: Row, x: Reviewed, digest: Digest)
    requires RowOk(row, digest) && row.verdict == Reviewing && digest(FinalizedEnvelope(row, x)).Some?
    ensures var after := FinalizedRow(row, x, digest);
      && RowOk(after, digest)
      && after.fullTrace.review == Some(ReviewBlock(x.decision, x.notes, digest(row.fullTrace).value))
      && after.verdict == Final(Some(x.verdict)) && after.fullTrace.finalResponse == x.finalResponse
      && multiset(after.fullTrace.events) == multiset(x.events) && SortedBy(after.fullTrace.events, EventKey)
  {
    SameMembers(CanonicalOrder(x.events), x.events);
    SortBySorts(x.events, EventKey);
  }

  // ----- drift -----

  datatype Field = RequestIdField | ClaimField | VerdictField | ConfidenceField | AgentsRunField | DataSourcesField
                 | LlmConfigField | EventsField

  /** Two JSON values the comparison tells apart: equal up to the order of keys counts as equal. */
  predicate Differ(a: Value, b: Value) {
    Canonical(a) != Canonical(b)
  }

  /** compare_execution_projection: the fields where the row disagrees with its envelope. */
  function Drift(row: Row, events: seq<Event>): set<Field> {
    set f: Field | Disagrees(row, events, f)
  }

  predicate Disagrees(row: Row, events: seq<Event>, f: Field) {
    var e := row.fullTrace;
    match f
    case RequestIdField => row.requestId != e.requestId
    case ClaimField => row.claimText != e.claim
    case VerdictField => row.verdict != e.verdict
    case ConfidenceField => Differ(row.confidence, e.confidence)
    case AgentsRunField => row.agentsRun != e.agentsRun
    case DataSourcesField => Differ(row.dataSources, e.dataSources)
    case LlmConfigField => Differ(row.llmConfig, e.llmConfig)
    case EventsField => CanonicalOrder(events) != e.events
  }

  /**
   Which fields can drift: before a review is finished only the verdict, and that exactly while one is
   in flight; afterwards only the model configuration and the data sources, the former exactly when
   one was recorded.
   */
  lemma DriftOfRow(row: Row, events: seq<Event>, digest: Digest)
    requires RowOk(row, digest)
    ensures var d := Drift(row, events) - {EventsField};
      && (row.fullTrace.review == None ==>
            d == if row.verdict == Reviewing || row.verdict == FinalizationFailed then {VerdictField} else {})
      && (row.fullTrace.review.Some? ==> d <= {LlmConfigField, DataSourcesField})
      && (row.fullTrace.review.Some? ==> (LlmConfigField in d <==> Differ(row.llmConfig, Null)))
      && (DataSourcesField in d ==> row.fullTrace.dataSources == Null)
  {
  }

  /** The events agree when the envelope lists exactly the table's, each as often, by time and id. */
  lemma EventsAgreeIff(row: Row, events: seq<Event>)
    requires DistinctIds(events)
    ensures EventsField !in Drift(row, events) <==>
      multiset(row.fullTrace.events) == multiset(events) && SortedBy(row.fullTrace.events, EventKey)
  {
    OnlyArrangement(events, row.fullTrace.events);
  }

  lemma OnlyArrangement(events: seq<Event>, es: seq<Event>)
    requires DistinctIds(events)
    ensures CanonicalOrder(events) == es <==> multiset(es) == multiset(events) && SortedBy(es, EventKey)
  {
    SortBySorts(events, EventKey);
    if multiset(es) == multiset(events) && SortedBy(es, EventKey) {
      CanonicalOrderUnique(events, es);
      SortedUnique(CanonicalOrder(es), es, EventKey);
    }
  }

  /** Whatever columns of an undrifted row are edited, exactly the edited ones are reported. */
  lemma EditedColumnsDrift(row: Row, edited: Row, events: seq<Event>)
    requires Drift(row, events) == {} && edited.fullTrace == row.fullTrace
    ensures var d := Drift(edited, events);
      && (RequestIdField in d <==> edited.requestId != row.requestId)
      && (ClaimField in d <==> edited.claimText != row.claimText)
      && (VerdictField in d <==> edited.verdict != row.verdict)
      && (ConfidenceField in d <==> Canonical(edited.confidence) != Canonical(row.confidence))
      && (AgentsRunField in d <==> edited.agentsRun != row.agentsRun)
      && (DataSourcesField in d <==> Canonical(edited.dataSources) != Canonical(row.dataSources))
      && (LlmConfigField in d <==> Canonical(edited.llmConfig) != Canonical(row.llmConfig))
      && EventsField !in d
  {
    NoDisagreement(row, events, RequestIdField);
    NoDisagreement(row, events, ClaimField);
    NoDisagreement(row, events, VerdictField);
    NoDisagreement(row, events, ConfidenceField);
    NoDisagreement(row, events, AgentsRunField);
    NoDisagreement(row, events, DataSourcesField);
    NoDisagreement(row, events, LlmConfigField);
    NoDisagreement(row, events, EventsField);
  }

  lemma NoDisagreement(row: Row, events: seq<Event>, f: Field)
    requires Drift(row, events) == {}
    ensures !Disagrees(row, events, f)
  {
    assert f !in Drift(row, events);
  }
}

/**
 The audit trails of many requests at once: per-request buffers over an event table whose immediate
 writes may fail, and the transactions that reconcile them (src/finvet/audit/logger.py over
 src/finvet/audit/database.py). A transaction that does not go through has no effect.
 */
module AuditTrail {
  import opened Wrappers
  import opened Sequences
  import opened Sorting
  import opened AuditRecords
  import Integrity

  /** issued is a record for the proofs: every event that was ever logged, under its id. */
  datatype Log = Log(buffers: map<string, seq<Event>>, table: EventTable, rows: Rows, issued: map<string, Event>)

  /** One call; committed tells whether its transaction goes through. */
  datatype Step =
    | Record(event: Event, committed: bool)
    | Note(event: Event, committed: bool)
    | Commit(id: string, report: Report, llmConfig: Integrity.Value, committed: bool)
    | Claim(id: string, from: Column, committed: bool)
    | Leave(id: string, to: Column, committed: bool)
    | Fail(id: string, recovery: Recovery, committed: bool)
    | Finalize(id: string, reviewed: Reviewed, committed: bool)
    | Discard(id: string)

  function Buffered(s: Log, r: string): seq<Event> {
    if r in s.buffers then s.buffers[r] else []
  }

  /** One immediate write; a duplicate id violates the key. */
  function Written(table: EventTable, e: Event, committed: bool): EventTable {
    if committed && e.id !in table then table[e.id := e] else table
  }

  function Recorded(s: Log, e: Event, committed: bool): Log {
    Log(s.buffers[e.requestId := Buffered(s, e.requestId) + [e]], Written(s.table, e, committed), s.rows, s.issued[e.id := e])
  }

  /** Logged past the buffer. */
  function Noted(s: Log, e: Event, committed: bool): Log {
    s.(table := Written(s.table, e, committed), issued := s.issued[e.id := e])
  }

  /** The checksum of the run's envelope cannot be taken, so commit_execution raises before its transaction. */
  predicate Refused(s: Log, r: string, report: Report, llmConfig: Integrity.Value, digest: Digest) {
    digest(BuildEnvelope(r, report, Buffered(s, r), llmConfig)) == None
  }

  /** Whether a commit of r goes through: its envelope is not refused, its row is new and no key is violated. */
  predicate Commits(s: Log, r: string, report: Report, llmConfig: Integrity.Value, committed: bool, digest: Digest) {
    committed && !Refused(s, r, report, llmConfig, digest) && r !in s.rows && Inserted(s.table, Buffered(s, r)).Some?
  }

  function Committed(s: Log, r: string, report: Report, llmConfig: Integrity.Value, digest: Digest): Log
    requires Commits(s, r, report, llmConfig, true, digest)
  {
    var events := Buffered(s, r);
    s.(buffers := s.buffers - {r}, table := Inserted(s.table, events).value,
       rows := s.rows[r := NewRow(r, report, events, llmConfig, digest)])
  }

  predicate Finalizes(s: Log, r: string, x: Reviewed, committed: bool, digest: Digest) {
    committed && r in s.rows && s.rows[r].verdict == Reviewing && digest(FinalizedEnvelope(s.rows[r], x)).Some?
    && Inserted(s.table, x.events).Some?
  }

  function Finalized(s: Log, r: string, x: Reviewed, digest: Digest): Log
    requires Finalizes(s, r, x, true, digest)
  {
    s.(rows := s.rows[r := FinalizedRow(s.rows[r], x, digest)], table := Inserted(s.table, x.events).value)
  }

  function Next(s: Log, step: Step, digest: Digest): Log {
    match step
    case Record(e, ok) => Recorded(s, e, ok)
    case Note(e, ok) => Noted(s, e, ok)
    case Commit(r, report, llmConfig, ok) =>
      if Commits(s, r, report, llmConfig, ok, digest) then Committed(s, r, report, llmConfig, digest) else s
    case Claim(r, from, ok) => if ok then s.(rows := ClaimFrom(s.rows, r, from).0) else s
    case Leave(r, to, ok) => if ok then s.(rows := LeaveReviewing(s.rows, r, to).0) else s
    case Fail(r, recovery, ok) => if ok then s.(rows := Mark(s.rows, r, recovery, digest).0) else s
    case Finalize(r, x, ok) => if Finalizes(s, r, x, ok, digest) then Finalized(s, r, x, digest) else s
    case Discard(r) => s.(buffers := s.buffers - {r})
  }

  // ----- what a log knows -----

  predicate InTable(table: EventTable, e: Event) {
    e.id in table && table[e.id] == e
  }

  /** The event is in the table or waits in its request's buffer. */
  predicate Known(s: Log, e: Event) {
    InTable(s.table, e) || e in Buffered(s, e.requestId)
  }

  predicate IsIssued(s: Log, e: Event) {
    e.id in s.issued && s.issued[e.id] == e
  }

  ghost predicate AllIssued(s: Log, events: seq<Event>) {
    forall e :: e in events ==> IsIssued(s, e)
  }

  predicate Fresh(s: Log, e: Event) {
    e.id != "" && e.id !in s.issued
  }

  /** What callers keep to: ids are new, a committed verdict is a first one, a review writes events that were logged. */
  ghost predicate Enabled(s: Log, step: Step) {
    match step
    case Record(e, _) => Fresh(s, e)
    case Note(e, _) => Fresh(s, e)
    case Commit(_, report, _, _) => Initial(report)
    case Claim(_, from, _) => from == Pending || from == FinalizationFailed
    case Leave(_, to, _) => to == Pending || to == FinalizationFailed
    case Finalize(r, x, _) => DistinctIds(x.events) && AllIssued(s, x.events) && forall e :: e in x.events ==> e.requestId == r
    case _ => true
  }

  // ----- the invariant -----

  ghost predicate TableOk(table: EventTable) {
    forall k :: k in table ==> k != "" && table[k].id == k
  }

  ghost predicate BufferOk(events: seq<Event>, r: string) {
    DistinctIds(events) && forall e :: e in events ==> e.requestId == r && e.id != ""
  }

  /** Every known event was issued, so no two known events share an id. */
  ghost predicate KnownIssued(s: Log) {
    "" !in s.issued && forall e :: Known(s, e) ==> IsIssued(s, e)
  }

  ghost predicate RowsOk(rows: Rows, digest: Digest) {
    forall r :: r in rows ==> rows[r].requestId == r && RowOk(rows[r], digest)
  }

  ghost predicate Inv(s: Log, digest: Digest) {
    && TableOk(s.table)
    && (forall r :: r in s.buffers ==> BufferOk(s.buffers[r], r))
    && KnownIssued(s)
    && RowsOk(s.rows, digest)
  }

  lemma AtMostOncePerId(events: seq<Event>, id: string)
    requires DistinctIds(events)
    ensures forall e :: e in events && e.id == id ==> ById(events, id) == Some(e)
  {
  }

  /** Inserting events that were issued succeeds, and the table then holds its old events and these. */
  lemma InsertIssued(s: Log, events: seq<Event>, digest: Digest)
    requires Inv(s, digest) && DistinctIds(events) && AllIssued(s, events)
    ensures Inserted(s.table, events).Some?
    ensures var t := Inserted(s.table, events).value;
      TableOk(t) && forall e :: InTable(t, e) <==> InTable(s.table, e) || e in events
  {
    InsertedLooksUp(s.table, events, "");
    var t := Inserted(s.table, events).value;
    forall k | k in t ensures k != "" && t[k].id == k {
      InsertedLooksUp(s.table, events, k);
    }
    forall e ensures InTable(t, e) <==> InTable(s.table, e) || e in events {
      InsertedLooksUp(s.table, events, e.id);
      AtMostOncePerId(events, e.id);
      if e in events && e.id in s.table {
        assert Known(s, s.table[e.id]);
      }
    }
  }

  lemma FreshIsAbsent(s: Log, e: Event, digest: Digest)
    requires Inv(s, digest) && Fresh(s, e)
    ensures e.id !in s.table && forall k :: Known(s, k) ==> k.id != e.id
  {
    if e.id in s.table {
      assert Known(s, s.table[e.id]);
    }
  }

  lemma RecordKnows(s: Log, e: Event, ok: bool, digest: Digest)
    requires Inv(s, digest) && Fresh(s, e)
    ensures forall k :: Known(Recorded(s, e, ok), k) <==> Known(s, k) || k == e
  {
    var s' := Recorded(s, e, ok);
    assert Buffered(s', e.requestId) == Buffered(s, e.requestId) + [e];
    FreshIsAbsent(s, e, digest);
    forall k ensures Known(s', k) <==> Known(s, k) || k == e {
      assert k.requestId != e.requestId ==> Buffered(s', k.requestId) == Buffered(s, k.requestId);
    }
  }

  lemma RecordKeepsInv(s: Log, e: Event, ok: bool, digest: Digest)
    requires Inv(s, digest) && Fresh(s, e)
    ensures Inv(Recorded(s, e, ok), digest)
  {
    RecordKnows(s, e, ok, digest);
    FreshIsAbsent(s, e, digest);
    assert BufferOk(Buffered(s, e.requestId) + [e], e.requestId) by {
      forall b | b in Buffered(s, e.requestId) ensures b.id != e.id {
        assert Known(s, b);
      }
    }
  }

  lemma NoteKeepsInv(s: Log, e: Event, ok: bool, digest: Digest)
    requires Inv(s, digest) && Fresh(s, e)
    ensures Inv(Noted(s, e, ok), digest) && forall k :: Known(Noted(s, e, ok), k) ==> Known(s, k) || k == e
  {
    var s' := Noted(s, e, ok);
    FreshIsAbsent(s, e, digest);
    forall k | Known(s', k) ensures Known(s, k) || k == e {
      assert Buffered(s', k.requestId) == Buffered(s, k.requestId);
    }
  }

  /** A commit neither forgets nor invents an event. */
  lemma CommitKeepsInv(s: Log, r: string, report: Report, llmConfig: Integrity.Value, digest: Digest)
    requires Inv(s, digest) && Initial(report) && r !in s.rows && !Refused(s, r, report, llmConfig, digest)
    ensures Commits(s, r, report, llmConfig, true, digest)
    ensures var s' := Committed(s, r, report, llmConfig, digest);
      Inv(s', digest) && forall e :: Known(s', e) <==> Known(s, e)
  {
    var events := Buffered(s, r);
    BufferedIssued(s, r, digest);
    InsertIssued(s, events, digest);
    NewRowOk(r, report, events, llmConfig, digest);
    var s' := Committed(s, r, report, llmConfig, digest);
    forall e ensures Known(s', e) <==> Known(s, e) {
      assert e.requestId != r ==> Buffered(s', e.requestId) == Buffered(s, e.requestId);
      assert e.requestId == r ==> Buffered(s', e.requestId) == [];
    }
  }

  lemma FinalizeKeepsInv(s: Log, r: string, x: Reviewed, digest: Digest)
    requires Inv(s, digest) && Enabled(s, Finalize(r, x, true)) && r in s.rows && s.rows[r].verdict == Reviewing
    requires digest(FinalizedEnvelope(s.rows[r], x)).Some?
    ensures Finalizes(s, r, x, true, digest)
    ensures var s' := Finalized(s, r, x, digest);
      Inv(s', digest) && forall e :: Known(s', e) <==> Known(s, e) || e in x.events
  {
    InsertIssued(s, x.events, digest);
    FinalizedRowOk(s.rows[r], x, digest);
    RowReplaced(s.rows, r, FinalizedRow(s.rows[r], x, digest), digest);
    InsertKnows(s, x.events, digest);
    SameKnown(s.(table := Inserted(s.table, x.events).value), Finalized(s, r, x, digest));
  }

  lemma BufferedIssued(s: Log, r: string, digest: Digest)
    requires Inv(s, digest)
    ensures DistinctIds(Buffered(s, r)) && AllIssued(s, Buffered(s, r))
    ensures forall e :: e in Buffered(s, r) ==> e.requestId == r
  {
    forall e | e in Buffered(s, r) ensures IsIssued(s, e) {
      assert Known(s, e);
    }
  }

  lemma RowReplaced(rows: Rows, r: string, row: Row, digest: Digest)
    requires RowsOk(rows, digest) && row.requestId == r && RowOk(row, digest)
    ensures RowsOk(rows[r := row], digest)
  {
  }

  lemma InsertKnows(s: Log, events: seq<Event>, digest: Digest)
    requires Inv(s, digest) && DistinctIds(events) && AllIssued(s, events)
    ensures Inserted(s.table, events).Some?
    ensures var s' := s.(table := Inserted(s.table, events).value);
      KnownIssued(s') && TableOk(s'.table) && forall e :: Known(s', e) <==> Known(s, e) || e in events
  {
    InsertIssued(s, events, digest);
    var s' := s.(table := Inserted(s.table, events).value);
    forall e ensures Known(s', e) <==> Known(s, e) || e in events {
      assert Buffered(s', e.requestId) == Buffered(s, e.requestId);
    }
  }

  lemma SameKnown(s: Log, s': Log)
    requires s'.buffers == s.buffers && s'.table == s.table
    ensures forall e :: Known(s', e) <==> Known(s, e)
  {
    assert forall r :: Buffered(s', r) == Buffered(s, r);
  }

  lemma ColumnStepKeepsRows(s: Log, step: Step, digest: Digest)
    requires RowsOk(s.rows, digest) && Enabled(s, step) && (step.Claim? || step.Leave? || step.Fail?)
    ensures RowsOk(Next(s, step, digest).rows, digest)
  {
    var s', r := Next(s, step, digest), step.id;
    if s' != s {
      assert RowOk(s.rows[r], digest);
      if step.Fail? {
        MarkedRowOk(s.rows[r], step.recovery, digest);
      } else {
        ColumnMoveOk(s.rows[r], s'.rows[r].verdict, digest);
      }
    }
  }

  lemma ColumnStepKeepsInv(s: Log, step: Step, digest: Digest)
    requires Inv(s, digest) && Enabled(s, step) && (step.Claim? || step.Leave? || step.Fail?)
    ensures Inv(Next(s, step, digest), digest)
    ensures forall e :: Known(Next(s, step, digest), e) <==> Known(s, e)
  {
    ColumnStepKeepsRows(s, step, digest);
    SameKnown(s, Next(s, step, digest));
  }

  /** What a discard forgets: exactly the request's events that the table does not hold. */
  lemma DiscardForgets(s: Log, r: string, digest: Digest, e: Event)
    ensures Known(Next(s, Discard(r), digest), e) <==> Known(s, e) && (e.requestId != r || InTable(s.table, e))
  {
    var s' := s.(buffers := s.buffers - {r});
    assert e.requestId != r ==> Buffered(s', e.requestId) == Buffered(s, e.requestId);
  }

  lemma StepKeepsInv(s: Log, step: Step, digest: Digest)
    requires Inv(s, digest) && Enabled(s, step)
    ensures Inv(Next(s, step, digest), digest)
  {
    match step
    case Record(e, ok) => RecordKeepsInv(s, e, ok, digest);
    case Note(e, ok) => NoteKeepsInv(s, e, ok, digest);
    case Commit(r, report, llmConfig, ok) =>
      if Commits(s, r, report, llmConfig, ok, digest) { CommitKeepsInv(s, r, report, llmConfig, digest); }
    case Finalize(r, x, ok) => if Finalizes(s, r, x, ok, digest) { FinalizeKeepsInv(s, r, x, digest); }
    case Discard(r) => forall e { DiscardForgets(s, r, digest, e); }
    case _ => ColumnStepKeepsInv(s, step, digest);
  }

  /** The request whose row a call may touch. */
  function RowOf(step: Step): Option<string> {
    match step
    case Record(_, _) => None
    case Note(_, _) => None
    case Discard(_) => None
    case _ => Some(step.id)
  }

  lemma OneRowPerStep(s: Log, step: Step, r: string, digest: Digest)
    requires RowOf(step) != Some(r)
    ensures var rows := Next(s, step, digest).rows;
      (r in rows <==> r in s.rows) && (r in s.rows ==> rows[r] == s.rows[r])
  {
  }

  // ----- runs -----

  function Run(s: Log, steps: seq<Step>, digest: Digest): Log {
    if steps == [] then s else Next(Run(s, steps[..|steps| - 1], digest), steps[|steps| - 1], digest)
  }

  ghost predicate EnabledRun(s: Log, steps: seq<Step>, digest: Digest) {
    steps != [] ==>
      && EnabledRun(s, steps[..|steps| - 1], digest)
      && Enabled(Run(s, steps[..|steps| - 1], digest), steps[|steps| - 1])
  }

  /** In every reachable state each row's hash is the digest of its envelope, and the log is consistent. */
  lemma {:induction false} EveryRunKeepsInv(s: Log, steps: seq<Step>, digest: Digest)
    requires Inv(s, digest) && EnabledRun(s, steps, digest)
    ensures Inv(Run(s, steps, digest), digest)
  {
    if steps != [] {
      EveryRunKeepsInv(s, steps[..|steps| - 1], digest);
      StepKeepsInv(Run(s, steps[..|steps| - 1], digest), steps[|steps| - 1], digest);
    }
  }

  /**
   In every reachable state the row disagrees with its envelope at most on the verdict, exactly while its
   review is in flight, and after a review at most on the model configuration and on data sources that
   the review was not given.
   */
  lemma EveryRunBoundsDrift(s: Log, steps: seq<Step>, r: string, trail: seq<Event>, digest: Digest)
    requires Inv(s, digest) && EnabledRun(s, steps, digest) && r in Run(s, steps, digest).rows
    ensures var row := Run(s, steps, digest).rows[r];
      var drift := Drift(row, trail) - {EventsField};
      && digest(row.fullTrace) == Some(row.executionHash)
      && (row.fullTrace.review == None ==>
            drift == if row.verdict == Reviewing || row.verdict == FinalizationFailed then {VerdictField} else {})
      && (row.fullTrace.review.Some? ==> drift <= {LlmConfigField, DataSourcesField})
      && (DataSourcesField in drift ==> row.fullTrace.dataSources == Integrity.Null)
  {
    EveryRunKeepsInv(s, steps, digest);
    DriftOfRow(Run(s, steps, digest).rows[r], trail, digest);
  }

  /** The step does not end r's run, give it up, or log past its buffer. */
  predicate Quiet(step: Step, r: string) {
    match step
    case Note(e, _) => e.requestId != r
    case Commit(id, _, _, ok) => id != r || !ok
    case Discard(id) => id != r
    case _ => true
  }

  /** What was logged for r during a run. */
  function LoggedFor(steps: seq<Step>, r: string): seq<Event> {
    if steps == [] then []
    else
      var front, last := LoggedFor(steps[..|steps| - 1], r), steps[|steps| - 1];
      if last.Record? && last.event.requestId == r then front + [last.event] else front
  }

  /** The run of r is under way: no row yet, its buffer is what it logged, the table has nothing else of it. */
  ghost predicate Underway(s: Log, r: string, events: seq<Event>) {
    r !in s.rows && Buffered(s, r) == events && forall e :: InTable(s.table, e) && e.requestId == r ==> e in events
  }

  lemma QuietCommit(s: Log, step: Step, r: string, events: seq<Event>, digest: Digest)
    requires Inv(s, digest) && step.Commit? && Quiet(step, r) && Underway(s, r, events)
    ensures Underway(Next(s, step, digest), r, events)
  {
    if Commits(s, step.id, step.report, step.llmConfig, step.committed, digest) {
      BufferedIssued(s, step.id, digest);
      InsertIssued(s, Buffered(s, step.id), digest);
      assert step.id != r;
    }
  }

  lemma QuietFinalize(s: Log, step: Step, r: string, events: seq<Event>, digest: Digest)
    requires Inv(s, digest) && Enabled(s, step) && step.Finalize? && Underway(s, r, events)
    ensures Underway(Next(s, step, digest), r, events)
  {
    if Finalizes(s, step.id, step.reviewed, step.committed, digest) {
      InsertIssued(s, step.reviewed.events, digest);
      assert step.id != r;
    }
  }

  lemma QuietStep(s: Log, step: Step, r: string, events: seq<Event>, digest: Digest)
    requires Inv(s, digest) && Enabled(s, step) && Quiet(step, r) && Underway(s, r, events)
    ensures Underway(Next(s, step, digest), r,
                     if step.Record? && step.event.requestId == r then events + [step.event] else events)
  {
    if step.Commit? {
      QuietCommit(s, step, r, events, digest);
    } else if step.Finalize? {
      QuietFinalize(s, step, r, events, digest);
    }
  }

  lemma {:induction false} QuietRun(s: Log, steps: seq<Step>, r: string, digest: Digest)
    requires Inv(s, digest) && EnabledRun(s, steps, digest) && Underway(s, r, [])
    requires forall i :: 0 <= i < |steps| ==> Quiet(steps[i], r)
    ensures Underway(Run(s, steps, digest), r, LoggedFor(steps, r))
  {
    if steps != [] {
      var front := steps[..|steps| - 1];
      QuietRun(s, front, r, digest);
      EveryRunKeepsInv(s, front, digest);
      QuietStep(Run(s, front, digest), steps[|steps| - 1], r, LoggedFor(front, r), digest);
    }
  }

  // ----- convergence -----

  /** trail is what a query for r's events returns, in some order. */
  ghost predicate Lists(trail: seq<Event>, table: EventTable, r: string) {
    DistinctIds(trail) && forall e :: e in trail <==> InTable(table, e) && e.requestId == r
  }

  lemma WithoutEvent(s: seq<Event>, i: nat, e: Event)
    requires i < |s| && DistinctIds(s)
    ensures DistinctIds(s[..i] + s[i + 1..])
    ensures e in s[..i] + s[i + 1..] <==> e in s && e != s[i]
  {
    var rest := s[..i] + s[i + 1..];
    if e in s && e != s[i] {
      var j :| 0 <= j < |s| && s[j] == e;
      assert rest[if j < i then j else j - 1] == e;
    }
  }

  lemma {:induction false} SameEventsSameMultiset(a: seq<Event>, b: seq<Event>)
    requires DistinctIds(a) && DistinctIds(b) && forall e :: e in a <==> e in b
    ensures multiset(a) == multiset(b)
  {
    if a == [] {
      NonemptyHasMember(b);
    } else {
      var n := |a| - 1;
      assert a[n] in a;
      var i :| 0 <= i < |b| && b[i] == a[n];
      var rest := b[..i] + b[i + 1..];
      assert a[..n] == a[..n] + a[n + 1..];
      forall e ensures e in a[..n] <==> e in rest {
        WithoutEvent(a, n, e);
        WithoutEvent(b, i, e);
      }
      WithoutEvent(b, i, a[n]);
      SameEventsSameMultiset(a[..n], rest);
      SplitLast(a);
      RemoveAt(b, i);
    }
  }

  /** The row describes exactly these events, so does the table, and a query finds no drift but of allowed fields. */
  ghost predicate Converged(s: Log, r: string, events: seq<Event>, allowed: set<Field>) {
    && r in s.rows && s.rows[r].fullTrace.events == CanonicalOrder(events) && s.rows[r].totalEvents == |events|
    && Lists(events, s.table, r)
    && forall trail :: Lists(trail, s.table, r) ==> Drift(s.rows[r], trail) <= allowed
  }

  lemma NoEventDrift(row: Row, events: seq<Event>, trail: seq<Event>, table: EventTable, r: string)
    requires row.fullTrace.events == CanonicalOrder(events) && Lists(events, table, r) && Lists(trail, table, r)
    ensures EventsField !in Drift(row, trail)
  {
    SameEventsSameMultiset(events, trail);
    CanonicalOrderUnique(events, trail);
  }

  /** Events missing from the envelope are the only way the two lists of a row that describes some of its trail differ. */
  lemma EventDriftIff(row: Row, events: seq<Event>, trail: seq<Event>)
    requires row.fullTrace.events == CanonicalOrder(events) && DistinctIds(events) && DistinctIds(trail)
    requires forall e :: e in events ==> e in trail
    ensures EventsField in Drift(row, trail) <==> exists e :: e in trail && e !in events
  {
    DriftsOnEvents(row, trail);
    SameOrderIff(events, trail);
  }

  lemma DriftsOnEvents(row: Row, trail: seq<Event>)
    ensures EventsField in Drift(row, trail) <==> CanonicalOrder(trail) != row.fullTrace.events
  {
  }

  lemma SameOrderIff(events: seq<Event>, trail: seq<Event>)
    requires DistinctIds(events) && DistinctIds(trail) && forall e :: e in events ==> e in trail
    ensures CanonicalOrder(trail) == CanonicalOrder(events) <==> forall e :: e in trail ==> e in events
  {
    if forall e :: e in trail ==> e in events {
      SameEventsSameMultiset(events, trail);
      CanonicalOrderUnique(events, trail);
    } else {
      SameOrderSameEvents(trail, events);
    }
  }

  lemma SameOrderSameEvents(a: seq<Event>, b: seq<Event>)
    ensures CanonicalOrder(a) == CanonicalOrder(b) ==> forall e :: e in a <==> e in b
  {
    SameMembers(CanonicalOrder(a), a);
    SameMembers(CanonicalOrder(b), b);
  }

  /** The step is not a finalization of r that the store takes. */
  predicate NoOutcome(step: Step, r: string) {
    !(step.Finalize? && step.id == r && step.committed)
  }

  lemma InsertedGrows(table: EventTable, events: seq<Event>, e: Event)
    requires Inserted(table, events).Some? && InTable(table, e)
    ensures InTable(Inserted(table, events).value, e)
  {
    InsertedLooksUp(table, events, e.id);
  }

  lemma TableGrows(s: Log, step: Step, e: Event, digest: Digest)
    requires InTable(s.table, e)
    ensures InTable(Next(s, step, digest).table, e)
  {
    match step
    case Commit(r, report, llmConfig, ok) =>
      if Commits(s, r, report, llmConfig, ok, digest) {
        InsertedGrows(s.table, Buffered(s, r), e);
      }
    case Finalize(r, x, ok) =>
      if Finalizes(s, r, x, ok, digest) {
        InsertedGrows(s.table, x.events, e);
      }
    case _ =>
  }

  lemma EnvelopeEventsStay(s: Log, step: Step, r: string, digest: Digest)
    requires r in s.rows && NoOutcome(step, r)
    ensures r in Next(s, step, digest).rows
    ensures Next(s, step, digest).rows[r].fullTrace.events == s.rows[r].fullTrace.events
  {
  }

  lemma {:induction false} RunGrows(s: Log, steps: seq<Step>, r: string, digest: Digest)
    requires r in s.rows && forall i :: 0 <= i < |steps| ==> NoOutcome(steps[i], r)
    ensures r in Run(s, steps, digest).rows
    ensures Run(s, steps, digest).rows[r].fullTrace.events == s.rows[r].fullTrace.events
    ensures forall e :: InTable(s.table, e) ==> InTable(Run(s, steps, digest).table, e)
  {
    if steps != [] {
      var front, last := steps[..|steps| - 1], steps[|steps| - 1];
      RunGrows(s, front, r, digest);
      EnvelopeEventsStay(Run(s, front, digest), last, r, digest);
      forall e | InTable(s.table, e) ensures InTable(Run(s, steps, digest).table, e) {
        TableGrows(Run(s, front, digest), last, e, digest);
      }
    }
  }

  /**
   A row that described its request's whole trail drifts on its events later, short of a review's
   outcome, exactly when the table has gained an event of the request since: a note on an accepted
   result, say, or a reviewer's decision.
   */
  lemma LaterEventsDrift(s: Log, steps: seq<Step>, r: string, events: seq<Event>, trail: seq<Event>, digest: Digest)
    requires r in s.rows && s.rows[r].fullTrace.events == CanonicalOrder(events) && Lists(events, s.table, r)
    requires forall i :: 0 <= i < |steps| ==> NoOutcome(steps[i], r)
    requires Lists(trail, Run(s, steps, digest).table, r)
    ensures r in Run(s, steps, digest).rows
    ensures EventsField in Drift(Run(s, steps, digest).rows[r], trail) <==>
      exists e :: InTable(Run(s, steps, digest).table, e) && e.requestId == r && !InTable(s.table, e)
  {
    RunGrows(s, steps, r, digest);
    var s' := Run(s, steps, digest);
    EventDriftIff(s'.rows[r], events, trail);
    forall e ensures e in trail && e !in events <==> InTable(s'.table, e) && e.requestId == r && !InTable(s.table, e) {
      assert e in events <==> InTable(s.table, e) && e.requestId == r;
      assert e in trail <==> InTable(s'.table, e) && e.requestId == r;
    }
  }

  /** A commit of a run under way goes through unless it is refused, and leaves row, table and envelope agreeing. */
  lemma CommitConverges(s: Log, r: string, events: seq<Event>, report: Report, llmConfig: Integrity.Value, digest: Digest)
    requires Inv(s, digest) && Underway(s, r, events) && Initial(report)
    ensures Commits(s, r, report, llmConfig, true, digest) <==> !Refused(s, r, report, llmConfig, digest)
    ensures var s' := Next(s, Commit(r, report, llmConfig, true), digest);
      if Refused(s, r, report, llmConfig, digest) then s' == s
      else Converged(s', r, events, {}) && Buffered(s', r) == []
  {
    if !Refused(s, r, report, llmConfig, digest) {
      CommitKeepsInv(s, r, report, llmConfig, digest);
      BufferedIssued(s, r, digest);
      InsertIssued(s, events, digest);
      var s' := Committed(s, r, report, llmConfig, digest);
      assert Lists(events, s'.table, r);
      forall trail | Lists(trail, s'.table, r) ensures Drift(s'.rows[r], trail) == {} {
        NoEventDrift(s'.rows[r], events, trail, s'.table, r);
        DriftOfRow(s'.rows[r], trail, digest);
      }
    }
  }

  /**
   Whatever immediate writes fail and whatever other requests do, a commit that the store takes goes
   through unless the checksum of the envelope of everything logged for the request is refused, and
   leaves each of those events in the table, nothing else of the request there, the envelope listing
   them in (timestamp, id) order, and no drift. A refused one has no effect.
   */
  lemma EveryRunConverges(s: Log, steps: seq<Step>, r: string, report: Report, llmConfig: Integrity.Value, digest: Digest)
    requires Inv(s, digest) && EnabledRun(s, steps, digest) && Underway(s, r, []) && Initial(report)
    requires forall i :: 0 <= i < |steps| ==> Quiet(steps[i], r)
    ensures var before := Run(s, steps, digest);
      var after := Next(before, Commit(r, report, llmConfig, true), digest);
      if digest(BuildEnvelope(r, report, LoggedFor(steps, r), llmConfig)) == None then after == before
      else Converged(after, r, LoggedFor(steps, r), {}) && Buffered(after, r) == []
  {
    QuietRun(s, steps, r, digest);
    EveryRunKeepsInv(s, steps, digest);
    CommitConverges(Run(s, steps, digest), r, LoggedFor(steps, r), report, llmConfig, digest);
  }

  // ----- finalization -----

  /** The position of an event with this id, |events| if there is none. */
  function IndexOf(events: seq<Event>, id: string): (i: nat)
    ensures i <= |events|
    ensures i < |events| ==> events[i].id == id
    ensures i == |events| ==> forall j :: 0 <= j < |events| ==> events[j].id != id
  {
    if events == [] then 0
    else
      var i := IndexOf(events[..|events| - 1], id);
      if i < |events| - 1 then i else if events[|events| - 1].id == id then |events| - 1 else |events|
  }

  /** m with last in the place of the event that has its id, or at the end. */
  function Upsert(m: seq<Event>, last: Event): seq<Event> {
    var i := IndexOf(m, last.id);
    if i < |m| then m[i := last] else m + [last]
  }

  /** The values of the dictionary from ids to events, a later event replacing an earlier one. */
  function Merge(events: seq<Event>): seq<Event> {
    if events == [] then []
    else
      var m, last := Merge(events[..|events| - 1]), events[|events| - 1];
      if last.id == "" then m else Upsert(m, last)
  }

  /** Each id once, with the last event that bears it. */
  ghost predicate MergesTo(events: seq<Event>, m: seq<Event>) {
    DistinctIds(m) && forall e :: e in m <==> e.id != "" && ById(events, e.id) == Some(e)
  }

  lemma {:induction false} MergeById(events: seq<Event>)
    ensures MergesTo(events, Merge(events))
  {
    if events != [] {
      var front, last := events[..|events| - 1], events[|events| - 1];
      assert front + [last] == events;
      MergeById(front);
      MergeLast(front, Merge(front), last);
    }
  }

  lemma ByIdSnoc(front: seq<Event>, last: Event, id: string)
    ensures ById(front + [last], id) == if last.id == id then Some(last) else ById(front, id)
  {
    assert (front + [last])[..|front|] == front;
  }

  lemma UpsertKeepsDistinct(m: seq<Event>, last: Event)
    requires DistinctIds(m)
    ensures DistinctIds(Upsert(m, last))
  {
  }

  lemma MergeLast(front: seq<Event>, m: seq<Event>, last: Event)
    requires MergesTo(front, m)
    ensures MergesTo(front + [last], if last.id == "" then m else Upsert(m, last))
  {
    var m' := if last.id == "" then m else Upsert(m, last);
    forall e ensures e in m' <==> e.id != "" && ById(front + [last], e.id) == Some(e) {
      ByIdSnoc(front, last, e.id);
      MergeMember(m, last, e);
    }
    UpsertKeepsDistinct(m, last);
  }

  lemma MergeMember(m: seq<Event>, last: Event, e: Event)
    requires DistinctIds(m)
    ensures e in Upsert(m, last) <==> if e.id == last.id then e == last else e in m
  {
    var i := IndexOf(m, last.id);
    if i < |m| {
      var m' := m[i := last];
      assert m'[i] == last;
      if e in m && e.id != last.id {
        var j :| 0 <= j < |m| && m[j] == e;
        assert m'[j] == e;
      }
    }
  }

  /** events_for_finalization: buffered events, persisted ones over them, in canonical order. */
  function ForFinalization(buffered: seq<Event>, persisted: seq<Event>): seq<Event> {
    CanonicalOrder(Merge(buffered + persisted))
  }

  /** Nothing known of the request is lost and nothing is listed twice. */
  lemma FinalizationLosesNothing(s: Log, r: string, persisted: seq<Event>, digest: Digest)
    requires Inv(s, digest) && Lists(persisted, s.table, r)
    ensures var events := ForFinalization(Buffered(s, r), persisted);
      && DistinctIds(events) && SortedBy(events, EventKey)
      && forall e :: e in events <==> Known(s, e) && e.requestId == r
  {
    var all := Buffered(s, r) + persisted;
    var m := Merge(all);
    MergeById(all);
    SortBySorts(m, EventKey);
    SortKeepsDistinct(m);
    forall e ensures e in m <==> Known(s, e) && e.requestId == r {
      MergedIsKnown(s, r, persisted, digest, e);
    }
  }

  /**
   A failed reconcile discards the buffer: the next attempt then lists every event of the request exactly
   when no immediate write of a buffered event had failed.
   */
  lemma DiscardedEventsAreMissed(s: Log, r: string, persisted: seq<Event>, digest: Digest)
    requires Inv(s, digest) && Lists(persisted, s.table, r)
    ensures var events := ForFinalization(Buffered(Next(s, Discard(r), digest), r), persisted);
      (forall e :: Known(s, e) && e.requestId == r ==> e in events) <==> (forall e :: e in Buffered(s, r) ==> InTable(s.table, e))
  {
    var s' := Next(s, Discard(r), digest);
    StepKeepsInv(s, Discard(r), digest);
    FinalizationLosesNothing(s', r, persisted, digest);
    var events := ForFinalization(Buffered(s', r), persisted);
    forall e | e in Buffered(s, r) ensures Known(s, e) && e.requestId == r && (e in events <==> InTable(s.table, e)) {
      assert Known(s', e) <==> InTable(s.table, e);
    }
    forall e | Known(s, e) && e.requestId == r && InTable(s.table, e) ensures e in events {
      assert Known(s', e);
    }
  }

  lemma SortKeepsDistinct(m: seq<Event>)
    requires DistinctIds(m)
    ensures DistinctIds(CanonicalOrder(m))
  {
    PermutedDistinct(m, CanonicalOrder(m), (e: Event) => e.id);
  }

  lemma MergedIsKnown(s: Log, r: string, persisted: seq<Event>, digest: Digest, e: Event)
    requires Inv(s, digest) && Lists(persisted, s.table, r)
    ensures e.id != "" && ById(Buffered(s, r) + persisted, e.id) == Some(e) <==> Known(s, e) && e.requestId == r
  {
    var all := Buffered(s, r) + persisted;
    var found := ById(all, e.id);
    assert forall k :: k in all ==> Known(s, k) && k.requestId == r && k.id != "";
    if Known(s, e) && e.requestId == r {
      assert e in all;
      assert found.Some? && Known(s, found.value);
    }
  }

  /**
   A review finalized over those events leaves row, table and envelope agreeing, except on the model
   configuration and on data sources; it goes through unless its envelope is refused.
   */
  lemma FinalizeConverges(s: Log, r: string, x: Reviewed, persisted: seq<Event>, digest: Digest)
    requires Inv(s, digest) && Lists(persisted, s.table, r) && r in s.rows && s.rows[r].verdict == Reviewing
    requires x.events == ForFinalization(Buffered(s, r), persisted)
    ensures Finalizes(s, r, x, true, digest) <==> digest(FinalizedEnvelope(s.rows[r], x)).Some?
    ensures Finalizes(s, r, x, true, digest) ==>
      Converged(Finalized(s, r, x, digest), r, x.events, {LlmConfigField, DataSourcesField})
  {
    FinalizationLosesNothing(s, r, persisted, digest);
    if digest(FinalizedEnvelope(s.rows[r], x)).Some? {
      FinalizeKeepsInv(s, r, x, digest);
      FinalizedConverged(s, r, x, digest);
    }
  }

  lemma FinalizedConverged(s: Log, r: string, x: Reviewed, digest: Digest)
    requires Inv(s, digest) && Enabled(s, Finalize(r, x, true)) && Finalizes(s, r, x, true, digest)
    requires forall e :: Known(s, e) && e.requestId == r ==> e in x.events
    ensures Converged(Finalized(s, r, x, digest), r, x.events, {LlmConfigField, DataSourcesField})
  {
    InsertIssued(s, x.events, digest);
    assert RowOk(s.rows[r], digest);
    FinalizedRowOk(s.rows[r], x, digest);
    var s' := Finalized(s, r, x, digest);
    assert Lists(x.events, s'.table, r);
    forall trail | Lists(trail, s'.table, r) ensures Drift(s'.rows[r], trail) <= {LlmConfigField, DataSourcesField} {
      NoEventDrift(s'.rows[r], x.events, trail, s'.table, r);
      DriftOfRow(s'.rows[r], trail, digest);
    }
  }

  lemma StepKeepsIssued(s: Log, step: Step, e: Event, digest: Digest)
    requires Enabled(s, step) && IsIssued(s, e)
    ensures IsIssued(Next(s, step, digest), e)
  {
  }

  lemma {:induction false} IssuedStays(s: Log, steps: seq<Step>, e: Event, digest: Digest)
    requires EnabledRun(s, steps, digest) && IsIssued(s, e)
    ensures IsIssued(Run(s, steps, digest), e)
  {
    if steps != [] {
      IssuedStays(s, steps[..|steps| - 1], e, digest);
      StepKeepsIssued(Run(s, steps[..|steps| - 1], digest), steps[|steps| - 1], e, digest);
    }
  }

  /**
   The events are read in one transaction and the review written in a later one. Whatever happens between
   them, the release of the request's buffer included, the review can be written and its outcome drifts on
   its events exactly when an event of the request that was not known at the read had reached the table by
   the time of the write.
   */
  lemma FinalizeAfterRead(s: Log, steps: seq<Step>, r: string, x: Reviewed, persisted: seq<Event>, trail: seq<Event>, digest: Digest)
    requires Inv(s, digest) && EnabledRun(s, steps, digest)
    requires Lists(persisted, s.table, r) && x.events == ForFinalization(Buffered(s, r), persisted)
    requires Finalizes(Run(s, steps, digest), r, x, true, digest)
    requires Lists(trail, Finalized(Run(s, steps, digest), r, x, digest).table, r)
    ensures Enabled(Run(s, steps, digest), Finalize(r, x, true))
    ensures EventsField in Drift(Finalized(Run(s, steps, digest), r, x, digest).rows[r], trail) <==>
      exists e :: InTable(Run(s, steps, digest).table, e) && e.requestId == r && !Known(s, e)
  {
    var s2 := Run(s, steps, digest);
    FinalizationLosesNothing(s, r, persisted, digest);
    forall e | e in x.events ensures IsIssued(s2, e) {
      assert Known(s, e);
      IssuedStays(s, steps, e, digest);
    }
    EveryRunKeepsInv(s, steps, digest);
    FinalizeDrift(s2, r, x, trail, digest);
    forall e ensures InTable(s2.table, e) && e.requestId == r && e !in x.events <==>
                     InTable(s2.table, e) && e.requestId == r && !Known(s, e) {
    }
  }

  // ----- a commit interrupted -----

  /** The transaction of a commit, on the events copied from the buffer some time before. */
  predicate StoresCopy(s: Log, r: string, events: seq<Event>, report: Report, llmConfig: Integrity.Value, digest: Digest) {
    r !in s.rows && digest(BuildEnvelope(r, report, events, llmConfig)).Some? && Inserted(s.table, events).Some?
  }

  function CopyStored(s: Log, r: string, events: seq<Event>, report: Report, llmConfig: Integrity.Value, digest: Digest): Log
    requires StoresCopy(s, r, events, report, llmConfig, digest)
  {
    s.(rows := s.rows[r := NewRow(r, report, events, llmConfig, digest)], table := Inserted(s.table, events).value)
  }

  /** Uninterrupted, copy, transaction and release are the one step of a commit. */
  lemma CommitIsCopyStoreRelease(s: Log, r: string, report: Report, llmConfig: Integrity.Value, digest: Digest)
    ensures var events := Buffered(s, r);
      && (StoresCopy(s, r, events, report, llmConfig, digest) <==> Commits(s, r, report, llmConfig, true, digest))
      && (StoresCopy(s, r, events, report, llmConfig, digest) ==>
            Next(CopyStored(s, r, events, report, llmConfig, digest), Discard(r), digest)
            == Next(s, Commit(r, report, llmConfig, true), digest))
  {
  }

  lemma CopyStoredKeepsInv(s: Log, r: string, events: seq<Event>, report: Report, llmConfig: Integrity.Value, digest: Digest)
    requires Inv(s, digest) && Initial(report) && DistinctIds(events) && AllIssued(s, events)
    requires StoresCopy(s, r, events, report, llmConfig, digest)
    ensures var s' := CopyStored(s, r, events, report, llmConfig, digest);
      Inv(s', digest) && forall e :: InTable(s'.table, e) <==> InTable(s.table, e) || e in events
  {
    NewRowOk(r, report, events, llmConfig, digest);
    InsertIssued(s, events, digest);
    InsertKnows(s, events, digest);
    SameKnown(s.(table := Inserted(s.table, events).value), CopyStored(s, r, events, report, llmConfig, digest));
    RowReplaced(s.rows, r, NewRow(r, report, events, llmConfig, digest), digest);
  }

  /**
   Events may be logged for the request, by another thread, between the copying of its buffer and the
   transaction (before), and between the transaction and the release (between). The row then drifts on its
   events exactly when one that was not copied is in the table, and the release forgets exactly those that
   were not copied and whose write failed.
   */
  lemma InterruptedCommit(s: Log, before: seq<Step>, between: seq<Step>, r: string, report: Report, llmConfig: Integrity.Value,
                          trail: seq<Event>, digest: Digest)
    requires Inv(s, digest) && EnabledRun(s, before, digest) && Initial(report)
    requires StoresCopy(Run(s, before, digest), r, Buffered(s, r), report, llmConfig, digest)
    requires EnabledRun(CopyStored(Run(s, before, digest), r, Buffered(s, r), report, llmConfig, digest), between, digest)
    requires forall i :: 0 <= i < |between| ==> NoOutcome(between[i], r)
    requires Lists(trail, Run(CopyStored(Run(s, before, digest), r, Buffered(s, r), report, llmConfig, digest), between, digest).table, r)
    ensures var copied := Buffered(s, r);
      var full := Run(CopyStored(Run(s, before, digest), r, copied, report, llmConfig, digest), between, digest);
      var released := Next(full, Discard(r), digest);
      && Inv(released, digest) && r in released.rows
      && (EventsField in Drift(released.rows[r], trail) <==>
            exists e :: InTable(released.table, e) && e.requestId == r && e !in copied)
      && (forall e :: Known(full, e) && !Known(released, e) <==>
            e in Buffered(full, r) && e !in copied && !InTable(full.table, e))
  {
    var copied, s1 := Buffered(s, r), Run(s, before, digest);
    BufferedIssued(s, r, digest);
    forall e | e in copied ensures IsIssued(s1, e) {
      IssuedStays(s, before, e, digest);
    }
    EveryRunKeepsInv(s, before, digest);
    CopyStoredKeepsInv(s1, r, copied, report, llmConfig, digest);
    var s2 := CopyStored(s1, r, copied, report, llmConfig, digest);
    EveryRunKeepsInv(s2, between, digest);
    RunGrows(s2, between, r, digest);
    ReleaseAfterCopy(Run(s2, between, digest), r, copied, trail, digest);
  }

  lemma ReleaseAfterCopy(full: Log, r: string, copied: seq<Event>, trail: seq<Event>, digest: Digest)
    requires Inv(full, digest) && r in full.rows && full.rows[r].fullTrace.events == CanonicalOrder(copied)
    requires DistinctIds(copied) && forall e :: e in copied ==> e.requestId == r && InTable(full.table, e)
    requires Lists(trail, full.table, r)
    ensures var released := Next(full, Discard(r), digest);
      && Inv(released, digest) && r in released.rows
      && (EventsField in Drift(released.rows[r], trail) <==>
            exists e :: InTable(released.table, e) && e.requestId == r && e !in copied)
      && (forall e :: Known(full, e) && !Known(released, e) <==>
            e in Buffered(full, r) && e !in copied && !InTable(full.table, e))
  {
    StepKeepsInv(full, Discard(r), digest);
    EventDriftIff(full.rows[r], copied, trail);
    BufferedIssued(full, r, digest);
    forall e ensures Known(full, e) && !Known(Next(full, Discard(r), digest), e) <==>
                     e in Buffered(full, r) && e !in copied && !InTable(full.table, e) {
      DiscardForgets(full, r, digest, e);
    }
  }

  lemma FinalizeDrift(s: Log, r: string, x: Reviewed, trail: seq<Event>, digest: Digest)
    requires Inv(s, digest) && Enabled(s, Finalize(r, x, true)) && Finalizes(s, r, x, true, digest)
    requires Lists(trail, Finalized(s, r, x, digest).table, r)
    ensures EventsField in Drift(Finalized(s, r, x, digest).rows[r], trail) <==>
      exists e :: InTable(s.table, e) && e.requestId == r && e !in x.events
  {
    InsertIssued(s, x.events, digest);
    var s' := Finalized(s, r, x, digest);
    forall e ensures e in trail <==> (InTable(s.table, e) && e.requestId == r) || e in x.events {
      assert e in trail <==> InTable(s'.table, e) && e.requestId == r;
    }
    EventDriftIff(s'.rows[r], x.events, trail);
  }
}

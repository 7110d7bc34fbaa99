/**
 The objects of the audit path: the database (src/finvet/audit/database.py), the logger that buffers in
 front of it (src/finvet/audit/logger.py) and the finalizer that ends a request exactly once
 (src/finvet/api/execution.py). Each method is proved against a transition of AuditRecords or AuditTrail.

 A parameter `commits` says whether the method's transaction goes through when no key stops it; one
 that does not is rolled back (src/finvet/config/database.py:32-50).
 */
module AuditStore {
  import opened Wrappers
  import opened Sequences
  import opened Sorting
  import opened AuditRecords
  import opened AuditTrail
  import opened Checksums
  import Integrity

  datatype CommitResult = Stored | NotStored | Raised

  class AuditDatabase {
    const digest: Digest
    const llmConfig: Integrity.Value
    var rows: Rows
    var table: EventTable

    constructor (hash: Hash, llmConfig: Integrity.Value)
      ensures this.digest == ChecksumOf(hash) && this.llmConfig == llmConfig && rows == map[] && table == map[]
    {
      this.digest, this.llmConfig, rows, table := ChecksumOf(hash), llmConfig, map[], map[];
    }

    method LogEvent(e: Event, commits: bool) returns (ok: bool)
      modifies this`table
      ensures table == Written(old(table), e, commits)
      ensures ok == (commits && e.id !in old(table))
    {
      ok := commits && e.id !in table;
      if ok {
        table := table[e.id := e];
      }
    }

    /** The table as the transaction leaves it; None when a key is violated, which rolls it back. */
    method InsertMissingEvents(events: seq<Event>) returns (r: Option<EventTable>)
      ensures r == Inserted(table, events)
    {
      var existing := set e | e in events && e.id in table :: e.id;
      var added, violated := table, false;
      for i := 0 to |events|
        invariant Inserted(table, events[..i]) == if violated then None else Some(added)
      {
        assert events[..i + 1][..i] == events[..i];
        var e := events[i];
        if e.id != "" && e.id !in existing && !violated {
          violated := e.id in added;
          added := added[e.id := e];
        }
      }
      assert events[..|events|] == events;
      r := if violated then None else Some(added);
    }

    /** The checksum is taken before the transaction begins, so a refused envelope raises. */
    method CommitExecution(r: string, report: Report, events: seq<Event>, commits: bool) returns (result: CommitResult)
      modifies this
      ensures result == Raised <==> digest(BuildEnvelope(r, report, events, llmConfig)) == None
      ensures result == Stored <==> result != Raised && commits && r !in old(rows) && Inserted(old(table), events).Some?
      ensures rows == if result == Stored then old(rows)[r := NewRow(r, report, events, llmConfig, digest)] else old(rows)
      ensures table == if result == Stored then Inserted(old(table), events).value else old(table)
    {
      var envelope := BuildEnvelope(r, report, events, llmConfig);
      var checksum := digest(envelope);
      if checksum == None {
        return Raised;
      }
      var row := Row(r, report.claimText, report.verdict, report.confidence, report.agentsRun, |events|,
                     checksum.value, envelope, report.dataSources, llmConfig);
      var inserted := InsertMissingEvents(events);
      if !commits || r in rows || inserted == None {
        return NotStored;
      }
      rows, table := rows[r := row], inserted.value;
      return Stored;
    }

    /** claim_pending_review and claim_review_finalization, which differ in the value they wait for. */
    method Claim(r: string, from: Column, commits: bool) returns (result: ClaimResult)
      modifies this`rows
      ensures commits ==> (rows, result) == ClaimFrom(old(rows), r, from)
      ensures !commits ==> rows == old(rows) && result == Unavailable
    {
      if !commits {
        return Unavailable;
      }
      if r in rows && rows[r].verdict == from {
        rows := rows[r := rows[r].(verdict := Reviewing)];
        return Claimed;
      }
      return if r in rows then Conflict else Missing;
    }

    /** release_review_claim and restore_review_finalization_failed. */
    method Leave(r: string, to: Column, commits: bool) returns (changed: bool)
      modifies this`rows
      ensures commits ==> (rows, changed) == LeaveReviewing(old(rows), r, to)
      ensures !commits ==> rows == old(rows) && !changed
    {
      changed := commits && r in rows && rows[r].verdict == Reviewing;
      if changed {
        rows := rows[r := rows[r].(verdict := to)];
      }
    }

    method MarkReviewFinalizationFailed(r: string, recovery: Recovery, commits: bool) returns (ok: bool)
      modifies this`rows
      ensures commits ==> (rows, ok) == Mark(old(rows), r, recovery, digest)
      ensures !commits ==> rows == old(rows) && !ok
    {
      if !commits || r !in rows || rows[r].verdict != Reviewing {
        return false;
      }
      var row := rows[r];
      var envelope := row.fullTrace.(terminalStatus := Some(ReviewFinalizationFailed), recovery := Some(recovery));
      var checksum := digest(envelope);
      if checksum == None {
        return false;
      }
      row := row.(verdict := FinalizationFailed, fullTrace := envelope);
      row := row.(executionHash := checksum.value);
      rows := rows[r := row];
      return true;
    }

    method FinalizeReview(r: string, x: Reviewed, commits: bool) returns (ok: bool)
      modifies this
      ensures ok == (commits && r in old(rows) && old(rows)[r].verdict == Reviewing
                     && digest(FinalizedEnvelope(old(rows)[r], x)).Some? && Inserted(old(table), x.events).Some?)
      ensures rows == if ok then old(rows)[r := FinalizedRow(old(rows)[r], x, digest)] else old(rows)
      ensures table == if ok then Inserted(old(table), x.events).value else old(table)
    {
      var inserted := InsertMissingEvents(x.events);
      if !commits || r !in rows || rows[r].verdict != Reviewing || inserted == None {
        return false;
      }
      var row := rows[r];
      var envelope := BuildEnvelope(
        row.requestId,
        Report(row.claimText, Final(Some(x.verdict)), x.confidence, row.agentsRun, x.finalResponse,
               x.dataSources.GetOr(Integrity.Null), Some(ReviewDone)),
        x.events, Integrity.Null);
      envelope := envelope.(review := Some(ReviewBlock(x.decision, x.notes, row.executionHash)));
      var checksum := digest(envelope);
      if checksum == None {
        return false;
      }
      row := row.(verdict := Final(Some(x.verdict)), confidence := x.confidence, fullTrace := envelope);
      row := row.(executionHash := checksum.value, totalEvents := |x.events|);
      if x.dataSources.Some? {
        row := row.(dataSources := x.dataSources.value);
      }
      rows, table := rows[r := row], inserted.value;
      return true;
    }

    /** get_events: the request's events in the order of the query. */
    method GetEvents(r: string) returns (trail: seq<Event>)
      requires TableOk(table)
      ensures Lists(trail, table, r) && SortedBy(trail, EventKey)
    {
      var ids, found := table.Keys, [];
      while ids != {}
        invariant ids <= table.Keys && DistinctIds(found)
        invariant forall e :: e in found <==> InTable(table, e) && e.requestId == r && e.id !in ids
      {
        var id :| id in ids;
        if table[id].requestId == r {
          found := found + [table[id]];
        }
        ids := ids - {id};
      }
      trail := CanonicalOrder(found);
      SortBySorts(found, EventKey);
      SortKeepsDistinct(found);
    }
  }

  class AuditLogger {
    const db: AuditDatabase
    var buffers: map<string, seq<Event>>
    var lastWriteOk: bool
    /** Every event ever logged. */
    ghost var issued: map<string, Event>

    constructor (db: AuditDatabase)
      ensures this.db == db && buffers == map[] && lastWriteOk && issued == map[]
    {
      this.db, buffers, lastWriteOk, issued := db, map[], true, map[];
    }

    ghost function State(): Log
      reads this, db
    {
      Log(buffers, db.table, db.rows, issued)
    }

    /** Id and timestamp, taken from the clock and uuid4, come with the event. */
    method LogEvent(e: Event, bufferForExecution: bool, commits: bool)
      modifies this, db`table
      ensures State() == Next(old(State()), if bufferForExecution then Record(e, commits) else Note(e, commits), db.digest)
      ensures lastWriteOk == (commits && e.id !in old(db.table))
    {
      if bufferForExecution {
        var events := if e.requestId in buffers then buffers[e.requestId] else [];
        buffers := buffers[e.requestId := events + [e]];
      }
      issued := issued[e.id := e];
      lastWriteOk := db.LogEvent(e, commits);
    }

    /**
     The flag is shared and has no lock: between lists what calls on other threads set it to after this call
     has and before this call reads it.
     */
    method LogEventPersisted(e: Event, bufferForExecution: bool, commits: bool, between: seq<bool>) returns (ok: bool)
      modifies this, db`table
      ensures State() == Next(old(State()), if bufferForExecution then Record(e, commits) else Note(e, commits), db.digest)
      ensures ok == if between == [] then commits && e.id !in old(db.table) else between[|between| - 1]
      ensures between == [] ==> (ok ==> InTable(db.table, e))
    {
      LogEvent(e, bufferForExecution, commits);
      if between != [] {
        lastWriteOk := between[|between| - 1];
      }
      ok := lastWriteOk;
    }

    /** Only a stored run releases its buffer; a refused one raises past the release. */
    method CommitExecution(r: string, report: Report, commits: bool) returns (result: CommitResult)
      modifies this`buffers, db
      ensures State() == Next(old(State()), Commit(r, report, db.llmConfig, commits), db.digest)
      ensures result == Raised <==> Refused(old(State()), r, report, db.llmConfig, db.digest)
      ensures result == Stored <==> Commits(old(State()), r, report, db.llmConfig, commits, db.digest)
    {
      var events := if r in buffers then buffers[r] else [];
      result := db.CommitExecution(r, report, events, commits);
      if result == Stored {
        DiscardBuffer(r);
      }
    }

    method DiscardBuffer(r: string)
      modifies this`buffers
      ensures State() == Next(old(State()), Discard(r), db.digest)
    {
      buffers := buffers - {r};
    }

    /** None when the strict read fails. */
    method EventsForFinalization(r: string, readable: bool) returns (result: Option<seq<Event>>)
      requires TableOk(db.table)
      ensures result.Some? == readable
      ensures readable ==> exists persisted ::
        Lists(persisted, db.table, r) && result.value == ForFinalization(Buffered(State(), r), persisted)
    {
      if !readable {
        return None;
      }
      var persisted := db.GetEvents(r);
      var all := (if r in buffers then buffers[r] else []) + persisted;
      var merged := MergeById(all);
      result := Some(CanonicalOrder(merged));
    }

    /** The loop over both lists: the later of two events with one id takes the earlier's place. */
    static method MergeById(all: seq<Event>) returns (merged: seq<Event>)
      ensures merged == Merge(all)
    {
      merged := [];
      for i := 0 to |all|
        invariant merged == Merge(all[..i])
      {
        assert all[..i + 1][..i] == all[..i];
        if all[i].id != "" {
          merged := Upsert(merged, all[i]);
        }
      }
      assert all[..|all|] == all;
    }
  }

  // ----- exactly-once terminalization -----

  /** The parts of a response body that are recorded; rejects: its status or its verdict says rejected. */
  datatype Response = Response(
    rejects: bool, verdict: Column, confidence: Integrity.Value, dataSources: Integrity.Value, body: Integrity.Value)

  datatype RunState = RunState(hitlRequired: bool, hitlGatePassed: bool, agentsRun: seq<string>)

  /** An empty response counts as none. */
  function DeriveTerminalStatus(state: RunState, response: Option<Response>): TerminalStatus {
    if state.hitlRequired && !state.hitlGatePassed then PendingReview
    else if response == None then Error
    else if response.value.rejects then Rejected
    else Success
  }

  /** ChecksumRefused: the exception of the checksum passes through finish. */
  datatype Outcome = Recorded | FinalizedTwice | NotPersisted | ChecksumRefused

  function ReportOf(claimText: string, status: TerminalStatus, agentsRun: seq<string>, response: Response): Report {
    Report(claimText, response.verdict, response.confidence, agentsRun, response.body, response.dataSources, Some(status))
  }

  /** The end of a run that had not ended: a commit that goes through, the buffer given up, or an exception that leaves all as it was. */
  ghost predicate Ended(before: Log, after: Log, r: string, report: Report, db: AuditDatabase, commits: bool, outcome: Outcome) {
    if Refused(before, r, report, db.llmConfig, db.digest) then
      outcome == ChecksumRefused && after == before
    else if Commits(before, r, report, db.llmConfig, commits, db.digest) then
      outcome == Recorded && after == Next(before, Commit(r, report, db.llmConfig, commits), db.digest)
    else
      outcome == NotPersisted && after == Next(before, Discard(r), db.digest)
  }

  class ExecutionFinalizer {
    const audit: AuditLogger
    const requestId: string
    const claimText: string
    var finished: bool

    constructor (audit: AuditLogger, requestId: string, claimText: string)
      ensures this.audit == audit && this.requestId == requestId && this.claimText == claimText && !finished
    {
      this.audit, this.requestId, this.claimText, finished := audit, requestId, claimText, false;
    }

    /**
     Only the first call does anything: it commits, gives the buffer up, or raises because the envelope's
     checksum is refused, after which no later call can record the run.
     */
    method Finish(status: TerminalStatus, agentsRun: seq<string>, response: Response, commits: bool) returns (outcome: Outcome)
      modifies this, audit`buffers, audit.db
      ensures finished
      ensures old(finished) ==> outcome == FinalizedTwice && audit.State() == old(audit.State())
      ensures !old(finished) ==>
        Ended(old(audit.State()), audit.State(), requestId, ReportOf(claimText, status, agentsRun, response), audit.db, commits, outcome)
    {
      if finished {
        return FinalizedTwice;
      }
      finished := true;
      var result := audit.CommitExecution(requestId, ReportOf(claimText, status, agentsRun, response), commits);
      if result == Raised {
        return ChecksumRefused;
      }
      if result == NotStored {
        audit.DiscardBuffer(requestId);
        return NotPersisted;
      }
      return Recorded;
    }

    /** Nothing is left to drop once Finish has run, unless it raised. */
    method Release()
      modifies audit`buffers
      ensures audit.State() == Next(old(audit.State()), Discard(requestId), audit.db.digest)
      ensures requestId !in old(audit.buffers) ==> audit.State() == old(audit.State())
    {
      audit.DiscardBuffer(requestId);
    }

    /** The pending and failed bodies are built elsewhere; only their recorded parts matter here. */
    method FinishPipelineOutcome(state: RunState, response: Option<Response>, pending: Response, failed: Response, commits: bool)
      returns (outcome: Outcome)
      modifies this, audit`buffers, audit.db
      ensures finished
      ensures old(finished) ==> outcome == FinalizedTwice && audit.State() == old(audit.State())
      ensures !old(finished) ==>
        var report := ReportOf(claimText, DeriveTerminalStatus(state, response), state.agentsRun,
                               PipelineBody(state, response, pending, failed));
        Ended(old(audit.State()), audit.State(), requestId, report, audit.db, commits, outcome)
    {
      var status := DeriveTerminalStatus(state, response);
      var body := failed;
      if status == PendingReview {
        body := pending;
      } else if status != Error {
        body := response.value;
      }
      outcome := Finish(status, state.agentsRun, body, commits);
    }
  }

  function PipelineBody(state: RunState, response: Option<Response>, pending: Response, failed: Response): Response {
    if DeriveTerminalStatus(state, response) == PendingReview then pending
    else if response == None then failed
    else response.value
  }

  /**
   How a request's run ends: recorded if the store lets it, given up with its buffer otherwise, or left as it
   was when its checksum is refused; other requests' buffers and rows are as they were.
   */
  lemma HowARunEnds(before: Log, after: Log, r: string, report: Report, db: AuditDatabase, commits: bool, outcome: Outcome)
    requires Ended(before, after, r, report, db, commits, outcome)
    ensures after.buffers == if outcome == ChecksumRefused then before.buffers else before.buffers - {r}
    ensures forall k :: k != r ==> (k in after.rows <==> k in before.rows) && (k in before.rows ==> after.rows[k] == before.rows[k])
    ensures outcome == Recorded ==> r !in before.rows && r in after.rows && after.rows[r].verdict == report.verdict
    ensures outcome != Recorded ==> after.rows == before.rows && after.table == before.table
  {
  }

  /** The body recorded: the paused one, the failed one, or the graph's own response, and the status it is recorded with. */
  ghost predicate RecordedAs(state: RunState, response: Option<Response>, pending: Response, failed: Response,
                             body: Response, status: TerminalStatus) {
    if state.hitlRequired && !state.hitlGatePassed then body == pending && status == PendingReview
    else if response == None then body == failed && status == Error
    else body == response.value && status == if body.rejects then Rejected else Success
  }

  /**
   The row of a recorded run shows what ended it: claim, agents, verdict, confidence and sources of that body
   in its columns, and the body, its status and all buffered events of the request in its envelope.
   */
  lemma WhatARunRecords(before: Log, after: Log, r: string, claim: string, state: RunState, response: Option<Response>,
                        pending: Response, failed: Response, db: AuditDatabase, commits: bool)
    requires Ended(before, after, r,
                   ReportOf(claim, DeriveTerminalStatus(state, response), state.agentsRun, PipelineBody(state, response, pending, failed)),
                   db, commits, Recorded)
    ensures r in after.rows
    ensures exists body, status ::
      && RecordedAs(state, response, pending, failed, body, status)
      && var row := after.rows[r];
         && row.requestId == r && row.claimText == claim && row.agentsRun == state.agentsRun
         && row.verdict == body.verdict && row.confidence == body.confidence && row.dataSources == body.dataSources
         && row.llmConfig == db.llmConfig && row.totalEvents == |Buffered(before, r)|
         && row.fullTrace.requestId == r && row.fullTrace.claim == claim && row.fullTrace.agentsRun == state.agentsRun
         && row.fullTrace.verdict == body.verdict && row.fullTrace.confidence == body.confidence
         && row.fullTrace.finalResponse == body.body && row.fullTrace.dataSources == body.dataSources
         && row.fullTrace.llmConfig == db.llmConfig && row.fullTrace.terminalStatus == Some(status)
         && row.fullTrace.review == None && row.fullTrace.recovery == None
         && multiset(row.fullTrace.events) == multiset(Buffered(before, r))
  {
    var body, status := PipelineBody(state, response, pending, failed), DeriveTerminalStatus(state, response);
    CanonicalOrderIsByTime(Buffered(before, r));
    assert RecordedAs(state, response, pending, failed, body, status);
  }

  /** Once it is released too, the request's buffer is gone however its run ended, and nothing else is. */
  lemma ReleasedAfterEnd(before: Log, after: Log, r: string, report: Report, db: AuditDatabase, commits: bool, outcome: Outcome)
    requires Ended(before, after, r, report, db, commits, outcome)
    ensures var released := Next(after, Discard(r), db.digest);
      && released.buffers == before.buffers - {r} && Buffered(released, r) == []
      && released.rows == after.rows && released.table == after.table
  {
  }

  /** The checksum is refused exactly when the envelope of the report and the buffered events holds a value it cannot represent. */
  lemma RefusedExactly(before: Log, after: Log, r: string, report: Report, db: AuditDatabase, commits: bool, outcome: Outcome,
                       hash: Hash)
    requires Ended(before, after, r, report, db, commits, outcome) && db.digest == ChecksumOf(hash)
    ensures var e := BuildEnvelope(r, report, Buffered(before, r), db.llmConfig);
      && (outcome == ChecksumRefused <==> Integrity.Canonical(EnvelopeValue(e)) == None)
      && (outcome == ChecksumRefused <==> !Hashable(e))
  {
    ChecksumDefined(BuildEnvelope(r, report, Buffered(before, r), db.llmConfig), hash);
  }

  /** A response that shows, as it does, how the claim was read: the value it names among other things. */
  function ResponseShowing(value: Integrity.Value, verdict: string, confidence: real): Response {
    var view := Integrity.Dict([(Integrity.StrKey("value"), value)]);
    Response(false, Final(Some(verdict)), Integrity.Float(confidence), Integrity.Null,
             Integrity.Dict([(Integrity.StrKey("parsed_claim"), view)]))
  }

  /**
   A claimed value that is not finite ends the run with no row, whatever the verdict, and with its buffer kept
   until it is released: the finalizer has finished, so the error body that would be recorded instead cannot
   be.
   */
  lemma NonFiniteClaimLeavesNoRow(before: Log, after: Log, r: string, claim: string, verdict: string, confidence: real,
                                  db: AuditDatabase, hash: Hash, commits: bool, outcome: Outcome)
    requires db.digest == ChecksumOf(hash) && r !in before.rows
    requires Ended(before, after, r,
                   ReportOf(claim, Success, [], ResponseShowing(Integrity.NonFiniteFloat, verdict, confidence)),
                   db, commits, outcome)
    ensures outcome == ChecksumRefused && r !in after.rows && Buffered(after, r) == Buffered(before, r)
  {
    var report := ReportOf(claim, Success, [], ResponseShowing(Integrity.NonFiniteFloat, verdict, confidence));
    NonFiniteIsShown(verdict, confidence);
    ChecksumDefined(BuildEnvelope(r, report, Buffered(before, r), db.llmConfig), hash);
  }

  lemma NonFiniteIsShown(verdict: string, confidence: real)
    ensures !Integrity.Representable(ResponseShowing(Integrity.NonFiniteFloat, verdict, confidence).body)
  {
    var body := ResponseShowing(Integrity.NonFiniteFloat, verdict, confidence).body;
    var view := body.entries[0].1;
    assert view.entries[0].1 == Integrity.NonFiniteFloat;
    assert !Integrity.Representable(view);
  }

  /** A recorded request can never be recorded again, by this finalizer or another. */
  lemma CommittedOnce(before: Log, after: Log, r: string, report: Report, db: AuditDatabase, commits: bool,
                      again: Log, report': Report, commits': bool, outcome': Outcome)
    requires Ended(before, after, r, report, db, commits, Recorded)
    requires Ended(after, again, r, report', db, commits', outcome')
    ensures outcome' != Recorded && again.rows == after.rows && again.table == after.table
  {
  }

  /** With a paused body that says PENDING, the row waits for review exactly when the run was paused. */
  lemma PausedIffPending(state: RunState, response: Option<Response>, pending: Response, failed: Response, claim: string)
    requires pending.verdict == Pending && failed.verdict == Final(None)
    requires response.Some? ==> response.value.verdict != Pending
    ensures var body := PipelineBody(state, response, pending, failed);
      ReportOf(claim, DeriveTerminalStatus(state, response), state.agentsRun, body).verdict == Pending <==>
      state.hitlRequired && !state.hitlGatePassed
  {
  }
}

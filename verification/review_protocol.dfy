/**
 Reviewers and reconcilers working on paused rows at the same time, any of them crashing and any
 transaction failing (src/finvet/api/routes/review.py over src/finvet/audit/database.py).

 A claim is a conditional update, so only the caller told "claimed" goes on. Entering the graph is the
 divide: before it a failure releases the row, from it onward a failure marks it for reconciliation.
 */
module ReviewProtocol {
  import opened Wrappers
  import opened AuditRecords
  import opened AuditTrail
  import opened Checksums

  /** What a live request handler is doing; a handler with nothing to do is not in the map. */
  datatype Client =
    | Holding(id: string, decision: ReviewDecision)
    | InGraph(id: string, decision: ReviewDecision)
    | Reconciling(id: string)

  /** entered is a record for the proofs: the requests whose graph was resumed, and on what decision. */
  datatype System = System(log: Log, clients: map<nat, Client>, entered: map<string, ReviewDecision>)

  datatype Move =
    | Store(step: Step)
    | TakePending(client: nat, id: string, decision: ReviewDecision, committed: bool)
    | GiveBack(client: nat, committed: bool)
    | Enter(client: nat)
    | MarkFailed(client: nat, recovery: Recovery, committed: bool)
    | Complete(client: nat, reviewed: Reviewed, readable: bool, committed: bool)
    | TakeFailed(client: nat, id: string, committed: bool)
    | PutBack(client: nat, committed: bool)
    | Crash(client: nat)

  /** The decision on record for a retry; approval if none is. */
  function RecordedDecision(row: Row): ReviewDecision {
    if row.fullTrace.recovery == None then Approve else row.fullTrace.recovery.value.decision
  }

  /** The decision a reconciler reuses: get_execution answers None when it cannot read, and that reads as approval. */
  function ReadDecision(row: Row, readable: bool): ReviewDecision {
    if readable then RecordedDecision(row) else Approve
  }

  predicate Busy(s: System, c: nat) {
    c in s.clients
  }

  predicate Claims(s: System, r: string, from: Column, committed: bool) {
    committed && r in s.log.rows && s.log.rows[r].verdict == from
  }

  /** What a handler does in the state it is in. */
  ghost predicate Permitted(s: System, m: Move) {
    match m
    case Store(step) => Enabled(s.log, step) && (step.Record? || step.Note? || step.Commit? || step.Discard?)
    case TakePending(c, _, _, _) => !Busy(s, c)
    case TakeFailed(c, _, _) => !Busy(s, c)
    case GiveBack(c, _) => Busy(s, c) && s.clients[c].Holding?
    case Enter(c) => Busy(s, c) && s.clients[c].Holding?
    case MarkFailed(c, recovery, _) => Busy(s, c) && s.clients[c].InGraph? && recovery.decision == s.clients[c].decision
    case Complete(c, x, readable, _) =>
      && Busy(s, c) && !s.clients[c].Holding? && Enabled(s.log, Finalize(s.clients[c].id, x, true))
      && (s.clients[c].InGraph? ==> x.decision == s.clients[c].decision)
      && (s.clients[c].Reconciling? && s.clients[c].id in s.log.rows ==>
            x.decision == ReadDecision(s.log.rows[s.clients[c].id], readable))
    case PutBack(c, _) => Busy(s, c) && s.clients[c].Reconciling?
    case Crash(c) => Busy(s, c)
  }

  /** The call a move makes on the store; Enter and Crash make none. */
  function CallOf(s: System, m: Move): Option<Step> {
    match m
    case Store(step) => Some(step)
    case TakePending(_, r, _, ok) => Some(Claim(r, Pending, ok))
    case TakeFailed(_, r, ok) => Some(Claim(r, FinalizationFailed, ok))
    case GiveBack(c, ok) => if Busy(s, c) then Some(Leave(s.clients[c].id, Pending, ok)) else None
    case MarkFailed(c, recovery, ok) => if Busy(s, c) then Some(Fail(s.clients[c].id, recovery, ok)) else None
    case Complete(c, x, _, ok) => if Busy(s, c) then Some(Finalize(s.clients[c].id, x, ok)) else None
    case PutBack(c, ok) => if Busy(s, c) then Some(Leave(s.clients[c].id, FinalizationFailed, ok)) else None
    case _ => None
  }

  function Clients(s: System, m: Move, digest: Digest): map<nat, Client> {
    match m
    case Store(_) => s.clients
    case TakePending(c, r, decision, ok) =>
      if Claims(s, r, Pending, ok) then s.clients[c := Holding(r, decision)] else s.clients
    case TakeFailed(c, r, ok) =>
      if Claims(s, r, FinalizationFailed, ok) then s.clients[c := Reconciling(r)] else s.clients
    case Enter(c) =>
      if Busy(s, c) && s.clients[c].Holding? then s.clients[c := InGraph(s.clients[c].id, s.clients[c].decision)] else s.clients
    case Complete(c, x, _, ok) =>
      if Busy(s, c) && Finalizes(s.log, s.clients[c].id, x, ok, digest) then s.clients - {c} else s.clients
    case _ => s.clients - {m.client}
  }

  function After(s: System, m: Move, digest: Digest): System {
    var call := CallOf(s, m);
    System(
      if call == None then s.log else Next(s.log, call.value, digest),
      Clients(s, m, digest),
      if m.Enter? && Busy(s, m.client) && s.clients[m.client].Holding?
      then s.entered[s.clients[m.client].id := s.clients[m.client].decision]
      else s.entered)
  }

  // ----- the invariant -----

  /** Live handlers hold different requests, whose rows are REVIEWING, on the right side of the divide. */
  ghost predicate HoldersOk(s: System) {
    && (forall c :: c in s.clients ==> HolderOk(s, s.clients[c]))
    && (forall c, d :: c in s.clients && d in s.clients && s.clients[c].id == s.clients[d].id ==> c == d)
  }

  ghost predicate HolderOk(s: System, client: Client) {
    client.id in s.log.rows && s.log.rows[client.id].verdict == Reviewing && SideOk(s, client)
  }

  ghost predicate SideOk(s: System, client: Client) {
    match client
    case Holding(r, _) => r !in s.entered
    case InGraph(r, decision) => r in s.entered && s.entered[r] == decision
    case Reconciling(r) => Recoverable(s, r)
  }

  /** The row carries the decision its graph was resumed on. */
  ghost predicate Recoverable(s: System, r: string) {
    && r in s.entered && r in s.log.rows
    && s.log.rows[r].fullTrace.recovery.Some? && RecordedDecision(s.log.rows[r]) == s.entered[r]
  }

  /** Rows whose graph was entered are past PENDING, and only those await reconciliation or carry a review. */
  ghost predicate EntryOk(s: System, r: string) {
    && (r in s.entered ==> r in s.log.rows && s.log.rows[r].verdict != Pending)
    && (r in s.log.rows && s.log.rows[r].verdict == FinalizationFailed ==> Recoverable(s, r))
    && (r in s.log.rows && s.log.rows[r].fullTrace.review.Some? ==>
          r in s.entered)
  }

  ghost predicate ProtocolInv(s: System, digest: Digest) {
    Inv(s.log, digest) && HoldersOk(s) && forall r :: EntryOk(s, r)
  }

  lemma NewSystemOk(digest: Digest)
    ensures ProtocolInv(System(Log(map[], map[], map[], map[]), map[], map[]), digest)
  {
  }

  /** A permitted move makes an enabled call, so what holds of every run of the log holds here. */
  lemma CallsAreEnabled(s: System, m: Move, digest: Digest)
    requires Permitted(s, m) && Inv(s.log, digest)
    ensures Inv(After(s, m, digest).log, digest)
  {
    var call := CallOf(s, m);
    if call.Some? {
      StepKeepsInv(s.log, call.value, digest);
    }
  }

  /** Rows a move touches: none but the one its client works on, claims or submits. */
  function Subject(s: System, m: Move): Option<string> {
    match m
    case Store(step) => if step.Commit? then Some(step.id) else None
    case TakePending(_, r, _, _) => Some(r)
    case TakeFailed(_, r, _) => Some(r)
    case _ => if Busy(s, m.client) then Some(s.clients[m.client].id) else None
  }

  /** The subject's row after a move. */
  function Changed(s: System, m: Move, r: string, row: Row, digest: Digest): Row {
    match m
    case TakePending(_, _, _, ok) => if Claims(s, r, Pending, ok) then row.(verdict := Reviewing) else row
    case TakeFailed(_, _, ok) => if Claims(s, r, FinalizationFailed, ok) then row.(verdict := Reviewing) else row
    case GiveBack(_, ok) => if ok then row.(verdict := Pending) else row
    case PutBack(_, ok) => if ok then row.(verdict := FinalizationFailed) else row
    case MarkFailed(_, recovery, ok) =>
      if ok && digest(MarkedEnvelope(row.fullTrace, recovery)).Some? then MarkedRow(row, recovery, digest) else row
    case Complete(_, x, _, ok) =>
      if r in s.log.rows && s.log.rows[r] == row && Finalizes(s.log, r, x, ok, digest) then FinalizedRow(row, x, digest) else row
    case _ => row
  }

  ghost predicate SameRow(s: System, s': System, r: string) {
    && (r in s'.log.rows <==> r in s.log.rows) && (r in s.log.rows ==> s'.log.rows[r] == s.log.rows[r])
    && (r in s'.entered <==> r in s.entered) && (r in s.entered ==> s'.entered[r] == s.entered[r])
  }

  ghost predicate FirstRow(row: Row) {
    row.fullTrace.review == None && (row.verdict == Pending || row.verdict.Final?)
  }

  /** What a move does to the row of its subject, and to no other. */
  ghost predicate RowMove(s: System, s': System, m: Move, r: string, digest: Digest)
    requires Permitted(s, m)
  {
    if Subject(s, m) != Some(r) then SameRow(s, s', r)
    else
      && (r in s.log.rows ==> r in s'.log.rows && s'.log.rows[r] == Changed(s, m, r, s.log.rows[r], digest))
      && (r !in s.log.rows && r in s'.log.rows ==> FirstRow(s'.log.rows[r]))
      && s'.entered == if m.Enter? then s.entered[r := s.clients[m.client].decision] else s.entered
  }

  lemma OtherRowsUntouched(s: System, m: Move, r: string, digest: Digest)
    requires Permitted(s, m) && Subject(s, m) != Some(r)
    ensures SameRow(s, After(s, m, digest), r)
  {
    var call := CallOf(s, m);
    if call.Some? {
      OneRowPerStep(s.log, call.value, r, digest);
    }
  }

  lemma HolderMovesItsRow(s: System, m: Move, r: string, digest: Digest)
    requires Permitted(s, m) && HoldersOk(s) && Subject(s, m) == Some(r)
    requires m.GiveBack? || m.PutBack? || m.MarkFailed? || m.Enter? || m.Crash?
    ensures RowMove(s, After(s, m, digest), m, r, digest)
  {
    assert HolderOk(s, s.clients[m.client]);
  }

  lemma HolderCompletesItsRow(s: System, m: Move, r: string, digest: Digest)
    requires Permitted(s, m) && HoldersOk(s) && Subject(s, m) == Some(r) && m.Complete?
    ensures RowMove(s, After(s, m, digest), m, r, digest)
  {
    assert HolderOk(s, s.clients[m.client]);
  }

  lemma ClaimMovesItsRow(s: System, m: Move, r: string, digest: Digest)
    requires Permitted(s, m) && Subject(s, m) == Some(r) && (m.Store? || m.TakePending? || m.TakeFailed?)
    ensures RowMove(s, After(s, m, digest), m, r, digest)
  {
  }

  lemma MovesItsRow(s: System, m: Move, r: string, digest: Digest)
    requires Permitted(s, m) && HoldersOk(s)
    ensures RowMove(s, After(s, m, digest), m, r, digest)
  {
    if Subject(s, m) != Some(r) {
      OtherRowsUntouched(s, m, r, digest);
    } else if m.Complete? {
      HolderCompletesItsRow(s, m, r, digest);
    } else if m.Store? || m.TakePending? || m.TakeFailed? {
      ClaimMovesItsRow(s, m, r, digest);
    } else {
      HolderMovesItsRow(s, m, r, digest);
    }
  }

  lemma CompletionKeepsEntry(s: System, s': System, m: Move, r: string, digest: Digest)
    requires HoldersOk(s) && EntryOk(s, r) && Permitted(s, m) && m.Complete? && Subject(s, m) == Some(r)
    requires RowMove(s, s', m, r, digest)
    ensures EntryOk(s', r)
  {
    assert HolderOk(s, s.clients[m.client]);
  }

  lemma RowMoveKeepsEntry(s: System, s': System, m: Move, r: string, digest: Digest)
    requires HoldersOk(s) && EntryOk(s, r) && Permitted(s, m) && RowMove(s, s', m, r, digest)
    ensures EntryOk(s', r)
  {
    if m.Complete? && Subject(s, m) == Some(r) {
      CompletionKeepsEntry(s, s', m, r, digest);
    } else if !m.Store? && Busy(s, m.client) {
      assert HolderOk(s, s.clients[m.client]);
    }
  }

  lemma UntouchedHolder(s: System, s': System, m: Move, c: nat, digest: Digest)
    requires HoldersOk(s) && Permitted(s, m) && c in s.clients && s'.clients == Clients(s, m, digest) && c in s'.clients
    requires Subject(s, m) != Some(s.clients[c].id) && SameRow(s, s', s.clients[c].id)
    ensures HolderOk(s', s'.clients[c])
  {
    assert HolderOk(s, s.clients[c]) && s'.clients[c] == s.clients[c];
  }

  /** A claim finds the row REVIEWING and so leaves it, and its holder, alone. */
  lemma HolderUnderClaim(s: System, s': System, m: Move, c: nat, digest: Digest)
    requires HoldersOk(s) && Permitted(s, m) && c in s.clients && s'.clients == Clients(s, m, digest) && c in s'.clients
    requires Subject(s, m) == Some(s.clients[c].id) && (m.Store? || m.TakePending? || m.TakeFailed?)
    requires RowMove(s, s', m, s.clients[c].id, digest)
    ensures HolderOk(s', s'.clients[c])
  {
    assert HolderOk(s, s.clients[c]) && s'.clients == s.clients;
  }

  lemma HolderItself(s: System, s': System, m: Move, c: nat, digest: Digest)
    requires HoldersOk(s) && Permitted(s, m) && c in s.clients && s'.clients == Clients(s, m, digest) && c in s'.clients
    requires EntryOk(s, s.clients[c].id) && Subject(s, m) == Some(s.clients[c].id) && (m.Enter? || m.Complete?) && m.client == c
    requires RowMove(s, s', m, s.clients[c].id, digest)
    ensures HolderOk(s', s'.clients[c])
  {
    assert HolderOk(s, s.clients[c]);
  }

  /** A handler that was at work before and after a move. */
  lemma RowMoveKeepsHolder(s: System, s': System, m: Move, c: nat, digest: Digest)
    requires HoldersOk(s) && Permitted(s, m) && c in s.clients && s'.clients == Clients(s, m, digest) && c in s'.clients
    requires EntryOk(s, s.clients[c].id) && RowMove(s, s', m, s.clients[c].id, digest)
    ensures HolderOk(s', s'.clients[c])
  {
    if Subject(s, m) != Some(s.clients[c].id) {
      UntouchedHolder(s, s', m, c, digest);
    } else if m.Store? || m.TakePending? || m.TakeFailed? {
      HolderUnderClaim(s, s', m, c, digest);
    } else {
      assert m.client == c;
      HolderItself(s, s', m, c, digest);
    }
  }

  lemma NewHolderOk(s: System, s': System, m: Move, c: nat, digest: Digest)
    requires HoldersOk(s) && Permitted(s, m) && c !in s.clients && s'.clients == Clients(s, m, digest) && c in s'.clients
    requires EntryOk(s, s'.clients[c].id) && RowMove(s, s', m, s'.clients[c].id, digest)
    ensures HolderOk(s', s'.clients[c])
  {
  }

  lemma HoldersDiffer(s: System, m: Move, digest: Digest)
    requires HoldersOk(s) && Permitted(s, m)
    ensures forall c, d :: c in Clients(s, m, digest) && d in Clients(s, m, digest) && Clients(s, m, digest)[c].id == Clients(s, m, digest)[d].id ==> c == d
  {
    forall c | c in s.clients ensures HolderOk(s, s.clients[c]) {
    }
  }

  lemma HolderKept(s: System, m: Move, c: nat, digest: Digest)
    requires HoldersOk(s) && Permitted(s, m) && c in Clients(s, m, digest) && EntryOk(s, Clients(s, m, digest)[c].id)
    ensures HolderOk(After(s, m, digest), Clients(s, m, digest)[c])
  {
    var s', r := After(s, m, digest), Clients(s, m, digest)[c].id;
    MovesItsRow(s, m, r, digest);
    if c in s.clients {
      RowMoveKeepsHolder(s, s', m, c, digest);
    } else {
      NewHolderOk(s, s', m, c, digest);
    }
  }

  lemma MoveKeepsHolders(s: System, m: Move, digest: Digest)
    requires ProtocolInv(s, digest) && Permitted(s, m)
    ensures HoldersOk(After(s, m, digest))
  {
    HoldersDiffer(s, m, digest);
    forall c | c in Clients(s, m, digest) ensures HolderOk(After(s, m, digest), Clients(s, m, digest)[c]) {
      assert EntryOk(s, Clients(s, m, digest)[c].id);
      HolderKept(s, m, c, digest);
    }
  }

  lemma MoveKeepsEntries(s: System, m: Move, r: string, digest: Digest)
    requires ProtocolInv(s, digest) && Permitted(s, m)
    ensures EntryOk(After(s, m, digest), r)
  {
    MovesItsRow(s, m, r, digest);
    RowMoveKeepsEntry(s, After(s, m, digest), m, r, digest);
  }

  lemma MoveKeepsInv(s: System, m: Move, digest: Digest)
    requires ProtocolInv(s, digest) && Permitted(s, m)
    ensures ProtocolInv(After(s, m, digest), digest)
  {
    CallsAreEnabled(s, m, digest);
    MoveKeepsHolders(s, m, digest);
    forall r {
      MoveKeepsEntries(s, m, r, digest);
    }
  }

  // ----- runs -----

  function Play(s: System, moves: seq<Move>, digest: Digest): System {
    if moves == [] then s else After(Play(s, moves[..|moves| - 1], digest), moves[|moves| - 1], digest)
  }

  ghost predicate Plays(s: System, moves: seq<Move>, digest: Digest) {
    moves != [] ==>
      && Plays(s, moves[..|moves| - 1], digest)
      && Permitted(Play(s, moves[..|moves| - 1], digest), moves[|moves| - 1])
  }

  lemma OneMove(s: System, m: Move, digest: Digest)
    ensures Play(s, [m], digest) == After(s, m, digest)
    ensures Plays(s, [m], digest) <==> Permitted(s, m)
  {
    assert [m][..0] == [];
    assert Play(s, [m][..0], digest) == s;
  }

  /** At most one live handler per request, its row REVIEWING; no entered row PENDING; and the log consistent. */
  lemma {:induction false} EveryPlayKeepsInv(s: System, moves: seq<Move>, digest: Digest)
    requires ProtocolInv(s, digest) && Plays(s, moves, digest)
    ensures ProtocolInv(Play(s, moves, digest), digest)
  {
    if moves != [] {
      EveryPlayKeepsInv(s, moves[..|moves| - 1], digest);
      MoveKeepsInv(Play(s, moves[..|moves| - 1], digest), moves[|moves| - 1], digest);
    }
  }

  /** No move removes a row, or changes one that has a verdict. */
  lemma RowsStay(s: System, m: Move, r: string, digest: Digest)
    requires HoldersOk(s) && Permitted(s, m) && r in s.log.rows
    ensures var rows := After(s, m, digest).log.rows;
      r in rows && (s.log.rows[r].verdict.Final? ==> rows[r] == s.log.rows[r])
  {
    MovesItsRow(s, m, r, digest);
  }

  /** A row with a verdict of its own is never changed again, in any field. */
  lemma {:induction false} TerminalRowsStay(s: System, moves: seq<Move>, r: string, digest: Digest)
    requires ProtocolInv(s, digest) && Plays(s, moves, digest)
    requires r in s.log.rows && s.log.rows[r].verdict.Final?
    ensures r in Play(s, moves, digest).log.rows && Play(s, moves, digest).log.rows[r] == s.log.rows[r]
  {
    if moves != [] {
      var front := moves[..|moves| - 1];
      TerminalRowsStay(s, front, r, digest);
      EveryPlayKeepsInv(s, front, digest);
      RowsStay(Play(s, front, digest), moves[|moves| - 1], r, digest);
    }
  }

  /** Once the graph was entered on a decision, that stays the decision and the row never returns to PENDING. */
  lemma {:induction false} EnteredRowsNeverReturn(s: System, moves: seq<Move>, r: string, digest: Digest)
    requires ProtocolInv(s, digest) && Plays(s, moves, digest) && r in s.entered
    ensures var s' := Play(s, moves, digest);
      && r in s'.entered && s'.entered[r] == s.entered[r]
      && r in s'.log.rows && s'.log.rows[r].verdict != Pending
  {
    if moves != [] {
      EnteredRowsNeverReturn(s, moves[..|moves| - 1], r, digest);
      EveryPlayKeepsInv(s, moves[..|moves| - 1], digest);
    }
    EveryPlayKeepsInv(s, moves, digest);
    assert EntryOk(Play(s, moves, digest), r);
  }

  /** The i-th move of the run resumes r's graph. */
  ghost predicate EntersAt(s: System, moves: seq<Move>, i: int, r: string, digest: Digest) {
    && 0 <= i < |moves| && moves[i].Enter?
    && var clients := Play(s, moves[..i], digest).clients;
       moves[i].client in clients && clients[moves[i].client].id == r
  }

  lemma EntersInFront(s: System, moves: seq<Move>, i: int, r: string, digest: Digest)
    requires moves != [] && 0 <= i < |moves|
    ensures var front := moves[..|moves| - 1];
      EntersAt(s, moves, i, r, digest) <==>
      if i < |front| then EntersAt(s, front, i, r, digest)
      else moves[i].Enter? && Busy(Play(s, front, digest), moves[i].client) && Play(s, front, digest).clients[moves[i].client].id == r
  {
    if i < |moves| - 1 {
      assert moves[..|moves| - 1][..i] == moves[..i];
    }
  }

  /** A request's graph is entered in a run exactly if some move resumes it. */
  lemma {:induction false} EnteredIff(s: System, moves: seq<Move>, r: string, digest: Digest)
    requires ProtocolInv(s, digest) && Plays(s, moves, digest)
    ensures r in Play(s, moves, digest).entered <==> r in s.entered || exists i :: EntersAt(s, moves, i, r, digest)
  {
    if moves != [] {
      var front := moves[..|moves| - 1];
      EnteredIff(s, front, r, digest);
      forall i | 0 <= i < |moves|
        ensures i < |front| ==> (EntersAt(s, moves, i, r, digest) <==> EntersAt(s, front, i, r, digest))
      {
        EntersInFront(s, moves, i, r, digest);
      }
      EntersInFront(s, moves, |front|, r, digest);
    }
  }

  /** The graph of a request is resumed at most once, whoever reviews, crashes or retries. */
  lemma GraphEnteredOnce(s: System, moves: seq<Move>, i: nat, j: nat, r: string, digest: Digest)
    requires ProtocolInv(s, digest) && Plays(s, moves, digest) && i < j
    ensures !(EntersAt(s, moves, i, r, digest) && EntersAt(s, moves, j, r, digest))
    ensures r in s.entered ==> !EntersAt(s, moves, j, r, digest)
  {
    if j < |moves| {
      EnteredByThen(s, moves, i, j, r, digest);
      PlaysPrefix(s, moves, j, digest);
      EveryPlayKeepsInv(s, moves[..j], digest);
      if r in Play(s, moves[..j], digest).entered {
        NotEnteredAgain(Play(s, moves[..j], digest), moves[j], r, digest);
      }
    }
  }

  lemma EnteredByThen(s: System, moves: seq<Move>, i: nat, j: nat, r: string, digest: Digest)
    requires ProtocolInv(s, digest) && Plays(s, moves, digest) && i < j < |moves|
    ensures EntersAt(s, moves, i, r, digest) || r in s.entered ==> r in Play(s, moves[..j], digest).entered
  {
    var front := moves[..j];
    PlaysPrefix(s, moves, j, digest);
    EnteredIff(s, front, r, digest);
    assert front[..i] == moves[..i];
    assert EntersAt(s, moves, i, r, digest) <==> EntersAt(s, front, i, r, digest);
  }

  lemma {:induction false} PlaysPrefix(s: System, moves: seq<Move>, n: nat, digest: Digest)
    requires Plays(s, moves, digest) && n <= |moves|
    ensures Plays(s, moves[..n], digest)
    ensures n < |moves| ==> Permitted(Play(s, moves[..n], digest), moves[n])
  {
    if n < |moves| {
      PlaysPrefix(s, moves[..|moves| - 1], n, digest);
      assert moves[..|moves| - 1][..n] == moves[..n];
    } else {
      assert moves[..n] == moves;
    }
  }

  lemma NotEnteredAgain(s: System, m: Move, r: string, digest: Digest)
    requires ProtocolInv(s, digest) && Permitted(s, m) && r in s.entered
    ensures !(m.Enter? && m.client in s.clients && s.clients[m.client].id == r)
  {
    if m.Enter? {
      assert HolderOk(s, s.clients[m.client]);
    }
  }

  // ----- the recorded decision -----

  /** The move writes r's outcome. */
  predicate Completes(s: System, m: Move, r: string, digest: Digest) {
    m.Complete? && Busy(s, m.client) && s.clients[m.client].id == r && Finalizes(s.log, r, m.reviewed, m.committed, digest)
  }

  /** A reconciler that could not read the decision writes r's outcome as approved, though it was not. */
  predicate Misreads(s: System, m: Move, r: string, digest: Digest) {
    Completes(s, m, r, digest) && s.clients[m.client].Reconciling? && !m.readable && r in s.entered && s.entered[r] != Approve
  }

  predicate IsReviewed(s: System, r: string) {
    r in s.log.rows && s.log.rows[r].fullTrace.review.Some?
  }

  function DecisionOf(s: System, r: string): ReviewDecision
    requires IsReviewed(s, r)
  {
    s.log.rows[r].fullTrace.review.value.decision
  }

  /** A reconciler misread r's decision somewhere in the run. */
  predicate MisreadIn(s: System, moves: seq<Move>, r: string, digest: Digest) {
    moves != [] &&
    (MisreadIn(s, moves[..|moves| - 1], r, digest) || Misreads(Play(s, moves[..|moves| - 1], digest), moves[|moves| - 1], r, digest))
  }

  lemma FirstOutcome(s: System, m: Move, r: string, digest: Digest)
    requires ProtocolInv(s, digest) && Permitted(s, m) && !IsReviewed(s, r)
    ensures var s' := After(s, m, digest);
      && (IsReviewed(s', r) <==> Completes(s, m, r, digest))
      && (IsReviewed(s', r) ==>
            r in s'.entered && DecisionOf(s', r) == if Misreads(s, m, r, digest) then Approve else s'.entered[r])
  {
    MovesItsRow(s, m, r, digest);
    assert EntryOk(s, r);
    if Completes(s, m, r, digest) {
      CompletedOutcome(s, After(s, m, digest), m, r, digest);
    } else {
      NoOutcomeYet(s, After(s, m, digest), m, r, digest);
    }
  }

  lemma CompletedOutcome(s: System, s': System, m: Move, r: string, digest: Digest)
    requires HoldersOk(s) && Permitted(s, m) && Completes(s, m, r, digest) && RowMove(s, s', m, r, digest)
    ensures IsReviewed(s', r) && r in s'.entered
    ensures DecisionOf(s', r) == if Misreads(s, m, r, digest) then Approve else s'.entered[r]
  {
    assert HolderOk(s, s.clients[m.client]);
  }

  lemma NoOutcomeYet(s: System, s': System, m: Move, r: string, digest: Digest)
    requires Permitted(s, m) && !Completes(s, m, r, digest) && !IsReviewed(s, r) && RowMove(s, s', m, r, digest)
    ensures !IsReviewed(s', r)
  {
  }

  lemma OutcomeStays(s: System, m: Move, r: string, digest: Digest)
    requires ProtocolInv(s, digest) && Permitted(s, m) && IsReviewed(s, r)
    ensures var s' := After(s, m, digest);
      && !Misreads(s, m, r, digest) && IsReviewed(s', r) && DecisionOf(s', r) == DecisionOf(s, r)
      && r in s.entered && r in s'.entered && s'.entered[r] == s.entered[r]
  {
    assert RowOk(s.log.rows[r], digest) && EntryOk(s, r);
    RowsStay(s, m, r, digest);
    MovesItsRow(s, m, r, digest);
  }

  /**
   A finished review records the decision its graph was entered on if and only if it was not written by a
   reconciler that could not read that decision and took it for an approval.
   */
  lemma {:induction false} RecordedDecisionIff(s: System, moves: seq<Move>, r: string, digest: Digest)
    requires ProtocolInv(s, digest) && Plays(s, moves, digest) && !IsReviewed(s, r)
    ensures var s' := Play(s, moves, digest);
      if IsReviewed(s', r) then
        r in s'.entered && (DecisionOf(s', r) == s'.entered[r] <==> !MisreadIn(s, moves, r, digest))
      else !MisreadIn(s, moves, r, digest)
  {
    if moves != [] {
      var front, m := moves[..|moves| - 1], moves[|moves| - 1];
      RecordedDecisionIff(s, front, r, digest);
      EveryPlayKeepsInv(s, front, digest);
      if IsReviewed(Play(s, front, digest), r) {
        OutcomeStays(Play(s, front, digest), m, r, digest);
      } else {
        FirstOutcome(Play(s, front, digest), m, r, digest);
      }
    }
  }

  /** A row leaves the queue only when the handler that holds it completes it, and then for a verdict. */
  lemma LeavesQueueOnlyWhenCompleted(s: System, m: Move, r: string, digest: Digest)
    requires ProtocolInv(s, digest) && Permitted(s, m) && InQueue(s.log.rows, r)
    ensures var rows := After(s, m, digest).log.rows;
      r in rows && (InQueue(rows, r) || (Completes(s, m, r, digest) && rows[r].verdict.Final?))
  {
    MovesItsRow(s, m, r, digest);
    QueueMove(s, After(s, m, digest), m, r, digest);
  }

  lemma QueueMove(s: System, s': System, m: Move, r: string, digest: Digest)
    requires Permitted(s, m) && InQueue(s.log.rows, r) && RowMove(s, s', m, r, digest)
    ensures r in s'.log.rows && (InQueue(s'.log.rows, r) || (Completes(s, m, r, digest) && s'.log.rows[r].verdict.Final?))
  {
  }

  lemma {:induction false} RowsPersist(s: System, moves: seq<Move>, r: string, digest: Digest)
    requires ProtocolInv(s, digest) && Plays(s, moves, digest) && r in s.log.rows
    ensures r in Play(s, moves, digest).log.rows
  {
    if moves != [] {
      var front := moves[..|moves| - 1];
      RowsPersist(s, front, r, digest);
      EveryPlayKeepsInv(s, front, digest);
      RowsStay(Play(s, front, digest), moves[|moves| - 1], r, digest);
    }
  }

  /** A paused row is in the queue in every state until it has a verdict. */
  lemma QueuedUntilFinal(s: System, moves: seq<Move>, r: string, digest: Digest)
    requires ProtocolInv(s, digest) && Plays(s, moves, digest) && InQueue(s.log.rows, r)
    ensures var rows := Play(s, moves, digest).log.rows;
      r in rows && (InQueue(rows, r) <==> !rows[r].verdict.Final?)
  {
    RowsPersist(s, moves, r, digest);
  }

  // ----- stranded rows -----

  ghost predicate Held(s: System, r: string) {
    exists c :: c in s.clients && s.clients[c].id == r
  }

  predicate Stranded(s: System, r: string) {
    r in s.log.rows && s.log.rows[r].verdict == Reviewing && forall c | c in s.clients :: s.clients[c].id != r
  }

  lemma {:induction false} StrandedStays(s: System, moves: seq<Move>, r: string, digest: Digest)
    requires Plays(s, moves, digest) && Stranded(s, r)
    ensures Stranded(Play(s, moves, digest), r)
    ensures Play(s, moves, digest).log.rows[r] == s.log.rows[r]
  {
    if moves != [] {
      var front := moves[..|moves| - 1];
      StrandedStays(s, front, r, digest);
      var s', m := Play(s, front, digest), moves[|moves| - 1];
      if Subject(s', m) != Some(r) {
        OtherRowsUntouched(s', m, r, digest);
      }
    }
  }

  /** The holder's last act leaves r REVIEWING: a crash, or a transition that is not written. */
  ghost predicate Strands(s: System, m: Move, r: string, digest: Digest) {
    && !m.Store? && m.client in s.clients && s.clients[m.client].id == r && r in s.log.rows
    && match m
       case Crash(_) => true
       case GiveBack(_, committed) => !committed
       case PutBack(_, committed) => !committed
       case MarkFailed(_, recovery, committed) => !committed || digest(MarkedEnvelope(s.log.rows[r].fullTrace, recovery)) == None
       case _ => false
  }

  /** And nothing else strands a row: a failed claim or a failed completion leaves its handler at work. */
  lemma StrandedOnlyBy(s: System, m: Move, r: string, digest: Digest)
    requires ProtocolInv(s, digest) && Permitted(s, m) && !Stranded(s, r)
    ensures Stranded(After(s, m, digest), r) <==> Strands(s, m, r, digest)
  {
    MovesItsRow(s, m, r, digest);
    if c :| c in s.clients && s.clients[c].id == r {
      assert HolderOk(s, s.clients[c]);
      assert forall d :: d in s.clients && s.clients[d].id == r ==> d == c;
      HeldRowStranded(s, m, r, c, digest);
    } else {
      FreeRowNotStranded(s, m, r, digest);
    }
  }

  lemma HeldRowStranded(s: System, m: Move, r: string, c: nat, digest: Digest)
    requires HoldersOk(s) && Permitted(s, m) && RowMove(s, After(s, m, digest), m, r, digest)
    requires c in s.clients && s.clients[c].id == r && HolderOk(s, s.clients[c])
    requires forall d :: d in s.clients && s.clients[d].id == r ==> d == c
    ensures Stranded(After(s, m, digest), r) <==> Strands(s, m, r, digest)
  {
    var s' := After(s, m, digest);
    if Subject(s, m) != Some(r) || m.Store? || m.TakePending? || m.TakeFailed? || m.Enter? {
      assert c in s'.clients && s'.clients[c].id == r;
    } else {
      assert m.client == c;
    }
  }

  lemma FreeRowNotStranded(s: System, m: Move, r: string, digest: Digest)
    requires Permitted(s, m) && RowMove(s, After(s, m, digest), m, r, digest) && !Stranded(s, r)
    requires forall c :: c in s.clients ==> s.clients[c].id != r
    ensures !Stranded(After(s, m, digest), r) && !Strands(s, m, r, digest)
  {
    var s' := After(s, m, digest);
    if r in s'.log.rows && s'.log.rows[r].verdict == Reviewing {
      assert m.client in s'.clients && s'.clients[m.client].id == r;
    }
  }

  ghost predicate CanLeave(s: System, r: string, moves: seq<Move>, digest: Digest) {
    Plays(s, moves, digest) && r in Play(s, moves, digest).log.rows && Play(s, moves, digest).log.rows[r].verdict != Reviewing
  }

  /** The one move by which a holder gives its row up. */
  function WayOut(c: nat, client: Client): Move {
    match client
    case Holding(_, _) => GiveBack(c, true)
    case InGraph(_, decision) => MarkFailed(c, Recovery("", "", decision, None, false), true)
    case Reconciling(_) => PutBack(c, true)
  }

  /**
   A row under review can ever leave that state exactly when a live handler holds it: one whose handler
   crashed, or could not write its last transition, is shown in the queue but can never be claimed.
   */
  lemma ReviewingRowCanLeaveIffHeld(s: System, r: string, hash: Hash)
    requires ProtocolInv(s, ChecksumOf(hash)) && r in s.log.rows && s.log.rows[r].verdict == Reviewing
    ensures (exists moves :: CanLeave(s, r, moves, ChecksumOf(hash))) <==> Held(s, r)
  {
    MarkingIsDefined(hash);
    LeavesIffHeld(s, r, ChecksumOf(hash));
  }

  lemma LeavesIffHeld(s: System, r: string, digest: Digest)
    requires ProtocolInv(s, digest) && r in s.log.rows && s.log.rows[r].verdict == Reviewing && MarkingDefined(digest)
    ensures (exists moves :: CanLeave(s, r, moves, digest)) <==> Held(s, r)
  {
    if Held(s, r) {
      var c :| c in s.clients && s.clients[c].id == r;
      assert RowOk(s.log.rows[r], digest);
      HolderCanLeave(s, c, digest);
      assert CanLeave(s, r, [WayOut(c, s.clients[c])], digest);
    } else {
      StrandedCannotLeave(s, r, digest);
    }
  }

  lemma HolderCanLeave(s: System, c: nat, digest: Digest)
    requires HoldersOk(s) && c in s.clients && MarkingDefined(digest)
    requires s.clients[c].id in s.log.rows && digest(s.log.rows[s.clients[c].id].fullTrace).Some?
    ensures CanLeave(s, s.clients[c].id, [WayOut(c, s.clients[c])], digest)
  {
    var m := WayOut(c, s.clients[c]);
    MovesItsRow(s, m, s.clients[c].id, digest);
    OneMove(s, m, digest);
  }

  lemma StrandedCannotLeave(s: System, r: string, digest: Digest)
    requires Stranded(s, r)
    ensures !exists moves :: CanLeave(s, r, moves, digest)
  {
    forall moves ensures !CanLeave(s, r, moves, digest) {
      if Plays(s, moves, digest) {
        StrandedStays(s, moves, r, digest);
      }
    }
  }
}

/**
 Whether an event was persisted, asked of a logger that all threads share (log_event_persisted and the
 attribute _last_write_ok, src/finvet/audit/logger.py). A call writes its event, sets the flag to what the
 write returned, and, if it is log_event_persisted, reads the flag; calls of other threads interleave, as
 the flag has no lock.
 */
module SharedFlag {
  import opened AuditRecords
  import opened AuditTrail

  /** One action of a call. */
  datatype Act = Write(call: nat) | SetFlag(call: nat) | Read(call: nat)

  /** Each call acts in order and once. */
  predicate Proper(acts: seq<Act>) {
    acts != [] ==>
      var front := acts[..|acts| - 1];
      Proper(front) && acts[|acts| - 1] !in front &&
      match acts[|acts| - 1]
      case Write(_) => true
      case SetFlag(c) => Write(c) in front
      case Read(c) => SetFlag(c) in front
  }

  /** What the calls log, each a new event. */
  type Calls = nat -> Event

  /** Which transactions go through. */
  type Commits = nat -> bool

  ghost predicate NewEvents(calls: Calls, table: EventTable) {
    && (forall c :: calls(c).id !in table)
    && (forall c, d :: calls(c).id == calls(d).id ==> c == d)
  }

  /** results holds what each write returned to its call. */
  datatype State = State(table: EventTable, flag: bool, results: map<nat, bool>, answers: map<nat, bool>)

  function Step(s: State, act: Act, calls: Calls, commits: Commits): State {
    match act
    case Write(c) =>
      s.(table := Written(s.table, calls(c), commits(c)), results := s.results[c := commits(c) && calls(c).id !in s.table])
    case SetFlag(c) => if c in s.results then s.(flag := s.results[c]) else s
    case Read(c) => s.(answers := s.answers[c := s.flag])
  }

  function Run(s: State, acts: seq<Act>, calls: Calls, commits: Commits): State {
    if acts == [] then s else Step(Run(s, acts[..|acts| - 1], calls, commits), acts[|acts| - 1], calls, commits)
  }

  function Start(table: EventTable, flag: bool): State {
    State(table, flag, map[], map[])
  }

  // ----- whose write the flag tells of -----

  /** A write returns whether its transaction goes through, and its event is in the table exactly then. */
  lemma {:induction false} WriteTells(table: EventTable, flag: bool, acts: seq<Act>, calls: Calls, commits: Commits, c: nat)
    requires Proper(acts) && NewEvents(calls, table)
    ensures var s := Run(Start(table, flag), acts, calls, commits);
      && (c in s.results <==> Write(c) in acts)
      && (Write(c) in acts ==> s.results[c] == commits(c))
      && (InTable(s.table, calls(c)) <==> Write(c) in acts && commits(c))
      && (calls(c).id in s.table <==> Write(c) in acts && commits(c))
  {
    if acts != [] {
      var front, last := acts[..|acts| - 1], acts[|acts| - 1];
      assert acts == front + [last];
      WriteTells(table, flag, front, calls, commits, c);
      if last.Write? {
        assert calls(last.call).id == calls(c).id ==> last.call == c;
      }
    }
  }

  /** The call that set the flag last. */
  ghost predicate SetLast(acts: seq<Act>, i: nat, c: nat) {
    i < |acts| && acts[i] == SetFlag(c) && forall j :: i < j < |acts| ==> !acts[j].SetFlag?
  }

  lemma {:induction false} FlagTells(table: EventTable, flag: bool, acts: seq<Act>, calls: Calls, commits: Commits, i: nat, c: nat)
    requires Proper(acts) && NewEvents(calls, table) && SetLast(acts, i, c)
    ensures Run(Start(table, flag), acts, calls, commits).flag == commits(c)
  {
    var front, last := acts[..|acts| - 1], acts[|acts| - 1];
    if i == |acts| - 1 {
      WriteTells(table, flag, front, calls, commits, c);
    } else {
      assert SetLast(front, i, c);
      FlagTells(table, flag, front, calls, commits, i, c);
    }
  }

  lemma {:induction false} SomeoneSetLast(acts: seq<Act>, c: nat) returns (i: nat, d: nat)
    requires SetFlag(c) in acts
    ensures SetLast(acts, i, d)
  {
    var last := acts[|acts| - 1];
    if last.SetFlag? {
      i, d := |acts| - 1, last.call;
    } else {
      assert acts == acts[..|acts| - 1] + [last];
      i, d := SomeoneSetLast(acts[..|acts| - 1], c);
    }
  }

  /** No other flag write has fallen between the call's own and now. */
  ghost predicate Undisturbed(acts: seq<Act>, c: nat) {
    exists i :: SetLast(acts, i, c)
  }

  /** The call is told the truth about its event. */
  predicate ToldTruly(table: EventTable, flag: bool, acts: seq<Act>, calls: Calls, commits: Commits, c: nat) {
    var s := Run(Start(table, flag), acts + [Read(c)], calls, commits);
    c in s.answers && s.answers[c] == InTable(s.table, calls(c))
  }

  lemma ReadGivesFlag(table: EventTable, flag: bool, acts: seq<Act>, calls: Calls, commits: Commits, c: nat)
    ensures var s, s' := Run(Start(table, flag), acts, calls, commits), Run(Start(table, flag), acts + [Read(c)], calls, commits);
      c in s'.answers && s'.answers[c] == s.flag && s'.table == s.table
  {
    assert (acts + [Read(c)])[..|acts|] == acts;
  }

  lemma {:induction false} WrittenBeforeSet(acts: seq<Act>, c: nat)
    requires Proper(acts) && SetFlag(c) in acts
    ensures Write(c) in acts
  {
    var front, last := acts[..|acts| - 1], acts[|acts| - 1];
    assert acts == front + [last];
    if last != SetFlag(c) {
      WrittenBeforeSet(front, c);
    }
  }

  lemma ToldWhatWasSetLast(table: EventTable, flag: bool, acts: seq<Act>, calls: Calls, commits: Commits, c: nat, i: nat, d: nat)
    requires Proper(acts) && NewEvents(calls, table) && Write(c) in acts && SetLast(acts, i, d)
    ensures ToldTruly(table, flag, acts, calls, commits, c) <==> commits(d) == commits(c)
  {
    ReadGivesFlag(table, flag, acts, calls, commits, c);
    FlagTells(table, flag, acts, calls, commits, i, d);
    WriteTells(table, flag, acts, calls, commits, c);
  }

  /**
   A call that reads the flag is told truly whether its event was written, whichever transactions go
   through, if and only if no other thread has set the flag since it did.
   */
  lemma ToldTrulyIff(table: EventTable, flag: bool, acts: seq<Act>, calls: Calls, c: nat)
    requires Proper(acts) && NewEvents(calls, table) && SetFlag(c) in acts
    ensures (forall commits: Commits :: ToldTruly(table, flag, acts, calls, commits, c)) <==> Undisturbed(acts, c)
  {
    WrittenBeforeSet(acts, c);
    var i, d := SomeoneSetLast(acts, c);
    forall commits: Commits ensures ToldTruly(table, flag, acts, calls, commits, c) <==> commits(d) == commits(c) {
      ToldWhatWasSetLast(table, flag, acts, calls, commits, c, i, d);
    }
    if d == c {
      assert SetLast(acts, i, c);
    } else {
      var onlyMine: Commits := k => k == c;
      assert !ToldTruly(table, flag, acts, calls, onlyMine, c);
      forall j ensures !SetLast(acts, j, c) {
        assert acts[i] == SetFlag(d);
      }
    }
  }

  // ----- a failing interleaving -----

  /** Call 1 of another thread writes and sets the flag between call 0's setting and reading it. */
  const OVERTAKEN := [Write(0), SetFlag(0), Write(1), SetFlag(1)]

  /**
   Then call 0 is told its event was written when only the other's was, and told it was not when only its
   own was.
   */
  lemma OvertakenIsMistold(table: EventTable, flag: bool, calls: Calls)
    requires NewEvents(calls, table)
    ensures Proper(OVERTAKEN)
    ensures var s := Run(Start(table, flag), OVERTAKEN + [Read(0)], calls, k => k == 1);
      0 in s.answers && s.answers[0] && !InTable(s.table, calls(0))
    ensures var s := Run(Start(table, flag), OVERTAKEN + [Read(0)], calls, k => k == 0);
      0 in s.answers && !s.answers[0] && InTable(s.table, calls(0))
  {
    OvertakenIsProper();
    Overtaken(table, flag, calls, k => k == 1);
    Overtaken(table, flag, calls, k => k == 0);
  }

  lemma OvertakenIsProper()
    ensures Proper(OVERTAKEN) && SetLast(OVERTAKEN, 3, 1)
  {
    ProperSnoc([], Write(0));
    ProperSnoc([Write(0)], SetFlag(0));
    ProperSnoc([Write(0), SetFlag(0)], Write(1));
    ProperSnoc([Write(0), SetFlag(0), Write(1)], SetFlag(1));
    assert OVERTAKEN == [Write(0), SetFlag(0), Write(1)] + [SetFlag(1)];
    assert [Write(0), SetFlag(0)] + [Write(1)] == [Write(0), SetFlag(0), Write(1)];
    assert [Write(0)] + [SetFlag(0)] == [Write(0), SetFlag(0)];
  }

  lemma ProperSnoc(front: seq<Act>, act: Act)
    ensures Proper(front + [act]) <==>
      && Proper(front) && act !in front
      && (act.SetFlag? ==> Write(act.call) in front) && (act.Read? ==> SetFlag(act.call) in front)
  {
    assert (front + [act])[..|front|] == front;
  }

  lemma Overtaken(table: EventTable, flag: bool, calls: Calls, commits: Commits)
    requires NewEvents(calls, table)
    ensures var s := Run(Start(table, flag), OVERTAKEN + [Read(0)], calls, commits);
      0 in s.answers && s.answers[0] == commits(1) && (InTable(s.table, calls(0)) <==> commits(0))
  {
    OvertakenIsProper();
    ReadGivesFlag(table, flag, OVERTAKEN, calls, commits, 0);
    FlagTells(table, flag, OVERTAKEN, calls, commits, 3, 1);
    WriteTells(table, flag, OVERTAKEN, calls, commits, 0);
  }
}

/**
 The program's own digest of an envelope: the checksum of the dictionary build_execution_envelope makes
 (src/finvet/audit/integrity.py), with what mark_review_finalization_failed and finalize_review add to it
 (src/finvet/audit/database.py). The hash itself is any function of the canonical encoding.
 */
module Checksums {
  import opened Wrappers
  import opened Integrity
  import opened AuditRecords
  import opened AuditTrail

  type Hash = Canon -> string

  function Text(s: Option<string>): Value {
    if s == None then Null else Str(s.value)
  }

  function ColumnValue(c: Column): Value {
    match c
    case Pending => Str("PENDING")
    case Reviewing => Str("REVIEWING")
    case FinalizationFailed => Str("REVIEW_FINALIZATION_FAILED")
    case Final(v) => Text(v)
  }

  function StatusValue(s: Option<TerminalStatus>): Value {
    match s
    case None => Null
    case Some(Success) => Str("success")
    case Some(PendingReview) => Str("pending_review")
    case Some(Rejected) => Str("rejected")
    case Some(GuardrailBlocked) => Str("guardrail_blocked")
    case Some(Error) => Str("error")
    case Some(ReviewFinalizationFailed) => Str("review_finalization_failed")
    case Some(ReviewDone) => Str("reviewed")
  }

  function DecisionValue(d: ReviewDecision): Value {
    match d
    case Approve => Str("approve")
    case Override => Str("override")
    case Reject => Str("reject")
  }

  function Strings(xs: seq<string>): seq<Value> {
    seq(|xs|, i requires 0 <= i < |xs| => Str(xs[i]))
  }

  /** "detail" stands for the event's parent, type, agent and data. */
  function EventValue(e: Event): Value {
    Dict([(StrKey("event_id"), Str(e.id)), (StrKey("request_id"), Str(e.requestId)),
          (StrKey("timestamp"), Str(e.timestamp)), (StrKey("detail"), e.detail)])
  }

  function Events(events: seq<Event>): seq<Value> {
    seq(|events|, i requires 0 <= i < |events| => EventValue(events[i]))
  }

  function RecoveryValue(r: Recovery): Value {
    Dict([(StrKey("error_type"), Str(r.errorType)), (StrKey("occurred_at"), Str(r.occurredAt)),
          (StrKey("review_decision"), DecisionValue(r.decision)), (StrKey("reviewer_notes"), Text(r.notes)),
          (StrKey("checkpoint_has_final_state"), Bool(r.hasFinalState))])
  }

  function ReviewValue(r: ReviewBlock): Value {
    Dict([(StrKey("decision"), DecisionValue(r.decision)), (StrKey("reviewer_notes"), Text(r.notes)),
          (StrKey("supersedes_checksum"), Str(r.supersedes))])
  }

  function HeadEntries(e: Envelope): Entries {
    [(StrKey("schema_version"), Int(2)), (StrKey("request_id"), Str(e.requestId)), (StrKey("claim"), Str(e.claim)),
     (StrKey("terminal_status"), StatusValue(e.terminalStatus)), (StrKey("verdict"), ColumnValue(e.verdict))]
  }

  function BodyEntries(e: Envelope): Entries {
    [(StrKey("confidence"), e.confidence), (StrKey("agents_run"), List(Strings(e.agentsRun))),
     (StrKey("events"), List(Events(e.events))), (StrKey("final_response"), e.finalResponse),
     (StrKey("data_sources"), e.dataSources), (StrKey("llm_config"), e.llmConfig)]
  }

  function AddedEntries(e: Envelope): Entries {
    (if e.recovery.Some? then [(StrKey("review_recovery"), RecoveryValue(e.recovery.value))] else [])
    + (if e.review.Some? then [(StrKey("review"), ReviewValue(e.review.value))] else [])
  }

  function EnvelopeValue(e: Envelope): Value {
    Dict(HeadEntries(e) + BodyEntries(e) + AddedEntries(e))
  }

  /** The digest the store uses: None where compute_execution_checksum raises. */
  function ChecksumOf(hash: Hash): Digest {
    e => Checksum(EnvelopeValue(e), hash)
  }

  // ----- what is refused -----

  predicate AllRepresentable(es: Entries) {
    forall i :: 0 <= i < |es| ==> Representable(es[i].1)
  }

  /** Nothing a caller supplied as a free value is, at any depth, a non-finite number or of an unknown type. */
  predicate Hashable(e: Envelope) {
    && Representable(e.confidence) && Representable(e.finalResponse) && Representable(e.dataSources)
    && Representable(e.llmConfig) && forall i :: 0 <= i < |e.events| ==> Representable(e.events[i].detail)
  }

  lemma EventRepresentable(e: Event)
    ensures Representable(EventValue(e)) <==> Representable(e.detail)
  {
    var es := EventValue(e).entries;
    assert es[3].1 == e.detail;
  }

  lemma EventsRepresentable(events: seq<Event>)
    ensures Representable(List(Events(events))) <==> forall i :: 0 <= i < |events| ==> Representable(events[i].detail)
  {
    forall i | 0 <= i < |events| ensures Representable(Events(events)[i]) <==> Representable(events[i].detail) {
      EventRepresentable(events[i]);
    }
  }

  lemma HeadRepresentable(e: Envelope)
    ensures AllRepresentable(HeadEntries(e))
  {
  }

  lemma BodyRepresentable(e: Envelope)
    ensures AllRepresentable(BodyEntries(e)) <==> Hashable(e)
  {
    EventsRepresentable(e.events);
    assert Representable(List(Strings(e.agentsRun)));
    SixEntries(BodyEntries(e));
  }

  lemma SixEntries(es: Entries)
    requires |es| == 6
    ensures AllRepresentable(es) <==>
      && Representable(es[0].1) && Representable(es[1].1) && Representable(es[2].1) && Representable(es[3].1)
      && Representable(es[4].1) && Representable(es[5].1)
  {
  }

  lemma AddedRepresentable(e: Envelope)
    ensures AllRepresentable(AddedEntries(e))
  {
  }

  /** An envelope has a digest exactly when every free value in it can be represented. */
  lemma ChecksumDefined(e: Envelope, hash: Hash)
    ensures ChecksumOf(hash)(e) == None <==> Canonical(EnvelopeValue(e)) == None
    ensures ChecksumOf(hash)(e).Some? <==> Hashable(e)
  {
    RefusesUnrepresentable(EnvelopeValue(e));
    HeadRepresentable(e);
    BodyRepresentable(e);
    AddedRepresentable(e);
    JoinedEntries(HeadEntries(e), BodyEntries(e));
    JoinedEntries(HeadEntries(e) + BodyEntries(e), AddedEntries(e));
  }

  lemma JoinedEntries(a: Entries, b: Entries)
    ensures AllRepresentable(a + b) <==> AllRepresentable(a) && AllRepresentable(b)
  {
    assert forall i :: 0 <= i < |a| ==> (a + b)[i] == a[i];
    assert forall i :: 0 <= i < |b| ==> (a + b)[|a| + i] == b[i];
  }

  /** Marking a row for reconciliation is never refused. */
  ghost predicate MarkingDefined(digest: Digest) {
    forall e, recovery :: digest(e).Some? ==> digest(MarkedEnvelope(e, recovery)).Some?
  }

  /** The recovery block is nothing but text. */
  lemma MarkingIsDefined(hash: Hash)
    ensures MarkingDefined(ChecksumOf(hash))
  {
    forall e, recovery | ChecksumOf(hash)(e).Some? ensures ChecksumOf(hash)(MarkedEnvelope(e, recovery)).Some? {
      ChecksumDefined(e, hash);
      ChecksumDefined(MarkedEnvelope(e, recovery), hash);
    }
  }

  // ----- what a reader can check -----

  /** v read back from the store, its numbers as JSONB gives them and its keys in any order at any depth. */
  ghost predicate ReadBack(v: Value, stored: Value) {
    Normal(stored) && Reordered(Jsonb(v), stored)
  }

  /** The normal form that is hashed for a row. */
  function HashedForm(row: Row): Option<Value> {
    Normalize(EnvelopeValue(row.fullTrace))
  }

  /**
   In every reachable state every row's envelope, read back with its keys permuted at any depth, passes
   verification against the row's execution hash if JSONB keeps all its numbers, and, when no other encoding
   has that hash, only then.
   */
  lemma EveryStoredEnvelopeVerifies(s: Log, steps: seq<Step>, r: string, hash: Hash)
    requires forall c :: hash(c) != ""
    requires Inv(s, ChecksumOf(hash)) && EnabledRun(s, steps, ChecksumOf(hash)) && r in Run(s, steps, ChecksumOf(hash)).rows
    ensures RowVerifies(Run(s, steps, ChecksumOf(hash)).rows[r], hash)
  {
    EveryRunKeepsInv(s, steps, ChecksumOf(hash));
    RowOkVerifies(Run(s, steps, ChecksumOf(hash)).rows[r], hash);
  }

  ghost predicate RowVerifies(row: Row, hash: Hash) {
    && HashedForm(row).Some?
    && forall stored ::
         (Normal(stored) && Reordered(HashedForm(row).value, stored) ==> Verify(stored, row.executionHash, hash))
         && (ReadBack(HashedForm(row).value, stored) ==>
               && (Survives(HashedForm(row).value) ==> Verify(stored, row.executionHash, hash))
               && (KeepsApart(hash, Canonical(EnvelopeValue(row.fullTrace)).GetOr(CNull)) ==>
                     (Verify(stored, row.executionHash, hash) <==> Survives(HashedForm(row).value))))
  }

  lemma RowOkVerifies(row: Row, hash: Hash)
    requires RowOk(row, ChecksumOf(hash)) && forall c :: hash(c) != ""
    ensures RowVerifies(row, hash)
  {
    var envelope := EnvelopeValue(row.fullTrace);
    assert Checksum(envelope, hash) == Some(row.executionHash);
    StoredFormsVerify(envelope, row.executionHash, hash);
  }

  lemma StoredFormsVerify(envelope: Value, checksum: string, hash: Hash)
    requires Checksum(envelope, hash) == Some(checksum) && checksum != ""
    ensures Normalize(envelope).Some?
    ensures forall stored :: Normal(stored) && Reordered(Normalize(envelope).value, stored) ==> Verify(stored, checksum, hash)
    ensures forall stored :: ReadBack(Normalize(envelope).value, stored) ==>
      && (Survives(Normalize(envelope).value) ==> Verify(stored, checksum, hash))
      && (KeepsApart(hash, Canonical(envelope).GetOr(CNull)) ==>
            (Verify(stored, checksum, hash) <==> Survives(Normalize(envelope).value)))
  {
    forall stored | Normal(stored) && Reordered(Normalize(envelope).value, stored) ensures Verify(stored, checksum, hash) {
      ReadBackVerifies(envelope, stored, hash);
    }
    forall stored | ReadBack(Normalize(envelope).value, stored)
      ensures Survives(Normalize(envelope).value) ==> Verify(stored, checksum, hash)
      ensures KeepsApart(hash, Canonical(envelope).GetOr(CNull)) ==>
                (Verify(stored, checksum, hash) <==> Survives(Normalize(envelope).value))
    {
      StoredVerifiesIff(envelope, stored, hash);
    }
  }

  // ----- the checksum covers the envelope -----

  /** The text of the verdict column. */
  ghost predicate IsText(c: Column, text: Option<string>) {
    || c == Final(text)
    || (c == Pending && text == Some("PENDING"))
    || (c == Reviewing && text == Some("REVIEWING"))
    || (c == FinalizationFailed && text == Some("REVIEW_FINALIZATION_FAILED"))
  }

  ghost predicate SameVerdict(a: Column, b: Column) {
    exists text :: IsText(a, text) && IsText(b, text)
  }

  ghost predicate SameEvent(x: Event, y: Event) {
    x.id == y.id && x.requestId == y.requestId && x.timestamp == y.timestamp && Canonical(x.detail) == Canonical(y.detail)
  }

  ghost predicate SameRun(a: Envelope, b: Envelope) {
    && a.requestId == b.requestId && a.claim == b.claim && a.terminalStatus == b.terminalStatus
    && SameVerdict(a.verdict, b.verdict) && a.agentsRun == b.agentsRun
    && Canonical(a.confidence) == Canonical(b.confidence) && Canonical(a.finalResponse) == Canonical(b.finalResponse)
    && Canonical(a.dataSources) == Canonical(b.dataSources) && Canonical(a.llmConfig) == Canonical(b.llmConfig)
    && |a.events| == |b.events| && forall i :: 0 <= i < |a.events| ==> SameEvent(a.events[i], b.events[i])
  }

  /** Two envelopes record the same run and the same review, in every field. */
  ghost predicate SameContent(a: Envelope, b: Envelope) {
    SameRun(a, b) && a.recovery == b.recovery && a.review == b.review
  }

  // ----- objects with the same keys -----

  /** A number that tells the keys of one object apart. */
  function KeyMark(s: string): int {
    if s == "" then 0 else 1000 * |s| + s[0] as int
  }

  ghost predicate KeysMarked(es: Entries, marks: seq<int>) {
    && |es| == |marks| && (forall i :: 0 <= i < |es| ==> es[i].0.StrKey? && KeyMark(es[i].0.text) == marks[i])
  }

  ghost predicate AllDiffer(marks: seq<int>) {
    forall i, j :: 0 <= i < j < |marks| ==> marks[i] != marks[j]
  }

  lemma MarkedApart(es: Entries, marks: seq<int>)
    requires KeysMarked(es, marks) && AllDiffer(marks)
    ensures StringKeyed(es)
  {
    forall i, j | 0 <= i < j < |es| ensures es[i].0 != es[j].0 {
      assert KeyMark(es[i].0.text) != KeyMark(es[j].0.text);
    }
  }

  ghost predicate Canonicals(es: Entries) {
    forall i :: 0 <= i < |es| ==> Canonical(es[i].1).Some?
  }

  /** Objects with the same keys in the same places have one canonical form exactly if their values do. */
  lemma SameObjectIff(x: Entries, y: Entries)
    requires StringKeyed(x) && SameKeys(x, y) && Canonicals(x) && Canonicals(y)
    ensures Canonical(Dict(x)) == Canonical(Dict(y)) <==>
      forall i :: 0 <= i < |x| ==> Canonical(x[i].1) == Canonical(y[i].1)
  {
    CanonicalDict(x);
    CanonicalDict(y);
    SameFieldsIff(Canonical(Dict(x)).value.fields, Canonical(Dict(y)).value.fields, x, y);
  }

  lemma SameFieldsIff(m: map<string, Canon>, n: map<string, Canon>, x: Entries, y: Entries)
    requires SameKeys(x, y) && FieldsOf(m, x) && FieldsOf(n, y)
    ensures m == n <==> forall i :: 0 <= i < |x| ==> Canonical(x[i].1) == Canonical(y[i].1)
  {
    if m == n {
      forall i | 0 <= i < |x| ensures Canonical(x[i].1) == Canonical(y[i].1) {
        assert x[i].0 == y[i].0;
        assert Canonical(x[i].1) == Some(m[x[i].0.text]) && Canonical(y[i].1) == Some(n[y[i].0.text]);
      }
    } else if forall i :: 0 <= i < |x| ==> Canonical(x[i].1) == Canonical(y[i].1) {
      AllFieldsAgree(m, n, x, y);
    }
  }

  lemma AllFieldsAgree(m: map<string, Canon>, n: map<string, Canon>, x: Entries, y: Entries)
    requires SameKeys(x, y) && FieldsOf(m, x) && FieldsOf(n, y)
    requires forall i :: 0 <= i < |x| ==> Canonical(x[i].1) == Canonical(y[i].1)
    ensures m == n
  {
    forall k ensures (k in m <==> k in n) && (k in m ==> m[k] == n[k]) {
      FieldAgrees(m, n, x, y, k);
    }
  }

  lemma FieldAgrees(m: map<string, Canon>, n: map<string, Canon>, x: Entries, y: Entries, k: string)
    requires SameKeys(x, y) && FieldsOf(m, x) && FieldsOf(n, y)
    requires forall i :: 0 <= i < |x| ==> Canonical(x[i].1) == Canonical(y[i].1)
    ensures (k in m <==> k in n) && (k in m ==> m[k] == n[k])
  {
    if k in m {
      var i :| 0 <= i < |x| && x[i].0.text == k;
    }
    if k in n {
      var i :| 0 <= i < |y| && y[i].0.text == k;
    }
  }

  lemma OtherKeysDiffer(x: Entries, y: Entries, i: nat)
    requires StringKeyed(x) && StringKeyed(y) && Canonicals(x) && Canonicals(y)
    requires i < |x| && forall j :: 0 <= j < |y| ==> x[i].0.text != y[j].0.text
    ensures Canonical(Dict(x)) != Canonical(Dict(y))
  {
    CanonicalDict(x);
    CanonicalDict(y);
    assert x[i].0.text in Canonical(Dict(x)).value.fields;
    assert x[i].0.text !in Canonical(Dict(y)).value.fields;
  }

  // ----- each part of the envelope -----

  lemma TextCanonical(a: Option<string>, b: Option<string>)
    ensures Canonical(Text(a)).Some? && (Canonical(Text(a)) == Canonical(Text(b)) <==> a == b)
  {
  }

  lemma StrCanonical(s: string)
    ensures Canonical(Str(s)) == Some(CStr(s))
  {
  }

  lemma TextOf(c: Column) returns (text: Option<string>)
    ensures ColumnValue(c) == Text(text) && forall t :: IsText(c, t) <==> t == text
  {
    match c
    case Pending => text := Some("PENDING");
    case Reviewing => text := Some("REVIEWING");
    case FinalizationFailed => text := Some("REVIEW_FINALIZATION_FAILED");
    case Final(v) => text := v;
  }

  lemma VerdictCanonical(a: Column, b: Column)
    ensures Canonical(ColumnValue(a)).Some? && (Canonical(ColumnValue(a)) == Canonical(ColumnValue(b)) <==> SameVerdict(a, b))
  {
    var x := TextOf(a);
    var y := TextOf(b);
    TextCanonical(x, y);
    assert IsText(a, x) && IsText(b, y);
  }

  /** A number for each status, read off its name. */
  lemma StatusCanonical(a: Option<TerminalStatus>, b: Option<TerminalStatus>)
    ensures Canonical(StatusValue(a)).Some? && (Canonical(StatusValue(a)) == Canonical(StatusValue(b)) <==> a == b)
  {
    StatusNamed(a);
    StatusNamed(b);
  }

  ghost function StatusMark(s: TerminalStatus): (int, char) {
    match s
    case Success => (7, 'c')
    case PendingReview => (14, 'n')
    case Rejected => (8, 'j')
    case GuardrailBlocked => (17, 'a')
    case Error => (5, 'r')
    case ReviewFinalizationFailed => (26, 'v')
    case ReviewDone => (8, 'v')
  }

  lemma StatusNamed(s: Option<TerminalStatus>)
    ensures s == None ==> Canonical(StatusValue(s)) == Some(CNull)
    ensures s.Some? ==>
      && StatusValue(s).Str? && Canonical(StatusValue(s)) == Some(CStr(StatusValue(s).s))
      && |StatusValue(s).s| == StatusMark(s.value).0 && StatusValue(s).s[2] == StatusMark(s.value).1
  {
  }

  lemma DecisionCanonical(a: ReviewDecision, b: ReviewDecision)
    ensures Canonical(DecisionValue(a)).Some? && (Canonical(DecisionValue(a)) == Canonical(DecisionValue(b)) <==> a == b)
  {
    DecisionNamed(a);
    DecisionNamed(b);
  }

  lemma DecisionNamed(d: ReviewDecision)
    ensures DecisionValue(d).Str? && Canonical(DecisionValue(d)) == Some(CStr(DecisionValue(d).s))
    ensures |DecisionValue(d).s| == if d == Approve then 7 else if d == Override then 8 else 6
  {
  }

  lemma StringsCanonical(a: seq<string>, b: seq<string>)
    ensures Canonical(List(Strings(a))).Some?
    ensures Canonical(List(Strings(a))) == Canonical(List(Strings(b))) <==> a == b
  {
    CanonicalList(Strings(a));
    CanonicalList(Strings(b));
    forall i | 0 <= i < |a| ensures Canonical(Strings(a)[i]) == Some(CStr(a[i])) {
      StrCanonical(a[i]);
    }
    forall i | 0 <= i < |b| ensures Canonical(Strings(b)[i]) == Some(CStr(b[i])) {
      StrCanonical(b[i]);
    }
    if Canonical(List(Strings(a))) == Canonical(List(Strings(b))) {
      forall i | 0 <= i < |a| ensures a[i] == b[i] {
        assert Canonical(Strings(a)[i]) == Canonical(Strings(b)[i]);
      }
    }
  }

  lemma EventCanonical(x: Event, y: Event)
    requires Representable(x.detail) && Representable(y.detail)
    ensures Canonical(EventValue(x)).Some?
    ensures Canonical(EventValue(x)) == Canonical(EventValue(y)) <==> SameEvent(x, y)
  {
    EventEntries(x);
    EventEntries(y);
    EventKeys(x, y);
    SameEvents(EventValue(x), EventValue(y), x, y);
  }

  ghost predicate EventFields(es: Entries, e: Event) {
    && |es| == 4
    && es[0].1 == Str(e.id) && es[1].1 == Str(e.requestId) && es[2].1 == Str(e.timestamp) && es[3].1 == e.detail
  }

  lemma EventEntries(e: Event)
    requires Representable(e.detail)
    ensures var es := EventValue(e).entries; StringKeyed(es) && Canonicals(es) && EventFields(es, e)
  {
    EventMarked(e);
    MarkedApart(EventValue(e).entries, [8101, 10114, 9116, 6100]);
    EventValues(EventValue(e).entries, e);
  }

  lemma EventMarked(e: Event)
    ensures KeysMarked(EventValue(e).entries, [8101, 10114, 9116, 6100]) && EventFields(EventValue(e).entries, e)
  {
  }

  lemma EventValues(es: Entries, e: Event)
    requires EventFields(es, e) && Representable(e.detail)
    ensures Canonicals(es)
  {
    RefusesUnrepresentable(e.detail);
  }

  lemma EventKeys(x: Event, y: Event)
    ensures SameKeys(EventValue(x).entries, EventValue(y).entries)
  {
  }

  lemma SameEvents(u: Value, v: Value, x: Event, y: Event)
    requires u.Dict? && v.Dict? && StringKeyed(u.entries) && StringKeyed(v.entries) && SameKeys(u.entries, v.entries)
    requires Canonicals(u.entries) && Canonicals(v.entries) && EventFields(u.entries, x) && EventFields(v.entries, y)
    ensures Canonical(u).Some? && (Canonical(u) == Canonical(v) <==> SameEvent(x, y))
  {
    SameObjects(u.entries, v.entries);
    EventFieldsAgree(u.entries, v.entries, x, y);
  }

  lemma EventFieldsAgree(u: Entries, v: Entries, x: Event, y: Event)
    requires EventFields(u, x) && EventFields(v, y)
    ensures (forall i :: 0 <= i < |u| ==> Canonical(u[i].1) == Canonical(v[i].1)) <==> SameEvent(x, y)
  {
    if forall i :: 0 <= i < |u| ==> Canonical(u[i].1) == Canonical(v[i].1) {
      assert Canonical(u[0].1) == Canonical(v[0].1) && Canonical(u[1].1) == Canonical(v[1].1);
      assert Canonical(u[2].1) == Canonical(v[2].1) && Canonical(u[3].1) == Canonical(v[3].1);
    }
  }

  ghost predicate Details(events: seq<Event>) {
    forall i :: 0 <= i < |events| ==> Representable(events[i].detail)
  }

  lemma EventsCanonical(a: seq<Event>, b: seq<Event>)
    requires Details(a) && Details(b)
    ensures Canonical(List(Events(a))).Some?
    ensures Canonical(List(Events(a))) == Canonical(List(Events(b))) <==>
      |a| == |b| && forall i :: 0 <= i < |a| ==> SameEvent(a[i], b[i])
  {
    CanonicalList(Events(a));
    CanonicalList(Events(b));
    forall i | 0 <= i < |a| ensures Canonical(Events(a)[i]).Some? {
      EventCanonical(a[i], a[i]);
    }
    forall i | 0 <= i < |b| ensures Canonical(Events(b)[i]).Some? {
      EventCanonical(b[i], b[i]);
    }
    forall i | 0 <= i < |a| && i < |b| ensures Canonical(Events(a)[i]) == Canonical(Events(b)[i]) <==> SameEvent(a[i], b[i]) {
      EventCanonical(a[i], b[i]);
    }
    SameListIff(Events(a), Events(b));
  }

  lemma SameListIff(x: seq<Value>, y: seq<Value>)
    requires Canonical(List(x)).Some? && Canonical(List(y)).Some?
    ensures Canonical(List(x)) == Canonical(List(y)) <==>
      |x| == |y| && forall i :: 0 <= i < |x| ==> Canonical(x[i]) == Canonical(y[i])
  {
    CanonicalList(x);
    CanonicalList(y);
    var m, n := Canonical(List(x)).value.items, Canonical(List(y)).value.items;
    if |x| == |y| && forall i :: 0 <= i < |x| ==> Canonical(x[i]) == Canonical(y[i]) {
      forall i | 0 <= i < |x| ensures m[i] == n[i] {
        assert Canonical(x[i]) == Canonical(y[i]);
      }
      assert m == n;
    }
  }

  ghost predicate RecoveryFields(es: Entries, r: Recovery) {
    && |es| == 5
    && es[0].1 == Str(r.errorType) && es[1].1 == Str(r.occurredAt) && es[2].1 == DecisionValue(r.decision)
    && es[3].1 == Text(r.notes) && es[4].1 == Bool(r.hasFinalState)
  }

  lemma RecoveryEntries(r: Recovery)
    ensures var es := RecoveryValue(r).entries; StringKeyed(es) && Canonicals(es) && RecoveryFields(es, r)
  {
    var es := RecoveryValue(r).entries;
    assert KeysMarked(es, [10101, 11111, 15114, 14114, 26099]);
    MarkedApart(es, [10101, 11111, 15114, 14114, 26099]);
  }

  lemma RecoveryKeys(a: Recovery, b: Recovery)
    ensures SameKeys(RecoveryValue(a).entries, RecoveryValue(b).entries)
  {
  }

  lemma RecoveryFieldsAgree(x: Entries, y: Entries, a: Recovery, b: Recovery)
    requires RecoveryFields(x, a) && RecoveryFields(y, b)
    ensures (forall i :: 0 <= i < |x| ==> Canonical(x[i].1) == Canonical(y[i].1)) <==> a == b
  {
    DecisionCanonical(a.decision, b.decision);
    TextCanonical(a.notes, b.notes);
    if forall i :: 0 <= i < |x| ==> Canonical(x[i].1) == Canonical(y[i].1) {
      assert Canonical(x[0].1) == Canonical(y[0].1) && Canonical(x[1].1) == Canonical(y[1].1);
      assert Canonical(x[2].1) == Canonical(y[2].1) && Canonical(x[3].1) == Canonical(y[3].1);
      assert Canonical(x[4].1) == Canonical(y[4].1);
    }
  }

  lemma SameObjects(x: Entries, y: Entries)
    requires StringKeyed(x) && StringKeyed(y) && SameKeys(x, y) && Canonicals(x) && Canonicals(y)
    ensures Canonical(Dict(x)).Some?
    ensures Canonical(Dict(x)) == Canonical(Dict(y)) <==>
      forall i :: 0 <= i < |x| ==> Canonical(x[i].1) == Canonical(y[i].1)
  {
    CanonicalDict(x);
    SameObjectIff(x, y);
  }

  lemma RecoveryCanonical(a: Recovery, b: Recovery)
    ensures Canonical(RecoveryValue(a)).Some?
    ensures Canonical(RecoveryValue(a)) == Canonical(RecoveryValue(b)) <==> a == b
  {
    RecoveryEntries(a);
    RecoveryEntries(b);
    RecoveryKeys(a, b);
    SameRecoveries(RecoveryValue(a), RecoveryValue(b), a, b);
  }

  lemma SameRecoveries(x: Value, y: Value, a: Recovery, b: Recovery)
    requires x.Dict? && y.Dict? && StringKeyed(x.entries) && StringKeyed(y.entries) && SameKeys(x.entries, y.entries)
    requires Canonicals(x.entries) && Canonicals(y.entries) && RecoveryFields(x.entries, a) && RecoveryFields(y.entries, b)
    ensures Canonical(x).Some? && (Canonical(x) == Canonical(y) <==> a == b)
  {
    SameObjects(x.entries, y.entries);
    RecoveryFieldsAgree(x.entries, y.entries, a, b);
  }

  ghost predicate ReviewFields(es: Entries, r: ReviewBlock) {
    && |es| == 3
    && es[0].1 == DecisionValue(r.decision) && es[1].1 == Text(r.notes) && es[2].1 == Str(r.supersedes)
  }

  lemma ReviewEntries(r: ReviewBlock)
    ensures var es := ReviewValue(r).entries; StringKeyed(es) && Canonicals(es) && ReviewFields(es, r)
  {
    var es := ReviewValue(r).entries;
    assert KeysMarked(es, [8100, 14114, 19115]);
    MarkedApart(es, [8100, 14114, 19115]);
  }

  lemma ReviewKeys(a: ReviewBlock, b: ReviewBlock)
    ensures SameKeys(ReviewValue(a).entries, ReviewValue(b).entries)
  {
  }

  lemma ReviewFieldsAgree(x: Entries, y: Entries, a: ReviewBlock, b: ReviewBlock)
    requires ReviewFields(x, a) && ReviewFields(y, b)
    ensures (forall i :: 0 <= i < |x| ==> Canonical(x[i].1) == Canonical(y[i].1)) <==> a == b
  {
    DecisionCanonical(a.decision, b.decision);
    TextCanonical(a.notes, b.notes);
    if forall i :: 0 <= i < |x| ==> Canonical(x[i].1) == Canonical(y[i].1) {
      assert Canonical(x[0].1) == Canonical(y[0].1) && Canonical(x[1].1) == Canonical(y[1].1);
      assert Canonical(x[2].1) == Canonical(y[2].1);
    }
  }

  lemma ReviewCanonical(a: ReviewBlock, b: ReviewBlock)
    ensures Canonical(ReviewValue(a)).Some?
    ensures Canonical(ReviewValue(a)) == Canonical(ReviewValue(b)) <==> a == b
  {
    ReviewEntries(a);
    ReviewEntries(b);
    ReviewKeys(a, b);
    SameReviews(ReviewValue(a), ReviewValue(b), a, b);
  }

  lemma SameReviews(x: Value, y: Value, a: ReviewBlock, b: ReviewBlock)
    requires x.Dict? && y.Dict? && StringKeyed(x.entries) && StringKeyed(y.entries) && SameKeys(x.entries, y.entries)
    requires Canonicals(x.entries) && Canonicals(y.entries) && ReviewFields(x.entries, a) && ReviewFields(y.entries, b)
    ensures Canonical(x).Some? && (Canonical(x) == Canonical(y) <==> a == b)
  {
    SameObjects(x.entries, y.entries);
    ReviewFieldsAgree(x.entries, y.entries, a, b);
  }

  // ----- the whole envelope -----

  ghost predicate FixedFields(es: Entries, e: Envelope) {
    && |es| == 11
    && es[0].1 == Int(2) && es[1].1 == Str(e.requestId) && es[2].1 == Str(e.claim)
    && es[3].1 == StatusValue(e.terminalStatus) && es[4].1 == ColumnValue(e.verdict)
    && es[5].1 == e.confidence && es[6].1 == List(Strings(e.agentsRun)) && es[7].1 == List(Events(e.events))
    && es[8].1 == e.finalResponse && es[9].1 == e.dataSources && es[10].1 == e.llmConfig
  }

  const FIXED_MARKS := [14115, 10114, 5099, 15116, 7118, 10099, 10097, 6101, 14102, 12100, 10108]

  lemma HeadMarked(e: Envelope)
    ensures KeysMarked(HeadEntries(e), [14115, 10114, 5099, 15116, 7118])
  {
  }

  lemma BodyMarked(e: Envelope)
    ensures KeysMarked(BodyEntries(e), [10099, 10097, 6101, 14102, 12100, 10108])
  {
  }

  /** review_recovery, then review. */
  function AddedMarks(e: Envelope): seq<int> {
    (if e.recovery.Some? then [15114] else []) + (if e.review.Some? then [6114] else [])
  }

  lemma AddedMarked(e: Envelope)
    ensures KeysMarked(AddedEntries(e), AddedMarks(e))
  {
  }

  lemma MarksJoin(a: Entries, b: Entries, m: seq<int>, n: seq<int>)
    requires KeysMarked(a, m) && KeysMarked(b, n)
    ensures KeysMarked(a + b, m + n)
  {
  }

  lemma EnvelopeKeyed(e: Envelope)
    ensures var es := HeadEntries(e) + BodyEntries(e) + AddedEntries(e);
      KeysMarked(es, FIXED_MARKS + AddedMarks(e)) && StringKeyed(es)
  {
    HeadMarked(e);
    BodyMarked(e);
    AddedMarked(e);
    MarksDiffer(e);
    AllMarked(HeadEntries(e), BodyEntries(e), AddedEntries(e), AddedMarks(e));
    MarkedApart(HeadEntries(e) + BodyEntries(e) + AddedEntries(e), FIXED_MARKS + AddedMarks(e));
  }

  lemma MarksDiffer(e: Envelope)
    ensures AllDiffer(FIXED_MARKS + AddedMarks(e))
  {
  }

  lemma AllMarked(head: Entries, body: Entries, added: Entries, marks: seq<int>)
    requires KeysMarked(head, [14115, 10114, 5099, 15116, 7118])
    requires KeysMarked(body, [10099, 10097, 6101, 14102, 12100, 10108]) && KeysMarked(added, marks)
    ensures KeysMarked(head + body + added, FIXED_MARKS + marks)
  {
    MarksJoin(head, body, [14115, 10114, 5099, 15116, 7118], [10099, 10097, 6101, 14102, 12100, 10108]);
    assert [14115, 10114, 5099, 15116, 7118] + [10099, 10097, 6101, 14102, 12100, 10108] == FIXED_MARKS;
    MarksJoin(head + body, added, FIXED_MARKS, marks);
  }

  function FixedEntries(e: Envelope): Entries {
    HeadEntries(e) + BodyEntries(e)
  }

  lemma FixedEntriesOf(e: Envelope)
    ensures FixedFields(FixedEntries(e), e)
  {
  }

  lemma FixedKeys(a: Envelope, b: Envelope)
    ensures SameKeys(FixedEntries(a), FixedEntries(b))
  {
  }

  lemma FixedFieldsAgree(x: Entries, y: Entries, a: Envelope, b: Envelope)
    requires FixedFields(x, a) && FixedFields(y, b) && Details(a.events) && Details(b.events)
    ensures (forall i :: 0 <= i < |x| ==> Canonical(x[i].1) == Canonical(y[i].1)) <==> SameRun(a, b)
  {
    StatusCanonical(a.terminalStatus, b.terminalStatus);
    VerdictCanonical(a.verdict, b.verdict);
    StringsCanonical(a.agentsRun, b.agentsRun);
    EventsCanonical(a.events, b.events);
    ElevenValues(x, y);
    StrCanonical(a.requestId);
    StrCanonical(b.requestId);
    StrCanonical(a.claim);
    StrCanonical(b.claim);
  }

  ghost predicate SameAt(x: Entries, y: Entries, i: nat)
    requires |x| == |y| == 11 && i < 11
  {
    Canonical(x[i].1) == Canonical(y[i].1)
  }

  lemma ElevenValues(x: Entries, y: Entries)
    requires |x| == |y| == 11
    ensures (forall i :: 0 <= i < |x| ==> Canonical(x[i].1) == Canonical(y[i].1)) <==>
      && SameAt(x, y, 0) && SameAt(x, y, 1) && SameAt(x, y, 2) && SameAt(x, y, 3) && SameAt(x, y, 4) && SameAt(x, y, 5)
      && SameAt(x, y, 6) && SameAt(x, y, 7) && SameAt(x, y, 8) && SameAt(x, y, 9) && SameAt(x, y, 10)
  {
  }

  lemma AddedAgree(a: Envelope, b: Envelope)
    requires a.recovery.Some? == b.recovery.Some? && a.review.Some? == b.review.Some?
    ensures var x, y := AddedEntries(a), AddedEntries(b);
      && SameKeys(x, y)
      && ((forall i :: 0 <= i < |x| ==> Canonical(x[i].1) == Canonical(y[i].1)) <==> a.recovery == b.recovery && a.review == b.review)
  {
    AddedValues(a);
    AddedValues(b);
    if a.recovery.Some? {
      RecoveryCanonical(a.recovery.value, b.recovery.value);
    }
    if a.review.Some? {
      ReviewCanonical(a.review.value, b.review.value);
    }
  }

  lemma AddedValues(e: Envelope)
    ensures var es := AddedEntries(e);
      && |es| == (if e.recovery.Some? then 1 else 0) + (if e.review.Some? then 1 else 0)
      && (e.recovery.Some? ==> es[0] == (StrKey("review_recovery"), RecoveryValue(e.recovery.value)))
      && (e.review.Some? ==> es[|es| - 1] == (StrKey("review"), ReviewValue(e.review.value)))
  {
  }

  lemma EnvelopeCanonicals(e: Envelope)
    requires Hashable(e)
    ensures Canonicals(FixedEntries(e) + AddedEntries(e)) && Canonical(EnvelopeValue(e)).Some?
  {
    HeadRepresentable(e);
    BodyRepresentable(e);
    AddedRepresentable(e);
    JoinedEntries(HeadEntries(e), BodyEntries(e));
    JoinedEntries(FixedEntries(e), AddedEntries(e));
    var es := FixedEntries(e) + AddedEntries(e);
    forall i | 0 <= i < |es| ensures Canonical(es[i].1).Some? {
      RefusesUnrepresentable(es[i].1);
    }
    EnvelopeKeyed(e);
    CanonicalDict(es);
  }

  lemma PointwiseJoin(x: Entries, y: Entries, u: Entries, v: Entries)
    requires SameKeys(x, y) && SameKeys(u, v)
    ensures SameKeys(x + u, y + v)
    ensures (forall i :: 0 <= i < |x + u| ==> Canonical((x + u)[i].1) == Canonical((y + v)[i].1)) <==>
      && (forall i :: 0 <= i < |x| ==> Canonical(x[i].1) == Canonical(y[i].1))
      && (forall i :: 0 <= i < |u| ==> Canonical(u[i].1) == Canonical(v[i].1))
  {
    assert forall i :: 0 <= i < |x| ==> (x + u)[i] == x[i] && (y + v)[i] == y[i];
    assert forall i :: 0 <= i < |u| ==> (x + u)[|x| + i] == u[i] && (y + v)[|x| + i] == v[i];
  }

  lemma SameBlocks(a: Envelope, b: Envelope)
    requires Hashable(a) && Hashable(b)
    requires a.recovery.Some? == b.recovery.Some? && a.review.Some? == b.review.Some?
    ensures Canonical(EnvelopeValue(a)) == Canonical(EnvelopeValue(b)) <==> SameContent(a, b)
  {
    EnvelopeCanonicals(a);
    EnvelopeCanonicals(b);
    EnvelopeKeyed(a);
    EnvelopeKeyed(b);
    FixedKeys(a, b);
    AddedAgree(a, b);
    PointwiseJoin(FixedEntries(a), FixedEntries(b), AddedEntries(a), AddedEntries(b));
    SameObjects(FixedEntries(a) + AddedEntries(a), FixedEntries(b) + AddedEntries(b));
    FixedEntriesOf(a);
    FixedEntriesOf(b);
    FixedFieldsAgree(FixedEntries(a), FixedEntries(b), a, b);
  }

  /** The blocks a review adds are told by their presence. */
  lemma OtherBlocks(a: Envelope, b: Envelope)
    requires Hashable(a) && Hashable(b)
    requires (a.recovery.Some? && b.recovery == None) || (a.review.Some? && b.review == None)
    ensures Canonical(EnvelopeValue(a)) != Canonical(EnvelopeValue(b))
  {
    EnvelopeCanonicals(a);
    EnvelopeCanonicals(b);
    EnvelopeKeyed(a);
    EnvelopeKeyed(b);
    var m, n := FIXED_MARKS + AddedMarks(a), FIXED_MARKS + AddedMarks(b);
    var i := MissingMark(a, b);
    OtherMarksDiffer(FixedEntries(a) + AddedEntries(a), FixedEntries(b) + AddedEntries(b), m, n, i);
  }

  lemma MissingMark(a: Envelope, b: Envelope) returns (i: nat)
    requires (a.recovery.Some? && b.recovery == None) || (a.review.Some? && b.review == None)
    ensures var m, n := FIXED_MARKS + AddedMarks(a), FIXED_MARKS + AddedMarks(b); i < |m| && m[i] !in n
  {
    var mark := if a.recovery.Some? && b.recovery == None then 15114 else 6114;
    assert mark in AddedMarks(a) && mark !in AddedMarks(b) && mark !in FIXED_MARKS;
    var k :| 0 <= k < |AddedMarks(a)| && AddedMarks(a)[k] == mark;
    i := |FIXED_MARKS| + k;
  }

  lemma OtherMarksDiffer(x: Entries, y: Entries, m: seq<int>, n: seq<int>, i: nat)
    requires KeysMarked(x, m) && KeysMarked(y, n) && StringKeyed(x) && StringKeyed(y) && Canonicals(x) && Canonicals(y)
    requires i < |x| && m[i] !in n
    ensures Canonical(Dict(x)) != Canonical(Dict(y))
  {
    forall j | 0 <= j < |y| ensures x[i].0.text != y[j].0.text {
      assert KeyMark(y[j].0.text) == n[j];
    }
    OtherKeysDiffer(x, y, i);
  }

  /** The checksum covers the envelope: two have one canonical form exactly when they agree in every field. */
  lemma ChecksumCovers(a: Envelope, b: Envelope)
    requires Hashable(a) && Hashable(b)
    ensures Canonical(EnvelopeValue(a)) == Canonical(EnvelopeValue(b)) <==> SameContent(a, b)
  {
    if a.recovery.Some? == b.recovery.Some? && a.review.Some? == b.review.Some? {
      SameBlocks(a, b);
    } else if (a.recovery.Some? && b.recovery == None) || (a.review.Some? && b.review == None) {
      OtherBlocks(a, b);
    } else {
      OtherBlocks(b, a);
    }
  }

  /**
   In every reachable state, under a hash that gives no other encoding a row's hash, an envelope verifies
   against that row exactly when it agrees with the row's own in every field: nothing can be edited.
   */
  lemma EditedEnvelopeDoesNotVerify(s: Log, steps: seq<Step>, r: string, hash: Hash, b: Envelope)
    requires forall c :: hash(c) != ""
    requires Inv(s, ChecksumOf(hash)) && EnabledRun(s, steps, ChecksumOf(hash)) && r in Run(s, steps, ChecksumOf(hash)).rows
    requires KeepsApart(hash, Canonical(EnvelopeValue(Run(s, steps, ChecksumOf(hash)).rows[r].fullTrace)).GetOr(CNull))
    ensures var row := Run(s, steps, ChecksumOf(hash)).rows[r];
      Verify(EnvelopeValue(b), row.executionHash, hash) <==> Hashable(b) && SameContent(row.fullTrace, b)
  {
    EveryRunKeepsInv(s, steps, ChecksumOf(hash));
    EditedDoesNotVerify(Run(s, steps, ChecksumOf(hash)).rows[r], hash, b);
  }

  lemma EditedDoesNotVerify(row: Row, hash: Hash, b: Envelope)
    requires forall c :: hash(c) != ""
    requires RowOk(row, ChecksumOf(hash)) && KeepsApart(hash, Canonical(EnvelopeValue(row.fullTrace)).GetOr(CNull))
    ensures Verify(EnvelopeValue(b), row.executionHash, hash) <==> Hashable(b) && SameContent(row.fullTrace, b)
  {
    var own := EnvelopeValue(row.fullTrace);
    assert ChecksumOf(hash)(row.fullTrace) == Some(row.executionHash) == Checksum(own, hash);
    ChecksumDefined(row.fullTrace, hash);
    ChecksumDefined(b, hash);
    if Hashable(b) {
      ChecksumCovers(row.fullTrace, b);
      SameHashSameForm(own, EnvelopeValue(b), hash);
    }
  }

  lemma SameHashSameForm(own: Value, other: Value, hash: Hash)
    requires Canonical(own).Some? && Canonical(other).Some? && KeepsApart(hash, Canonical(own).value)
    ensures Checksum(own, hash) == Checksum(other, hash) <==> Canonical(own) == Canonical(other)
  {
  }
}

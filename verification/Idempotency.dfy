/**
 * Idempotent mutations: reserve a key, execute, complete, commit, in one transaction.
 *
 * Three flows share the protocol: issuing external tokens, the external player, and
 * internal enrollments. The first two store their whole answer with the reservation and
 * replay it. The third stores the id of the created attempt at most, and every answer,
 * first or replayed, carries the enrollment's progress as it is read after the commit.
 * The reserving statement is INSERT ... ON CONFLICT DO UPDATE, so it waits for any
 * transaction that holds the key (guard of Reserve); a rollback removes an uncommitted
 * reservation.
 */
module Idempotency {
  import opened Prelude
  import opened Runs
  import opened Strings

  type CallId = nat
  type ResultId = nat
  type AttemptView = nat

  datatype Flow = Token | Player | Enrollment

  datatype Operation = CompleteLesson | SubmitQuiz | Other(id: nat)

  datatype Key = Key(tenant: nat, actor: nat, operation: Operation, text: string)

  /** What the key is bound to: the request hash and, where the flow checks it, the aggregate. */
  datatype Request = Request(hash: nat, aggregate: nat)

  /** What completion stores: a payload in the external flows, a result id in the internal one. */
  datatype Stored = Stored(text: string, ref: Option<ResultId>)

  /** A reservation row; `stored` is set together with completed_at. */
  datatype Reservation = Reservation(request: Request, stored: Option<Stored>)

  /** An enrollment as its snapshot shows it: each attempt, and the rest as one opaque value. */
  datatype Progress = Progress(attempts: map<ResultId, AttemptView>, rest: nat)

  datatype Phase =
    | Reserved
    | Executed(result: ResultId)
    | Completed(result: ResultId, stored: Stored)

  /** A call in its transaction; `mine` says this call inserted the reservation. */
  datatype Call = Call(key: Key, request: Request, row: Reservation, mine: bool, phase: Phase)

  /** A call of the internal flow after its commit; `created` is the attempt it made itself. */
  datatype Reading = Reading(key: Key, request: Request, ref: Option<ResultId>, created: Option<AttemptView>)

  datatype Answer =
    | Conflict
    | NotCompleted
    | Failed
    | Replayed(payload: string)
    | Done(payload: string)
    | Seen(ref: Option<ResultId>, attempt: Option<AttemptView>, progress: Progress)

  datatype Reply = Reply(key: Key, request: Request, answer: Answer)

  datatype Effect = Effect(key: Key, request: Request, result: ResultId)

  datatype State = State(table: map<Key, Reservation>, effects: seq<Effect>, calls: map<CallId, Call>, replies: seq<Reply>,
                         reading: map<CallId, Reading>, progress: map<nat, Progress>)

  datatype Step =
    | Reserve(call: CallId, key: Key, request: Request)
    | AnswerEarly(call: CallId)                     // conflict, replay or the not-completed error
    | Execute(call: CallId, result: ResultId)
    | Complete(call: CallId, text: string)
    | Commit(call: CallId, reported: bool, created: AttemptView, rest: nat)
    | Fail(call: CallId)
    | Read(call: CallId)                            // the snapshot query after the commit
    | FailRead(call: CallId)
    | Touch(aggregate: nat, progress: Progress)     // any other operation on the enrollment, such as a review

  /** Does the key belong to another request? Only the token flow ignores the aggregate. */
  predicate Mismatch(flow: Flow, row: Reservation, request: Request) {
    row.request.hash != request.hash || (flow != Token && row.request.aggregate != request.aggregate)
  }

  datatype Early = Proceed | Refuse(answer: Answer) | Replay(stored: Stored)

  /** What the row found by the reservation makes of the call. */
  function EarlyOf(flow: Flow, call: Call): Early {
    if Mismatch(flow, call.row, call.request) then Refuse(Conflict) else
      match flow
      case Token =>
        if call.mine then Proceed
        else if call.row.stored.Some? && call.row.stored.value.text != "" then Replay(call.row.stored.value)
        else Refuse(NotCompleted)
      case Player =>
        if call.row.stored.Some? && call.row.stored.value.text != "" then Replay(call.row.stored.value) else Proceed
      case Enrollment =>
        if call.row.stored.None? then Proceed
        else if call.key.operation == SubmitQuiz && call.row.stored.value.ref.None? then Refuse(Failed)
        else Replay(call.row.stored.value)
  }

  /** What completion writes for this flow and operation. */
  function StoredBy(flow: Flow, key: Key, result: ResultId, text: string): Stored {
    if flow != Enrollment then Stored(text, None) else Stored("", if key.operation == SubmitQuiz then Some(result) else None)
  }

  function Current(s: State, aggregate: nat): Progress {
    if aggregate in s.progress then s.progress[aggregate] else Progress(map[], 0)
  }

  /** The enrollment after the mutation: the new attempt, if any, beside the earlier ones. */
  function Advanced(p: Progress, ref: Option<ResultId>, created: AttemptView, rest: nat): Progress {
    Progress(if ref.Some? then p.attempts[ref.value := created] else p.attempts, rest)
  }

  function SetCall(s: State, c: CallId, call: Call): State { s.(calls := s.calls[c := call]) }

  function EndCall(s: State, c: CallId, answer: Answer): State
    requires c in s.calls
  {
    s.(calls := s.calls - {c}, replies := s.replies + [Reply(s.calls[c].key, s.calls[c].request, answer)])
  }

  /** The internal flow leaves its transaction and goes on to read the snapshot. */
  function ToRead(s: State, c: CallId, ref: Option<ResultId>, created: Option<AttemptView>): State
    requires c in s.calls
  {
    s.(calls := s.calls - {c}, reading := s.reading[c := Reading(s.calls[c].key, s.calls[c].request, ref, created)])
  }

  function ReplayTo(flow: Flow, s: State, c: CallId, stored: Stored): State
    requires c in s.calls
  {
    if flow == Enrollment then ToRead(s, c, stored.ref, None) else EndCall(s, c, Replayed(stored.text))
  }

  /** Table, effects and progress once the transaction of c took effect. */
  function Committed(flow: Flow, s: State, c: CallId, created: AttemptView, rest: nat): State
    requires c in s.calls && s.calls[c].phase.Completed?
  {
    var call := s.calls[c];
    var agg := call.request.aggregate;
    s.(table := s.table[call.key := call.row.(stored := Some(call.phase.stored))],
    effects := s.effects + [Effect(call.key, call.request, call.phase.result)],
    progress := if flow == Enrollment then s.progress[agg := Advanced(Current(s, agg), call.phase.stored.ref, created, rest)] else s.progress)
  }

  function AfterCommit(flow: Flow, s: State, c: CallId, reported: bool, created: AttemptView, rest: nat): State
    requires c in s.calls && s.calls[c].phase.Completed?
  {
    var stored := s.calls[c].phase.stored;
    var t := Committed(flow, s, c, created, rest);
    if !reported then EndCall(t, c, Failed)
    else if flow == Enrollment then ToRead(t, c, stored.ref, if stored.ref.Some? then Some(created) else None)
    else EndCall(t, c, Done(stored.text))
  }

  /** What the read makes of the snapshot: the attempt it created, or the stored one looked up in it. */
  function Answered(r: Reading, p: Progress): Answer {
    if r.ref.None? then Seen(None, None, p)
    else if r.created.Some? then Seen(r.ref, r.created, p)
    else if r.ref.value in p.attempts then Seen(r.ref, Some(p.attempts[r.ref.value]), p)
    else Failed
  }

  function EndRead(s: State, c: CallId, answer: Answer): State
    requires c in s.reading
  {
    s.(reading := s.reading - {c}, replies := s.replies + [Reply(s.reading[c].key, s.reading[c].request, answer)])
  }

  function Opened(table: map<Key, Reservation>, key: Key, request: Request): Call {
    if key in table then Call(key, request, table[key], false, Reserved)
    else Call(key, request, Reservation(request, None), true, Reserved)
  }

  ghost predicate Next(flow: Flow, s: State, step: Step, s': State) {
    match step
    case Reserve(c, key, request) =>
      && c !in s.calls && c !in s.reading && (forall d :: d in s.calls ==> s.calls[d].key != key)
      && s' == SetCall(s, c, Opened(s.table, key, request))
    case AnswerEarly(c) =>
      && c in s.calls && s.calls[c].phase == Reserved && !EarlyOf(flow, s.calls[c]).Proceed?
      && s' == (match EarlyOf(flow, s.calls[c])
                case Refuse(answer) => EndCall(s, c, answer)
                case Replay(stored) => ReplayTo(flow, s, c, stored)
                case Proceed => s)
    case Execute(c, result) =>
      && c in s.calls && s.calls[c].phase == Reserved && EarlyOf(flow, s.calls[c]).Proceed?
      && s' == SetCall(s, c, s.calls[c].(phase := Executed(result)))
    case Complete(c, text) =>
      // UPDATE ... WHERE completed_at IS NULL must return a row
      && c in s.calls && s.calls[c].phase.Executed? && s.calls[c].row.stored.None? && (flow == Token ==> text != "")
      && s' == SetCall(s, c, s.calls[c].(phase := Completed(s.calls[c].phase.result, StoredBy(flow, s.calls[c].key, s.calls[c].phase.result, text))))
    case Commit(c, reported, created, rest) =>
      && c in s.calls && s.calls[c].phase.Completed?
      && s' == AfterCommit(flow, s, c, reported, created, rest)
    case Fail(c) =>
      c in s.calls && s' == EndCall(s, c, Failed)
    case Read(c) =>
      c in s.reading && s' == EndRead(s, c, Answered(s.reading[c], Current(s, s.reading[c].request.aggregate)))
    case FailRead(c) =>
      c in s.reading && s' == EndRead(s, c, Failed)
    case Touch(agg, p) =>
      // attempts are never deleted
      Current(s, agg).attempts.Keys <= p.attempts.Keys && s' == s.(progress := s.progress[agg := p])
  }

  ghost function Steps(flow: Flow): (State, Step, State) -> bool {
    (s: State, step: Step, s': State) => Next(flow, s, step, s')
  }

  function Empty(): State { State(map[], [], map[], [], map[], map[]) }

  ghost predicate IsRun(flow: Flow, run: Run<State, Step>) {
    IsPath(Steps(flow), run) && run.states[0] == Empty()
  }

  // ----- the invariant -----

  type Table = map<Key, Reservation>

  /** What completion may have stored under a key. */
  predicate StoredOk(flow: Flow, key: Key, stored: Stored) {
    && (flow == Token ==> stored.text != "")
    && (flow == Enrollment ==> stored.text == "" && (stored.ref.Some? <==> key.operation == SubmitQuiz))
  }

  ghost predicate CallInv(flow: Flow, table: Table, call: Call) {
    && (call.mine ==> call.key !in table && call.row == Reservation(call.request, None))
    && (!call.mine ==> call.key in table && table[call.key] == call.row)
    && (!call.phase.Reserved? ==> EarlyOf(flow, call).Proceed?)
    && (call.phase.Completed? ==> call.mine && StoredOk(flow, call.key, call.phase.stored))
  }

  ghost predicate CallsInv(flow: Flow, table: Table, calls: map<CallId, Call>) {
    && (forall c :: c in calls ==> CallInv(flow, table, calls[c]))
    && forall c, d :: c in calls && d in calls && calls[c].key == calls[d].key ==> c == d
  }

  /** A committed row is completed, and an attempt it names is in the enrollment. */
  ghost predicate RowInv(flow: Flow, s: State, key: Key, row: Reservation) {
    && row.stored.Some? && StoredOk(flow, key, row.stored.value)
    && (flow == Enrollment && row.stored.value.ref.Some? ==> row.stored.value.ref.value in Current(s, row.request.aggregate).attempts)
  }

  ghost predicate RowsInv(flow: Flow, s: State) { forall k :: k in s.table ==> RowInv(flow, s, k, s.table[k]) }

  ghost predicate HasEffect(effects: seq<Effect>, key: Key) { exists i :: 0 <= i < |effects| && effects[i].key == key }

  /** Every committed reservation stands for exactly one effect. */
  ghost predicate EffectsInv(table: Table, effects: seq<Effect>) {
    && (forall i, j :: 0 <= i < j < |effects| ==> effects[i].key != effects[j].key)
    && (forall i :: 0 <= i < |effects| ==> effects[i].key in table && table[effects[i].key].request == effects[i].request)
    && (forall k :: k in table ==> HasEffect(effects, k))
  }

  /** The request is the one the row was made for, as far as the flow can tell: same hash and, except for tokens, same aggregate. */
  ghost predicate SameRequest(flow: Flow, row: Reservation, request: Request) {
    row.request.hash == request.hash && (flow != Token ==> row.request.aggregate == request.aggregate)
  }

  /** Who reads works on a committed row of its own request. */
  ghost predicate ReadingInv(flow: Flow, table: Table, r: Reading) {
    && flow == Enrollment && r.key in table && table[r.key].stored.Some? && table[r.key].stored.value.ref == r.ref
    && SameRequest(flow, table[r.key], r.request)
  }

  ghost predicate ReadingsInv(flow: Flow, table: Table, reading: map<CallId, Reading>) {
    forall c :: c in reading ==> ReadingInv(flow, table, reading[c])
  }

  ghost predicate ReplyInv(flow: Flow, table: Table, reply: Reply) {
    var key, request := reply.key, reply.request;
    match reply.answer
    case Replayed(payload) =>
      && flow != Enrollment && key in table && table[key].stored.Some? && table[key].stored.value.text == payload
      && SameRequest(flow, table[key], request)
    case Done(payload) =>
      && flow != Enrollment && key in table && table[key].stored.Some? && table[key].stored.value.text == payload
      && SameRequest(flow, table[key], request)
    case Seen(ref, attempt, p) =>
      && flow == Enrollment && key in table && table[key].stored.Some? && table[key].stored.value.ref == ref
      && SameRequest(flow, table[key], request)
    case Conflict => key in table && !SameRequest(flow, table[key], request)
    case NotCompleted => false
    case Failed => true
  }

  ghost predicate RepliesInv(flow: Flow, table: Table, replies: seq<Reply>) {
    forall i :: 0 <= i < |replies| ==> ReplyInv(flow, table, replies[i])
  }

  ghost predicate Inv(flow: Flow, s: State) {
    && CallsInv(flow, s.table, s.calls) && RowsInv(flow, s) && EffectsInv(s.table, s.effects)
    && ReadingsInv(flow, s.table, s.reading) && RepliesInv(flow, s.table, s.replies)
  }

  lemma PutCall(flow: Flow, table: Table, calls: map<CallId, Call>, c: CallId, call: Call)
    requires CallsInv(flow, table, calls) && CallInv(flow, table, call)
    requires forall d :: d in calls && d != c ==> calls[d].key != call.key
    ensures CallsInv(flow, table, calls[c := call])
  {
    hide CallInv;
  }

  lemma DropCall(flow: Flow, table: Table, calls: map<CallId, Call>, c: CallId)
    requires CallsInv(flow, table, calls)
    ensures CallsInv(flow, table, calls - {c})
  {
    hide CallInv;
  }

  lemma PutReply(flow: Flow, table: Table, replies: seq<Reply>, reply: Reply)
    requires RepliesInv(flow, table, replies) && ReplyInv(flow, table, reply)
    ensures RepliesInv(flow, table, replies + [reply])
  {
    hide ReplyInv;
  }

  lemma PutReading(flow: Flow, table: Table, reading: map<CallId, Reading>, c: CallId, r: Reading)
    requires ReadingsInv(flow, table, reading) && ReadingInv(flow, table, r)
    ensures ReadingsInv(flow, table, reading[c := r])
  {
    hide ReadingInv;
  }

  lemma DropReading(flow: Flow, table: Table, reading: map<CallId, Reading>, c: CallId)
    requires ReadingsInv(flow, table, reading)
    ensures ReadingsInv(flow, table, reading - {c})
  {
    hide ReadingInv;
  }

  /** A new row disturbs nothing that is said under other keys. */
  lemma NewRow(flow: Flow, table: Table, key: Key, row: Reservation)
    requires key !in table
    ensures forall r :: ReadingInv(flow, table, r) ==> ReadingInv(flow, table[key := row], r)
    ensures forall r :: ReplyInv(flow, table, r) ==> ReplyInv(flow, table[key := row], r)
    ensures forall call :: CallInv(flow, table, call) && call.key != key ==> CallInv(flow, table[key := row], call)
  {
  }

  lemma SameRows(flow: Flow, s: State, s': State)
    requires RowsInv(flow, s) && s'.table == s.table
    requires forall agg :: Current(s, agg).attempts.Keys <= Current(s', agg).attempts.Keys
    ensures RowsInv(flow, s')
  {
    hide StoredOk;
    forall k | k in s'.table ensures RowInv(flow, s', k, s'.table[k]) { assert RowInv(flow, s, k, s.table[k]); }
  }

  lemma OnlyCommitsWrite(flow: Flow, s: State, step: Step, s': State)
    requires Next(flow, s, step, s') && !step.Commit?
    ensures s'.table == s.table && s'.effects == s.effects
  {
  }

  lemma ProgressOnly(flow: Flow, s: State, s': State)
    requires Inv(flow, s) && s'.table == s.table && s'.effects == s.effects && s'.progress == s.progress
    requires CallsInv(flow, s.table, s'.calls) && ReadingsInv(flow, s.table, s'.reading) && RepliesInv(flow, s.table, s'.replies)
    ensures Inv(flow, s')
  {
    hide CallsInv, ReadingsInv, RepliesInv, EffectsInv;
    SameRows(flow, s, s');
  }

  /** Reserve, Execute and Complete only move their own call on. */
  lemma MoveOnKeeps(flow: Flow, s: State, step: Step, s': State)
    requires Inv(flow, s) && Next(flow, s, step, s') && (step.Reserve? || step.Execute? || step.Complete?)
    ensures Inv(flow, s')
  {
    var c := step.call;
    if c in s.calls { assert CallInv(flow, s.table, s.calls[c]); }
    assert CallInv(flow, s.table, s'.calls[c]);
    hide CallInv, EffectsInv, RowsInv, ReadingsInv, RepliesInv, EarlyOf;
    PutCall(flow, s.table, s.calls, c, s'.calls[c]);
    ProgressOnly(flow, s, s');
  }

  /** A call that ends with an answer. */
  lemma EndCallKeeps(flow: Flow, s: State, c: CallId, answer: Answer)
    requires Inv(flow, s) && c in s.calls && ReplyInv(flow, s.table, Reply(s.calls[c].key, s.calls[c].request, answer))
    ensures Inv(flow, EndCall(s, c, answer))
  {
    hide CallsInv, ReadingsInv, RepliesInv, EffectsInv, ReplyInv, RowsInv;
    DropCall(flow, s.table, s.calls, c);
    PutReply(flow, s.table, s.replies, Reply(s.calls[c].key, s.calls[c].request, answer));
    ProgressOnly(flow, s, EndCall(s, c, answer));
  }

  lemma ToReadKeeps(flow: Flow, s: State, c: CallId, ref: Option<ResultId>, created: Option<AttemptView>)
    requires Inv(flow, s) && c in s.calls && ReadingInv(flow, s.table, Reading(s.calls[c].key, s.calls[c].request, ref, created))
    ensures Inv(flow, ToRead(s, c, ref, created))
  {
    hide CallsInv, ReadingsInv, RepliesInv, EffectsInv, ReadingInv, RowsInv;
    DropCall(flow, s.table, s.calls, c);
    PutReading(flow, s.table, s.reading, c, Reading(s.calls[c].key, s.calls[c].request, ref, created));
    ProgressOnly(flow, s, ToRead(s, c, ref, created));
  }

  lemma AnswerEarlyKeeps(flow: Flow, s: State, c: CallId, s': State)
    requires Inv(flow, s) && Next(flow, s, AnswerEarly(c), s')
    ensures Inv(flow, s')
  {
    var call := s.calls[c];
    assert CallInv(flow, s.table, call);
    if !call.mine { assert RowInv(flow, s, call.key, s.table[call.key]); }
    hide CallsInv, ReadingsInv, RepliesInv, EffectsInv, RowsInv;
    match EarlyOf(flow, call)
    case Refuse(answer) => EndCallKeeps(flow, s, c, answer);
    case Replay(stored) =>
      if flow == Enrollment { ToReadKeeps(flow, s, c, stored.ref, None); } else { EndCallKeeps(flow, s, c, Replayed(stored.text)); }
    case Proceed =>
  }

  lemma ReadKeeps(flow: Flow, s: State, step: Step, s': State)
    requires Inv(flow, s) && Next(flow, s, step, s') && (step.Read? || step.FailRead?)
    ensures Inv(flow, s')
  {
    var c := step.call;
    var r := s.reading[c];
    assert ReadingInv(flow, s.table, r);
    hide CallsInv, ReadingsInv, RepliesInv, EffectsInv, RowsInv, Current;
    var reply := s'.replies[|s.replies|];
    assert ReplyInv(flow, s.table, reply);
    hide ReplyInv, ReadingInv, Answered;
    DropReading(flow, s.table, s.reading, c);
    PutReply(flow, s.table, s.replies, reply);
    ProgressOnly(flow, s, s');
  }

  lemma TouchKeeps(flow: Flow, s: State, step: Step, s': State)
    requires Inv(flow, s) && Next(flow, s, step, s') && step.Touch?
    ensures Inv(flow, s')
  {
    hide CallsInv, ReadingsInv, RepliesInv, EffectsInv, RowsInv;
    SameRows(flow, s, s');
  }

  // A commit.

  lemma CommitRows(flow: Flow, s: State, c: CallId, created: AttemptView, rest: nat)
    requires Inv(flow, s) && c in s.calls && s.calls[c].phase.Completed?
    ensures s.calls[c].key !in s.table
    ensures
      var call := s.calls[c];
      var t := Committed(flow, s, c, created, rest);
      t.table == s.table[call.key := Reservation(call.request, Some(call.phase.stored))] && RowsInv(flow, t)
  {
    var call := s.calls[c];
    assert CallInv(flow, s.table, call);
    hide EffectsInv, RepliesInv, ReadingsInv;
    var t := Committed(flow, s, c, created, rest);
    forall k | k in t.table ensures RowInv(flow, t, k, t.table[k]) {
      if k in s.table { assert RowInv(flow, s, k, s.table[k]); }
    }
  }

  lemma CommitEffects(table: Table, effects: seq<Effect>, effect: Effect, row: Reservation)
    requires EffectsInv(table, effects) && effect.key !in table && row.request == effect.request
    ensures EffectsInv(table[effect.key := row], effects + [effect])
  {
    var table', effects' := table[effect.key := row], effects + [effect];
    forall k | k in table' ensures HasEffect(effects', k) {
      if k in table {
        assert HasEffect(effects, k);
        var i :| 0 <= i < |effects| && effects[i].key == k;
        assert effects'[i].key == k;
      } else {
        assert effects'[|effects|].key == k;
      }
    }
  }

  /** The invariant after a commit, with the call still to be dropped: its own claim on the table is the one that no longer holds. */
  lemma CommittedOthers(flow: Flow, s: State, c: CallId, row: Reservation)
    requires Inv(flow, s) && c in s.calls && s.calls[c].key !in s.table
    ensures
      var table := s.table[s.calls[c].key := row];
      CallsInv(flow, table, s.calls - {c}) && ReadingsInv(flow, table, s.reading) && RepliesInv(flow, table, s.replies)
  {
    hide EffectsInv, RowsInv;
    NewRow(flow, s.table, s.calls[c].key, row);
    hide CallInv, ReplyInv, ReadingInv;
  }

  /** What a committed call leaves behind fits its own new row. */
  lemma CommittedOwn(flow: Flow, table: Table, call: Call, row: Reservation, created: Option<AttemptView>)
    requires call.phase.Completed? && row == Reservation(call.request, Some(call.phase.stored))
    ensures
      var table' := table[call.key := row];
      && ReplyInv(flow, table', Reply(call.key, call.request, Failed))
      && (flow != Enrollment ==> ReplyInv(flow, table', Reply(call.key, call.request, Done(call.phase.stored.text))))
      && (flow == Enrollment ==> ReadingInv(flow, table', Reading(call.key, call.request, call.phase.stored.ref, created)))
  {
  }

  lemma CommitKeeps(flow: Flow, s: State, c: CallId, reported: bool, created: AttemptView, rest: nat)
    requires Inv(flow, s) && c in s.calls && s.calls[c].phase.Completed?
    ensures Inv(flow, AfterCommit(flow, s, c, reported, created, rest))
  {
    hide CallsInv, ReadingsInv, RepliesInv, EffectsInv, RowsInv, ReplyInv, ReadingInv;
    var call := s.calls[c];
    CommitRows(flow, s, c, created, rest);
    var t, s' := Committed(flow, s, c, created, rest), AfterCommit(flow, s, c, reported, created, rest);
    var row := Reservation(call.request, Some(call.phase.stored));
    var own := if call.phase.stored.ref.Some? then Some(created) else None;
    CommittedOthers(flow, s, c, row);
    CommittedOwn(flow, s.table, call, row, own);
    CommitEffects(s.table, s.effects, Effect(call.key, call.request, call.phase.result), row);
    if !reported {
      PutReply(flow, t.table, s.replies, Reply(call.key, call.request, Failed));
    } else if flow == Enrollment {
      PutReading(flow, t.table, s.reading, c, Reading(call.key, call.request, call.phase.stored.ref, own));
    } else {
      PutReply(flow, t.table, s.replies, Reply(call.key, call.request, Done(call.phase.stored.text)));
    }
    SameRows(flow, t, s');
  }

  lemma StepKeeps(flow: Flow, s: State, step: Step, s': State)
    requires Inv(flow, s) && Next(flow, s, step, s')
    ensures Inv(flow, s')
  {
    hide Inv;
    match step
    case Commit(c, reported, created, rest) => CommitKeeps(flow, s, c, reported, created, rest);
    case AnswerEarly(c) => AnswerEarlyKeeps(flow, s, c, s');
    case Fail(c) => EndCallKeeps(flow, s, c, Failed);
    case Read(_) => ReadKeeps(flow, s, step, s');
    case FailRead(_) => ReadKeeps(flow, s, step, s');
    case Touch(_, _) => TouchKeeps(flow, s, step, s');
    case _ => MoveOnKeeps(flow, s, step, s');
  }

  lemma {:induction false} RunInv(flow: Flow, run: Run<State, Step>, n: nat)
    requires IsRun(flow, run) && n < |run.states|
    ensures Inv(flow, run.states[n])
  {
    if n > 0 {
      RunInv(flow, run, n - 1);
      assert Next(flow, run.states[n - 1], run.steps[n - 1], run.states[n]);
      StepKeeps(flow, run.states[n - 1], run.steps[n - 1], run.states[n]);
    }
  }

  // ----- what every run guarantees -----

  /** How often a key's mutation has been committed. */
  function Times(effects: seq<Effect>, key: Key): nat {
    if effects == [] then 0 else (if effects[0].key == key then 1 else 0) + Times(effects[1..], key)
  }

  lemma {:induction false} TimesOfDistinct(effects: seq<Effect>, key: Key)
    requires forall i, j :: 0 <= i < j < |effects| ==> effects[i].key != effects[j].key
    ensures Times(effects, key) <= 1
    ensures Times(effects, key) == 1 <==> HasEffect(effects, key)
  {
    if effects != [] {
      TimesOfDistinct(effects[1..], key);
      if HasEffect(effects, key) {
        var i :| 0 <= i < |effects| && effects[i].key == key;
        if i > 0 { assert effects[1..][i - 1].key == key; }
      }
    }
  }

  /** A key's mutation commits at most once, and exactly when a completed reservation is stored. */
  lemma CommitsAtMostOnce(flow: Flow, run: Run<State, Step>, n: nat, key: Key)
    requires IsRun(flow, run) && n < |run.states|
    ensures Times(run.states[n].effects, key) == if key in run.states[n].table then 1 else 0
    ensures key in run.states[n].table ==> run.states[n].table[key].stored.Some?
  {
    RunInv(flow, run, n);
    TimesOfDistinct(run.states[n].effects, key);
    if key in run.states[n].table { assert RowInv(flow, run.states[n], key, run.states[n].table[key]); }
  }

  lemma OwnKey(flow: Flow, s: State, c: CallId)
    requires Inv(flow, s) && c in s.calls && s.calls[c].phase.Completed?
    ensures s.calls[c].key !in s.table
  {
    assert CallInv(flow, s.table, s.calls[c]);
  }

  lemma {:induction false} StoredForever(flow: Flow, run: Run<State, Step>, i: nat, j: nat, key: Key)
    requires IsRun(flow, run) && i <= j < |run.states| && key in run.states[i].table
    ensures key in run.states[j].table && run.states[j].table[key] == run.states[i].table[key]
  {
    if i < j {
      hide Inv;
      StoredForever(flow, run, i, j - 1, key);
      RunInv(flow, run, j - 1);
      var s, step, s' := run.states[j - 1], run.steps[j - 1], run.states[j];
      assert Next(flow, s, step, s');
      if step.Commit? { OwnKey(flow, s, step.call); } else { OnlyCommitsWrite(flow, s, step, s'); }
    }
  }

  /** What two answers for one key have in common. */
  ghost predicate Agree(a: Answer, b: Answer) {
    && ((a.Done? || a.Replayed?) && (b.Done? || b.Replayed?) ==> a.payload == b.payload)
    && (a.Seen? && b.Seen? ==> a.ref == b.ref)
  }

  /**
   * All results ever given for one key agree: in the external flows they are the stored
   * payload, first or replayed; in the internal flow they name the same attempt. The "not
   * completed" error is never given.
   */
  lemma AnswersAgree(flow: Flow, run: Run<State, Step>, n: nat, i: nat, j: nat)
    requires IsRun(flow, run) && n < |run.states| && i < |run.states[n].replies| && j < |run.states[n].replies|
    requires run.states[n].replies[i].key == run.states[n].replies[j].key
    ensures run.states[n].replies[i].answer != NotCompleted
    ensures Agree(run.states[n].replies[i].answer, run.states[n].replies[j].answer)
    ensures run.states[n].replies[i].answer.Seen? ==> flow == Enrollment
    ensures run.states[n].replies[i].answer.Done? || run.states[n].replies[i].answer.Replayed? ==> flow != Enrollment
  {
    RunInv(flow, run, n);
    assert ReplyInv(flow, run.states[n].table, run.states[n].replies[i]) && ReplyInv(flow, run.states[n].table, run.states[n].replies[j]);
  }

  /** The request of a call that is no conflict names the aggregate of the stored row. */
  lemma ReadsOwnRow(flow: Flow, run: Run<State, Step>, n: nat, c: CallId)
    requires IsRun(flow, run) && n < |run.states| && c in run.states[n].reading
    ensures
      var s, r := run.states[n], run.states[n].reading[c];
      && flow == Enrollment && r.key in s.table && s.table[r.key].request.aggregate == r.request.aggregate
      && (r.ref.Some? ==> r.ref.value in Current(s, r.request.aggregate).attempts)
  {
    RunInv(flow, run, n);
    var s, r := run.states[n], run.states[n].reading[c];
    assert ReadingInv(flow, s.table, r);
    assert RowInv(flow, s, r.key, s.table[r.key]);
  }

  /**
   * The answer of the internal flow is read, not stored: the progress it shows is the one
   * at the time of the read, and a replay shows the stored attempt as it is then. The
   * attempt is always found.
   */
  lemma SeenIsCurrent(flow: Flow, run: Run<State, Step>, n: nat)
    requires IsRun(flow, run) && n < |run.steps| && run.steps[n].Read?
    ensures run.steps[n].call in run.states[n].reading
    ensures
      var s, s' := run.states[n], run.states[n + 1];
      var r := s.reading[run.steps[n].call];
      var p := Current(s, r.request.aggregate);
      && (r.ref.Some? ==> r.ref.value in p.attempts)
      && s'.replies == s.replies + [Reply(r.key, r.request,
           Seen(r.ref, if r.ref.None? then None else if r.created.Some? then r.created else Some(p.attempts[r.ref.value]), p))]
  {
    assert Next(flow, run.states[n], run.steps[n], run.states[n + 1]);
    ReadsOwnRow(flow, run, n, run.steps[n].call);
  }

  /** Two answers read in full, replays or lesson answers, are the same exactly when the enrollment is the same at both reads. */
  lemma ReplaysAgreeExactly(flow: Flow, run: Run<State, Step>, m: nat, n: nat)
    requires IsRun(flow, run) && m <= n < |run.steps| && run.steps[m].Read? && run.steps[n].Read?
    requires run.steps[m].call in run.states[m].reading && run.steps[n].call in run.states[n].reading
    requires
      var a, b := run.states[m].reading[run.steps[m].call], run.states[n].reading[run.steps[n].call];
      a.key == b.key && a.created.None? && b.created.None?
    ensures |run.states[m + 1].replies| > 0 && |run.states[n + 1].replies| > 0
    ensures
      var a, b := run.states[m].reading[run.steps[m].call], run.states[n].reading[run.steps[n].call];
      && a.request.aggregate == b.request.aggregate
      && (Last(run.states[m + 1].replies).answer == Last(run.states[n + 1].replies).answer
          <==> Current(run.states[m], a.request.aggregate) == Current(run.states[n], a.request.aggregate))
  {
    var a, b := run.states[m].reading[run.steps[m].call], run.states[n].reading[run.steps[n].call];
    SeenIsCurrent(flow, run, m);
    SeenIsCurrent(flow, run, n);
    SameRow(flow, run, m, n, run.steps[m].call, run.steps[n].call);
  }

  function Last<T>(s: seq<T>): T
    requires s != []
  {
    s[|s| - 1]
  }

  lemma SameRow(flow: Flow, run: Run<State, Step>, m: nat, n: nat, c: CallId, d: CallId)
    requires IsRun(flow, run) && m <= n < |run.states| && c in run.states[m].reading && d in run.states[n].reading
    requires run.states[m].reading[c].key == run.states[n].reading[d].key
    ensures run.states[m].reading[c].request.aggregate == run.states[n].reading[d].request.aggregate
    ensures run.states[m].reading[c].ref == run.states[n].reading[d].ref
  {
    var key := run.states[m].reading[c].key;
    RunInv(flow, run, m);
    RunInv(flow, run, n);
    assert ReadingInv(flow, run.states[m].table, run.states[m].reading[c]) && ReadingInv(flow, run.states[n].table, run.states[n].reading[d]);
    StoredForever(flow, run, m, n, key);
  }

  /** The reservation a first answer of the internal flow was given for. */
  ghost predicate IsFirst(run: Run<State, Step>, n: nat)
    requires n < |run.steps| && n < |run.states|
  {
    run.steps[n].Read? && run.steps[n].call in run.states[n].reading && run.states[n].reading[run.steps[n].call].created.Some?
  }

  /**
   * A first quiz answer and a replay are the same exactly when the enrollment is the same
   * at both reads and the attempt is still as it was created.
   */
  lemma FirstAndReplayAgreeExactly(flow: Flow, run: Run<State, Step>, m: nat, n: nat)
    requires IsRun(flow, run) && m <= n < |run.steps| && IsFirst(run, m) && run.steps[n].Read?
    requires run.steps[n].call in run.states[n].reading && run.states[n].reading[run.steps[n].call].created.None?
    requires run.states[m].reading[run.steps[m].call].key == run.states[n].reading[run.steps[n].call].key
    requires run.states[m].reading[run.steps[m].call].ref.Some?
    ensures |run.states[m + 1].replies| > 0 && |run.states[n + 1].replies| > 0
    ensures
      var a := run.states[m].reading[run.steps[m].call];
      var p, q := Current(run.states[m], a.request.aggregate), Current(run.states[n], a.request.aggregate);
      && a.ref.value in q.attempts
      && (Last(run.states[m + 1].replies).answer == Last(run.states[n + 1].replies).answer
          <==> p == q && q.attempts[a.ref.value] == a.created.value)
  {
    SeenIsCurrent(flow, run, m);
    SeenIsCurrent(flow, run, n);
    SameRow(flow, run, m, n, run.steps[m].call, run.steps[n].call);
  }

  /** A step that changes this enrollment. */
  predicate Touches(flow: Flow, s: State, step: Step, aggregate: nat) {
    || (step.Touch? && step.aggregate == aggregate)
    || (flow == Enrollment && step.Commit? && step.call in s.calls && s.calls[step.call].request.aggregate == aggregate)
  }

  lemma StaysUnlessTouched(flow: Flow, s: State, step: Step, s': State, aggregate: nat)
    requires Next(flow, s, step, s') && !Touches(flow, s, step, aggregate)
    ensures Current(s', aggregate) == Current(s, aggregate)
  {
  }

  /** So nothing that happens to other enrollments makes two answers differ. */
  lemma {:induction false} UntouchedStays(flow: Flow, run: Run<State, Step>, m: nat, n: nat, aggregate: nat)
    requires IsRun(flow, run) && m <= n < |run.states|
    requires forall k {:trigger run.steps[k]} :: m <= k < n ==> !Touches(flow, run.states[k], run.steps[k], aggregate)
    ensures Current(run.states[n], aggregate) == Current(run.states[m], aggregate)
  {
    if m < n {
      hide Next, Touches, Current;
      UntouchedStays(flow, run, m, n - 1, aggregate);
      assert Next(flow, run.states[n - 1], run.steps[n - 1], run.states[n]);
      StaysUnlessTouched(flow, run.states[n - 1], run.steps[n - 1], run.states[n], aggregate);
    }
  }

  /**
   * A result is given only to the request the key was used for: the hash is the stored one
   * and, except for tokens, so is the aggregate. A conflict is given only to another.
   */
  lemma ResultsGoToTheirRequest(flow: Flow, run: Run<State, Step>, n: nat, i: nat)
    requires IsRun(flow, run) && n < |run.states| && i < |run.states[n].replies|
    ensures
      var s, reply := run.states[n], run.states[n].replies[i];
      && (reply.answer.Done? || reply.answer.Replayed? || reply.answer.Seen? ==>
            && reply.key in s.table && s.table[reply.key].request.hash == reply.request.hash
            && (flow != Token ==> s.table[reply.key].request.aggregate == reply.request.aggregate))
      && (reply.answer == Conflict ==>
            && reply.key in s.table
            && (s.table[reply.key].request.hash != reply.request.hash
                || (flow != Token && s.table[reply.key].request.aggregate != reply.request.aggregate)))
  {
    RunInv(flow, run, n);
    assert ReplyInv(flow, run.states[n].table, run.states[n].replies[i]);
  }

  /** A call that carries another request for a used key is refused or fails, and leaves nothing behind. */
  lemma OtherRequestChangesNothing(flow: Flow, run: Run<State, Step>, n: nat, c: CallId)
    requires IsRun(flow, run) && n < |run.steps| && !run.steps[n].Touch? && run.steps[n].call == c && c in run.states[n].calls
    requires run.states[n].calls[c].key in run.states[n].table
    requires
      var stored, request := run.states[n].table[run.states[n].calls[c].key].request, run.states[n].calls[c].request;
      stored.hash != request.hash || (flow != Token && stored.aggregate != request.aggregate)
    ensures
      var s, s' := run.states[n], run.states[n + 1];
      && s'.table == s.table && s'.effects == s.effects && s'.progress == s.progress && s'.reading == s.reading
      && c !in s'.calls && |s'.replies| == |s.replies| + 1
      && Last(s'.replies).answer == if run.steps[n].AnswerEarly? then Conflict else Failed
  {
    RunInv(flow, run, n);
    var s := run.states[n];
    assert Next(flow, s, run.steps[n], run.states[n + 1]);
    assert CallInv(flow, s.table, s.calls[c]);
    if c in s.reading { ReadingElsewhere(flow, run, n, c); }
  }

  /** A call that carries the request the key was used for is not refused as another. */
  lemma SameRequestIsNoConflict(flow: Flow, run: Run<State, Step>, n: nat, c: CallId)
    requires IsRun(flow, run) && n < |run.steps| && run.steps[n] == AnswerEarly(c) && c in run.states[n].calls
    requires
      var key, request := run.states[n].calls[c].key, run.states[n].calls[c].request;
      key in run.states[n].table ==>
        && run.states[n].table[key].request.hash == request.hash
        && (flow != Token ==> run.states[n].table[key].request.aggregate == request.aggregate)
    ensures |run.states[n + 1].replies| > |run.states[n].replies| ==> Last(run.states[n + 1].replies).answer != Conflict
  {
    RunInv(flow, run, n);
    var s := run.states[n];
    assert Next(flow, s, run.steps[n], run.states[n + 1]);
    assert CallInv(flow, s.table, s.calls[c]);
    if s.calls[c].key in s.table { assert RowInv(flow, s, s.calls[c].key, s.table[s.calls[c].key]); }
  }

  /** A call is in its transaction or reading, not both. */
  lemma {:induction false} ReadingElsewhere(flow: Flow, run: Run<State, Step>, n: nat, c: CallId)
    requires IsRun(flow, run) && n < |run.states| && c in run.states[n].reading
    ensures c !in run.states[n].calls
  {
    if n > 0 {
      hide Next;
      assert Next(flow, run.states[n - 1], run.steps[n - 1], run.states[n]);
      if c in run.states[n - 1].reading { ReadingElsewhere(flow, run, n - 1, c); }
      NotInBoth(flow, run.states[n - 1], run.steps[n - 1], run.states[n], c);
    }
  }

  lemma NotInBoth(flow: Flow, s: State, step: Step, s': State, c: CallId)
    requires Next(flow, s, step, s') && (c in s.reading ==> c !in s.calls)
    ensures c in s'.reading ==> c !in s'.calls
  {
  }

  // ----- the flows as they are written -----

  /**
   * What the world does to one call. `touched` is what other operations make of the
   * enrollment between the commit and the read of the snapshot.
   */
  datatype Fate = Fate(executes: bool, result: ResultId, text: string, stored: bool, commits: bool, reported: bool,
                       created: AttemptView, rest: nat, touched: Option<Progress>, readable: bool)

  function Touched(s: State, aggregate: nat, touched: Option<Progress>): State {
    if touched.Some? && Current(s, aggregate).attempts.Keys <= touched.value.attempts.Keys
    then s.(progress := s.progress[aggregate := touched.value]) else s
  }

  function AddReply(s: State, key: Key, request: Request, answer: Answer): State {
    s.(replies := s.replies + [Reply(key, request, answer)])
  }

  /** From the end of the transaction to the answer. */
  function AfterRead(s: State, r: Reading, fate: Fate): State {
    var t := Touched(s, r.request.aggregate, fate.touched);
    AddReply(t, r.key, r.request, if fate.readable then Answered(r, Current(t, r.request.aggregate)) else Failed)
  }

  predicate FailsLate(flow: Flow, call: Call, fate: Fate) {
    !fate.executes || !fate.stored || call.row.stored.Some? || (flow == Token && fate.text == "") || !fate.commits
  }

  /** Table, effects and progress after an uninterrupted call that committed. */
  function AfterWork(flow: Flow, s: State, call: Call, fate: Fate): State {
    var stored := StoredBy(flow, call.key, fate.result, fate.text);
    var agg := call.request.aggregate;
    s.(table := s.table[call.key := call.row.(stored := Some(stored))],
    effects := s.effects + [Effect(call.key, call.request, fate.result)],
    progress := if flow == Enrollment then s.progress[agg := Advanced(Current(s, agg), stored.ref, fate.created, fate.rest)] else s.progress)
  }

  function OwnReading(flow: Flow, call: Call, fate: Fate): Reading {
    var ref := StoredBy(flow, call.key, fate.result, fate.text).ref;
    Reading(call.key, call.request, ref, if ref.Some? then Some(fate.created) else None)
  }

  /** The state after a call that ran without interleaving, except between commit and read. */
  function AfterCall(flow: Flow, s: State, key: Key, request: Request, fate: Fate): State {
    var call := Opened(s.table, key, request);
    match EarlyOf(flow, call)
    case Refuse(answer) => AddReply(s, key, request, answer)
    case Replay(stored) =>
      if flow != Enrollment then AddReply(s, key, request, Replayed(stored.text))
      else if !fate.commits then AddReply(s, key, request, Failed)
      else AfterRead(s, Reading(key, request, stored.ref, None), fate)
    case Proceed =>
      if FailsLate(flow, call, fate) then AddReply(s, key, request, Failed)
      else
        var t := AfterWork(flow, s, call, fate);
        if !fate.reported then AddReply(t, key, request, Failed)
        else if flow == Enrollment then AfterRead(t, OwnReading(flow, call, fate), fate)
        else AddReply(t, key, request, Done(fate.text))
  }

  function WithReading(s: State, c: CallId, r: Reading): State { s.(reading := s.reading[c := r]) }

  /** Whatever others do to the enrollment in between is a step, or nothing at all. */
  lemma TouchSteps(flow: Flow, s: State, aggregate: nat, touched: Option<Progress>) returns (run: Run<State, Step>)
    ensures Leads(Steps(flow), run, s, Touched(s, aggregate, touched))
  {
    var t := Touched(s, aggregate, touched);
    if t == s {
      run := Start(s);
      StartLeads(Steps(flow), s);
    } else {
      run := One(flow, s, Touch(aggregate, touched.value), t);
    }
  }

  /** From the end of the transaction on, step by step. */
  lemma ReadSteps(flow: Flow, s: State, c: CallId, r: Reading, fate: Fate) returns (run: Run<State, Step>)
    requires c !in s.reading
    ensures Leads(Steps(flow), run, WithReading(s, c, r), AfterRead(s, r, fate))
  {
    var s0 := WithReading(s, c, r);
    var agg := r.request.aggregate;
    var t := Touched(s, agg, fate.touched);
    var t0, end := WithReading(t, c, r), AfterRead(s, r, fate);
    assert t0.reading - {c} == s.reading;
    assert Touched(s0, agg, fate.touched) == t0 && Current(t0, agg) == Current(t, agg);
    var step := if fate.readable then Read(c) else FailRead(c);
    assert Next(flow, t0, step, end);
    hide Next, Touched, AfterRead, WithReading, Leads;
    var touch := TouchSteps(flow, s0, agg, fate.touched);
    var read := One(flow, t0, step, end);
    run := Joined(Steps(flow), touch, read, s0, t0, end);
  }

  lemma LastStep(flow: Flow, s: State, c: CallId, call: Call, fate: Fate) returns (s': State)
    requires c !in s.calls && call.phase == Reserved
    ensures
      var t := AfterWork(flow, s, call, fate);
      s' == if !fate.reported then AddReply(t, call.key, call.request, Failed)
            else if flow == Enrollment then WithReading(t, c, OwnReading(flow, call, fate))
            else AddReply(t, call.key, call.request, Done(fate.text))
    ensures
      var completed := call.(phase := Completed(fate.result, StoredBy(flow, call.key, fate.result, fate.text)));
      Next(flow, SetCall(s, c, completed), Commit(c, fate.reported, fate.created, fate.rest), s')
  {
    var s3 := SetCall(s, c, call.(phase := Completed(fate.result, StoredBy(flow, call.key, fate.result, fate.text))));
    assert s3.calls - {c} == s.calls;
    s' := AfterCommit(flow, s3, c, fate.reported, fate.created, fate.rest);
  }

  lemma WorkSteps(flow: Flow, s: State, c: CallId, call: Call, fate: Fate) returns (run: Run<State, Step>, s': State)
    requires c !in s.calls && call == Opened(s.table, call.key, call.request)
    requires EarlyOf(flow, call).Proceed? && !FailsLate(flow, call, fate)
    ensures
      var t := AfterWork(flow, s, call, fate);
      s' == if !fate.reported then AddReply(t, call.key, call.request, Failed)
            else if flow == Enrollment then WithReading(t, c, OwnReading(flow, call, fate))
            else AddReply(t, call.key, call.request, Done(fate.text))
    ensures Leads(Steps(flow), run, SetCall(s, c, call), s')
  {
    var stored := StoredBy(flow, call.key, fate.result, fate.text);
    var s1 := SetCall(s, c, call);
    var s2 := SetCall(s, c, call.(phase := Executed(fate.result)));
    var s3 := SetCall(s, c, call.(phase := Completed(fate.result, stored)));
    var commit := Commit(c, fate.reported, fate.created, fate.rest);
    assert s1.calls[c := s2.calls[c]] == s2.calls && s2.calls[c := s3.calls[c]] == s3.calls && s3.calls - {c} == s.calls;
    assert Next(flow, s1, Execute(c, fate.result), s2);
    assert Next(flow, s2, Complete(c, fate.text), s3);
    s' := LastStep(flow, s, c, call, fate);
    run := Start(s1);
    StartLeads(Steps(flow), s1);
    hide Leads, Extend, Start, Next;
    ExtendLeads(Steps(flow), run, s1, s1, Execute(c, fate.result), s2);
    run := Extend(run, Execute(c, fate.result), s2);
    ExtendLeads(Steps(flow), run, s1, s2, Complete(c, fate.text), s3);
    run := Extend(run, Complete(c, fate.text), s3);
    ExtendLeads(Steps(flow), run, s1, s3, commit, s');
    run := Extend(run, commit, s');
  }

  /** A call that ends without work of its own: refused, replayed or failed. */
  lemma EarlySteps(flow: Flow, s: State, c: CallId, call: Call, fate: Fate) returns (run: Run<State, Step>)
    requires c !in s.calls && c !in s.reading && call == Opened(s.table, call.key, call.request)
    requires !EarlyOf(flow, call).Proceed? || FailsLate(flow, call, fate)
    ensures Leads(Steps(flow), run, SetCall(s, c, call), AfterCall(flow, s, call.key, call.request, fate))
  {
    var s1, end := SetCall(s, c, call), AfterCall(flow, s, call.key, call.request, fate);
    assert s1.calls - {c} == s.calls;
    var early := EarlyOf(flow, call);
    if early.Replay? && flow == Enrollment && fate.commits {
      var r := Reading(call.key, call.request, early.stored.ref, None);
      var s2 := WithReading(s, c, r);
      assert Next(flow, s1, AnswerEarly(c), s2);
      var tail := ReadSteps(flow, s, c, r, fate);
      run := One(flow, s1, AnswerEarly(c), s2);
      run := Joined(Steps(flow), run, tail, s1, s2, end);
    } else {
      var step := if early.Proceed? || (early.Replay? && flow == Enrollment) then Fail(c) else AnswerEarly(c);
      assert Next(flow, s1, step, end);
      run := One(flow, s1, step, end);
    }
  }

  lemma One(flow: Flow, s: State, step: Step, s': State) returns (run: Run<State, Step>)
    requires Next(flow, s, step, s')
    ensures Leads(Steps(flow), run, s, s')
  {
    run := Run([s, s'], [step]);
  }

  /** An uninterrupted call is one path of the protocol. */
  lemma CallIsARun(flow: Flow, s: State, c: CallId, key: Key, request: Request, fate: Fate) returns (run: Run<State, Step>)
    requires c !in s.calls && c !in s.reading && forall d :: d in s.calls ==> s.calls[d].key != key
    ensures Leads(Steps(flow), run, s, AfterCall(flow, s, key, request, fate))
  {
    var call := Opened(s.table, key, request);
    var s1, end := SetCall(s, c, call), AfterCall(flow, s, key, request, fate);
    run := One(flow, s, Reserve(c, key, request), s1);
    if !EarlyOf(flow, call).Proceed? || FailsLate(flow, call, fate) {
      var rest := EarlySteps(flow, s, c, call, fate);
      run := Joined(Steps(flow), run, rest, s, s1, end);
    } else {
      var work, s2 := WorkSteps(flow, s, c, call, fate);
      run := Joined(Steps(flow), run, work, s, s1, s2);
      if fate.reported && flow == Enrollment {
        var tail := ReadSteps(flow, AfterWork(flow, s, call, fate), c, OwnReading(flow, call, fate), fate);
        run := Joined(Steps(flow), run, tail, s, s2, end);
      }
    }
  }

  /**
   * Replays of the internal flow do differ from the first answer: a quiz is submitted, its
   * attempt is reviewed, and the same key is sent again.
   */
  lemma ReviewedAttemptIsReplayedReviewed(key: Key, request: Request) returns (run: Run<State, Step>)
    requires key.operation == SubmitQuiz
    ensures IsRun(Enrollment, run) && |run.Last().replies| == 2
    ensures run.Last().replies[0] == Reply(key, request, Seen(Some(7), Some(1), Progress(map[7 := 1], 0)))
    ensures run.Last().replies[1] == Reply(key, request, Seen(Some(7), Some(2), Progress(map[7 := 2], 1)))
  {
    var fate := Fate(true, 7, "", true, true, true, 1, 0, None, true);
    var first := CallIsARun(Enrollment, Empty(), 0, key, request, fate);
    var submitted := AfterCall(Enrollment, Empty(), key, request, fate);
    var row := Reservation(request, Some(Stored("", Some(7))));
    var pending, passed := Progress(map[7 := 1], 0), Progress(map[7 := 2], 1);
    assert submitted == State(map[key := row], [Effect(key, request, 7)], map[], [Reply(key, request, Seen(Some(7), Some(1), pending))],
                              map[], map[request.aggregate := pending]);
    var review := Touch(request.aggregate, passed);
    var reviewed := submitted.(progress := submitted.progress[request.aggregate := passed]);
    var touch := One(Enrollment, submitted, review, reviewed);
    run := Joined(Steps(Enrollment), first, touch, Empty(), submitted, reviewed);
    var again := CallIsARun(Enrollment, reviewed, 1, key, request, fate);
    var end := AfterCall(Enrollment, reviewed, key, request, fate);
    assert end.replies == submitted.replies + [Reply(key, request, Seen(Some(7), Some(2), passed))];
    run := Joined(Steps(Enrollment), run, again, Empty(), reviewed, end);
  }

  class Service {
    var table: map<Key, Reservation>
    var effects: seq<Effect>
    var progress: map<nat, Progress>

    constructor ()
      ensures table == map[] && effects == [] && progress == map[]
    {
      table, effects, progress := map[], [], map[];
    }

    ghost function View(calls: map<CallId, Call>, replies: seq<Reply>, reading: map<CallId, Reading>): State
      reads this
    {
      State(table, effects, calls, replies, reading, progress)
    }

    /** Token flow: a reservation made by someone else is replayed or refused, never executed. */
    method IssueToken(key: Key, request: Request, fate: Fate, ghost calls: map<CallId, Call>, ghost replies: seq<Reply>, ghost reading: map<CallId, Reading>)
      returns (answer: Answer)
      modifies this
      ensures
        var same := table == old(table) && effects == old(effects) && progress == old(progress);
        if key in old(table) && old(table)[key].request.hash != request.hash then answer == Conflict && same
        else if key in old(table) then
          var stored := old(table)[key].stored;
          same && answer == if stored.Some? && stored.value.text != "" then Replayed(stored.value.text) else NotCompleted
        else if fate.executes && fate.stored && fate.text != "" && fate.commits then
          && table == old(table)[key := Reservation(request, Some(Stored(fate.text, None)))] && progress == old(progress)
          && effects == old(effects) + [Effect(key, request, fate.result)] && answer == if fate.reported then Done(fate.text) else Failed
        else answer == Failed && same
      ensures View(calls, replies + [Reply(key, request, answer)], reading) == AfterCall(Token, old(View(calls, replies, reading)), key, request, fate)
    {
      var replayed := key in table;
      var row := if replayed then table[key] else Reservation(request, None);
      if row.request.hash != request.hash { return Conflict; }
      if replayed {
        if row.stored.None? || row.stored.value.text == "" { return NotCompleted; }
        return Replayed(row.stored.value.text);
      }
      var ok := Finish(Token, key, request, row, fate, calls, replies, reading);
      answer := if ok && fate.reported then Done(fate.text) else Failed;
    }

    /** External player: replay only a completed row with a payload, otherwise execute. */
    method PlayerMutation(key: Key, request: Request, fate: Fate, ghost calls: map<CallId, Call>, ghost replies: seq<Reply>, ghost reading: map<CallId, Reading>)
      returns (answer: Answer)
      modifies this
      ensures
        var same := table == old(table) && effects == old(effects) && progress == old(progress);
        var stored := if key in old(table) then old(table)[key].stored else None;
        if key in old(table) && (old(table)[key].request.hash != request.hash || old(table)[key].request.aggregate != request.aggregate) then
          answer == Conflict && same
        else if stored.Some? && stored.value.text != "" then same && answer == Replayed(stored.value.text)
        else if fate.executes && fate.stored && stored.None? && fate.commits then
          && table == old(table)[key := Reservation(request, Some(Stored(fate.text, None)))] && progress == old(progress)
          && effects == old(effects) + [Effect(key, request, fate.result)] && answer == if fate.reported then Done(fate.text) else Failed
        else answer == Failed && same
      ensures View(calls, replies + [Reply(key, request, answer)], reading) == AfterCall(Player, old(View(calls, replies, reading)), key, request, fate)
    {
      var row := if key in table then table[key] else Reservation(request, None);
      if row.request != request { return Conflict; }
      if row.stored.Some? && row.stored.value.text != "" { return Replayed(row.stored.value.text); }
      var ok := Finish(Player, key, request, row, fate, calls, replies, reading);
      answer := if ok && fate.reported then Done(fate.text) else Failed;
    }

    /** Internal enrollment: a completed row is not executed again; either way the snapshot is read last. */
    method EnrollmentMutation(key: Key, request: Request, fate: Fate, ghost calls: map<CallId, Call>, ghost replies: seq<Reply>, ghost reading: map<CallId, Reading>)
      returns (answer: Answer)
      modifies this
      ensures
        var stored := if key in old(table) then old(table)[key].stored else None;
        if key in old(table) && (old(table)[key].request.hash != request.hash || old(table)[key].request.aggregate != request.aggregate) then
          answer == Conflict && table == old(table) && effects == old(effects) && progress == old(progress)
        else if stored.Some? || !fate.executes || !fate.stored || !fate.commits then
          && table == old(table) && effects == old(effects)
          && (stored.None? || !fate.commits ==> answer == Failed && progress == old(progress))
          && (answer.Seen? ==> stored.Some? && answer.ref == stored.value.ref)
        else
          var ref := if key.operation == SubmitQuiz then Some(fate.result) else None;
          && table == old(table)[key := Reservation(request, Some(Stored("", ref)))]
          && effects == old(effects) + [Effect(key, request, fate.result)]
          && (answer.Seen? <==> fate.reported && fate.readable)
          && (answer.Seen? ==> answer.ref == ref && answer.attempt == if ref.Some? then Some(fate.created) else None)
      ensures answer.Seen? ==> answer.progress == if request.aggregate in progress then progress[request.aggregate] else Progress(map[], 0)
      ensures View(calls, replies + [Reply(key, request, answer)], reading) == AfterCall(Enrollment, old(View(calls, replies, reading)), key, request, fate)
    {
      hide AfterCall, AfterRead;
      var early, r := EnterEnrollment(key, request, fate, calls, replies, reading);
      if early.Some? { return early.value; }
      answer := ReadSnapshot(r, fate, calls, replies, reading);
    }

    /** Up to the commit: an answer that needs no read, or what the read has to look up. */
    method EnterEnrollment(key: Key, request: Request, fate: Fate, ghost calls: map<CallId, Call>, ghost replies: seq<Reply>, ghost reading: map<CallId, Reading>)
      returns (early: Option<Answer>, r: Reading)
      modifies this
      ensures
        var stored := if key in old(table) then old(table)[key].stored else None;
        if key in old(table) && (old(table)[key].request.hash != request.hash || old(table)[key].request.aggregate != request.aggregate) then
          early == Some(Conflict) && table == old(table) && effects == old(effects) && progress == old(progress)
        else if stored.Some? || !fate.executes || !fate.stored || !fate.commits then
          && table == old(table) && effects == old(effects) && progress == old(progress)
          && (stored.None? || !fate.commits ==> early == Some(Failed))
          && (early.Some? ==> early == Some(Failed))
          && (early.None? ==> stored.Some? && r == Reading(key, request, stored.value.ref, None))
        else
          var ref := if key.operation == SubmitQuiz then Some(fate.result) else None;
          && table == old(table)[key := Reservation(request, Some(Stored("", ref)))]
          && effects == old(effects) + [Effect(key, request, fate.result)]
          && (var agg := request.aggregate;
              var attempts := if agg in old(progress) then old(progress)[agg].attempts else map[];
              progress == old(progress)[agg := Progress(if ref.Some? then attempts[ref.value := fate.created] else attempts, fate.rest)])
          && early == (if fate.reported then None else Some(Failed))
          && r == Reading(key, request, ref, if ref.Some? then Some(fate.created) else None)
      ensures r.key == key && r.request == request
      ensures
        AfterCall(Enrollment, old(View(calls, replies, reading)), key, request, fate) ==
        if early.Some? then View(calls, replies + [Reply(key, request, early.value)], reading)
        else AfterRead(View(calls, replies, reading), r, fate)
    {
      hide AfterRead;
      r := Reading(key, request, None, None);
      var row := if key in table then table[key] else Reservation(request, None);
      if row.request != request { return Some(Conflict), r; }
      if row.stored.Some? {
        if key.operation == SubmitQuiz && row.stored.value.ref.None? { return Some(Failed), r; }
        r := Reading(key, request, row.stored.value.ref, None);
        return if fate.commits then None else Some(Failed), r;
      }
      var ok := Finish(Enrollment, key, request, row, fate, calls, replies, reading);
      if !ok { return Some(Failed), r; }
      if key.operation == SubmitQuiz { r := Reading(key, request, Some(fate.result), Some(fate.created)); }
      early := if fate.reported then None else Some(Failed);
    }

    /** Execute, complete, commit; any failure rolls everything back. */
    method Finish(flow: Flow, key: Key, request: Request, row: Reservation, fate: Fate,
                  ghost calls: map<CallId, Call>, ghost replies: seq<Reply>, ghost reading: map<CallId, Reading>) returns (ok: bool)
      requires row == Opened(table, key, request).row
      modifies this
      ensures ok <==> !FailsLate(flow, Opened(old(table), key, request), fate)
      ensures
        var s := old(View(calls, replies, reading));
        View(calls, replies, reading) == if ok then AfterWork(flow, s, Opened(s.table, key, request), fate) else s
    {
      if !fate.executes { return false; }
      if !fate.stored || row.stored.Some? || (flow == Token && fate.text == "") { return false; }
      if !fate.commits { return false; }
      var stored := StoredBy(flow, key, fate.result, fate.text);
      table := table[key := row.(stored := Some(stored))];
      effects := effects + [Effect(key, request, fate.result)];
      if flow == Enrollment {
        var agg := request.aggregate;
        var p := if agg in progress then progress[agg] else Progress(map[], 0);
        progress := progress[agg := Advanced(p, stored.ref, fate.created, fate.rest)];
      }
      ok := true;
    }

    /** getEnrollmentProgressSnapshot and the search for the attempt in it. */
    method ReadSnapshot(r: Reading, fate: Fate, ghost calls: map<CallId, Call>, ghost replies: seq<Reply>, ghost reading: map<CallId, Reading>)
      returns (answer: Answer)
      modifies this`progress
      ensures progress == old(progress) || (fate.touched.Some? && progress == old(progress)[r.request.aggregate := fate.touched.value])
      ensures
        var p := if r.request.aggregate in progress then progress[r.request.aggregate] else Progress(map[], 0);
        answer ==
          if !fate.readable then Failed
          else if r.ref.None? then Seen(None, None, p)
          else if r.created.Some? then Seen(r.ref, r.created, p)
          else if r.ref.value in p.attempts then Seen(r.ref, Some(p.attempts[r.ref.value]), p)
          else Failed
      ensures View(calls, replies + [Reply(r.key, r.request, answer)], reading) == AfterRead(old(View(calls, replies, reading)), r, fate)
    {
      var agg := r.request.aggregate;
      var p := if agg in progress then progress[agg] else Progress(map[], 0);
      if fate.touched.Some? && p.attempts.Keys <= fate.touched.value.attempts.Keys {
        progress := progress[agg := fate.touched.value];
        p := fate.touched.value;
      }
      if !fate.readable { return Failed; }
      if r.ref.None? { return Seen(None, None, p); }
      if r.created.Some? { return Seen(r.ref, r.created, p); }
      if r.ref.value !in p.attempts { return Failed; }
      answer := Seen(r.ref, Some(p.attempts[r.ref.value]), p);
    }
  }

  // ----- key normalisation -----

  /** The length of the UTF-8 encoding. */
  function Utf8Length(s: string): nat {
    if s == "" then 0 else
      var c := s[0] as int;
      (if c < 0x80 then 1 else if c < 0x800 then 2 else if c < 0x10000 then 3 else 4) + Utf8Length(s[1..])
  }

  lemma {:induction false} Utf8Bounds(s: string)
    ensures |s| <= Utf8Length(s) <= 4 * |s|
    ensures Utf8Length(s) == |s| <==> forall i :: 0 <= i < |s| ==> s[i] as int < 128
  {
    if s != "" {
      Utf8Bounds(s[1..]);
      assert forall i :: 0 <= i < |s[1..]| ==> s[1..][i] == s[i + 1];
    }
  }

  function NormalizeKey(value: string): Result<string, ()> {
    var key := Trim(value);
    if Utf8Length(key) < 8 || Utf8Length(key) > 255 then Err(()) else Ok(key)
  }

  /** A key is its value without surrounding space, and must have 8 to 255 bytes; on plain text bytes are characters. */
  lemma KeyAcceptedExactly(value: string)
    ensures NormalizeKey(value).Ok? <==> 8 <= Utf8Length(Trim(value)) <= 255
    ensures NormalizeKey(value).Ok? ==> NormalizeKey(value).value == Trim(value)
    ensures (forall i :: 0 <= i < |Trim(value)| ==> Trim(value)[i] as int < 128) ==> (NormalizeKey(value).Ok? <==> 8 <= |Trim(value)| <= 255)
  {
    Utf8Bounds(Trim(value));
  }

  /** Normalising a key again, as the callers do before reserving, finds the same reservation. */
  lemma NormalizeKeyTwice(value: string)
    requires NormalizeKey(value).Ok?
    ensures NormalizeKey(NormalizeKey(value).value) == NormalizeKey(value)
    ensures NormalizeKey(Trim(value)) == NormalizeKey(value)
  {
    TrimTwice(value);
  }
}

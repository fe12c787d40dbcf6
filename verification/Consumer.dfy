/**
 * The durable consumer: concurrent deliveries of stream messages, the handler transaction
 * guarded by processed_events, and the acknowledgement each delivery sends back.
 *
 * A worker handles one delivery at a time and may crash at any point. The insert into
 * processed_events takes a row lock, so a second insert of the same event id waits until
 * the first transaction has ended (guard of Claim).
 */
module Consumer {
  import opened Prelude
  import opened Runs

  type MsgId = nat
  type EventId = nat
  type WorkerId = nat

  /** The decoded envelope, or None for a message that does not decode. */
  datatype Message = Message(event: Option<EventId>)

  datatype Config = Config(hasDlq: bool, maxDeliver: nat)

  datatype Signal = Ack | Nak | Term

  datatype Phase =
    | Received            // nothing done yet
    | Claimed             // processed_events row inserted, not committed
    | Applied             // effect applied, not committed
    | Handled             // the handler returned no error
    | Failed              // the handler returned an error
    | Undecodable         // the envelope did not decode
    | DeadLettered        // the DLQ confirmed the message
    | DlqFailed           // the DLQ publish returned an error

  /** One delivery in progress; `count` is the broker's delivery counter, if readable. */
  datatype Work = Work(msg: MsgId, count: Option<nat>, phase: Phase)

  datatype Finished = Finished(msg: MsgId, signal: Signal)

  datatype State = State(
    processed: set<EventId>, effects: seq<EventId>, workers: map<WorkerId, Work>,
    dlq: set<MsgId>, dlqErrors: set<MsgId>, finished: seq<Finished>)

  datatype Step =
    | Deliver(worker: WorkerId, msg: MsgId, count: Option<nat>)
    | DecodeFails(worker: WorkerId)
    | Claim(worker: WorkerId)
    | Apply(worker: WorkerId)
    | Commit(worker: WorkerId, reported: bool)
    | HandlerFails(worker: WorkerId)
    | DeadLetter(worker: WorkerId, outcome: Outcome)
    | Reply(worker: WorkerId)
    | Crash(worker: WorkerId)

  /** The message table of the stream: what each delivery of an id carries. */
  type Stream = MsgId -> Message

  predicate ShouldMoveToDlq(config: Config, count: Option<nat>) {
    config.hasDlq && count.Some? && count.value >= config.maxDeliver
  }

  /** Must this delivery try the dead-letter stream before it replies? */
  predicate WantsDlq(config: Config, work: Work) {
    match work.phase
    case Undecodable => config.hasDlq
    case Failed => ShouldMoveToDlq(config, work.count)
    case _ => false
  }

  /** The reply of a delivery that has nothing left to try. */
  function SignalOf(stream: Stream, work: Work): Option<Signal> {
    match work.phase
    case Handled => Some(Ack)
    case DeadLettered => Some(Ack)
    case Undecodable => Some(Term)
    case Failed => Some(Nak)
    case DlqFailed => Some(if stream(work.msg).event.Some? then Nak else Term)
    case _ => None
  }

  predicate InTransaction(phase: Phase) { phase == Claimed || phase == Applied }

  predicate Holds(stream: Stream, work: Work, event: EventId) {
    InTransaction(work.phase) && stream(work.msg).event == Some(event)
  }

  function SetPhase(s: State, w: WorkerId, phase: Phase): State
    requires w in s.workers
  {
    s.(workers := s.workers[w := s.workers[w].(phase := phase)])
  }

  ghost predicate Next(config: Config, stream: Stream, s: State, step: Step, s': State) {
    match step
    case Deliver(w, m, count) =>
      w !in s.workers && s' == s.(workers := s.workers[w := Work(m, count, Received)])
    case DecodeFails(w) =>
      && w in s.workers && s.workers[w].phase == Received && stream(s.workers[w].msg).event == None
      && s' == SetPhase(s, w, Undecodable)
    case Claim(w) =>
      && w in s.workers && s.workers[w].phase == Received && stream(s.workers[w].msg).event.Some?
      && var e := stream(s.workers[w].msg).event.value;
      && (forall v :: v in s.workers ==> !Holds(stream, s.workers[v], e))
      && s' == SetPhase(s, w, if e in s.processed then Handled else Claimed)
    case Apply(w) =>
      w in s.workers && s.workers[w].phase == Claimed && s' == SetPhase(s, w, Applied)
    case Commit(w, reported) =>
      && w in s.workers && s.workers[w].phase == Applied && stream(s.workers[w].msg).event.Some?
      && var e := stream(s.workers[w].msg).event.value;
      s' == SetPhase(s, w, if reported then Handled else Failed)
        .(processed := s.processed + {e}, effects := s.effects + [e])
    case HandlerFails(w) =>
      && w in s.workers && stream(s.workers[w].msg).event.Some?
      && (s.workers[w].phase == Received || InTransaction(s.workers[w].phase))
      && s' == SetPhase(s, w, Failed)
    case DeadLetter(w, outcome) =>
      && w in s.workers && WantsDlq(config, s.workers[w])
      && var m := s.workers[w].msg;
      s' == SetPhase(s, w, if outcome == Accepted then DeadLettered else DlqFailed)
        .(dlq := if outcome == Refused then s.dlq else s.dlq + {m},
        dlqErrors := if outcome == Accepted then s.dlqErrors else s.dlqErrors + {m})
    case Reply(w) =>
      && w in s.workers && !WantsDlq(config, s.workers[w]) && SignalOf(stream, s.workers[w]).Some?
      && s' == s.(workers := s.workers - {w},
      finished := s.finished + [Finished(s.workers[w].msg, SignalOf(stream, s.workers[w]).value)])
    case Crash(w) =>
      w in s.workers && s' == s.(workers := s.workers - {w})
  }

  ghost predicate Init(s: State) {
    s == State({}, [], map[], {}, {}, [])
  }

  /** The step relation as a value, for the theory of runs. */
  ghost function Steps(config: Config, stream: Stream): (State, Step, State) -> bool {
    (s: State, step: Step, s': State) => Next(config, stream, s, step, s')
  }

  ghost predicate IsRun(config: Config, stream: Stream, run: Run<State, Step>) {
    IsPath(Steps(config, stream), run) && Init(run.states[0])
  }

  // ----- the invariant -----

  /** Effects and processed_events say the same thing, and no effect is there twice. */
  ghost predicate EffectsMatch(s: State) {
    Distinct(s.effects) && forall e :: e in s.effects <==> e in s.processed
  }

  ghost predicate WorkInv(config: Config, stream: Stream, s: State, work: Work) {
    var event := stream(work.msg).event;
    match work.phase
    case Received => true
    case Claimed => event.Some? && event.value !in s.processed
    case Applied => event.Some? && event.value !in s.processed
    case Handled => event.Some? && event.value in s.processed
    case Failed => event.Some?
    case Undecodable => event.None?
    case DeadLettered => work.msg in s.dlq
    case DlqFailed => work.msg in s.dlqErrors
  }

  ghost predicate WorkersInv(config: Config, stream: Stream, s: State) {
    && (forall w :: w in s.workers ==> WorkInv(config, stream, s, s.workers[w]))
    && forall w, v, e :: w in s.workers && v in s.workers && Holds(stream, s.workers[w], e) && Holds(stream, s.workers[v], e) ==> w == v
  }

  /** What a reply that was sent lets one conclude about its message. */
  ghost predicate ReplyInv(config: Config, stream: Stream, s: State, done: Finished) {
    var event := stream(done.msg).event;
    match done.signal
    case Ack => (event.Some? && event.value in s.processed) || done.msg in s.dlq
    case Nak => event.Some?
    case Term => event.None? && (config.hasDlq ==> done.msg in s.dlqErrors)
  }

  ghost predicate Inv(config: Config, stream: Stream, s: State) {
    && EffectsMatch(s) && WorkersInv(config, stream, s)
    && forall i :: 0 <= i < |s.finished| ==> ReplyInv(config, stream, s, s.finished[i])
  }

  lemma CommitKeeps(config: Config, stream: Stream, s: State, w: WorkerId, reported: bool, s': State)
    requires Inv(config, stream, s) && Next(config, stream, s, Commit(w, reported), s')
    ensures Inv(config, stream, s')
  {
    var e := stream(s.workers[w].msg).event.value;
    assert WorkInv(config, stream, s, s.workers[w]) && Holds(stream, s.workers[w], e);
    forall v | v in s'.workers ensures WorkInv(config, stream, s', s'.workers[v]) {
      assert WorkInv(config, stream, s, s.workers[v]);
      if v != w { assert !Holds(stream, s.workers[v], e); }
    }
    forall i | 0 <= i < |s'.finished| ensures ReplyInv(config, stream, s', s'.finished[i]) {
      assert ReplyInv(config, stream, s, s.finished[i]);
    }
  }

  lemma StepKeeps(config: Config, stream: Stream, s: State, step: Step, s': State)
    requires Inv(config, stream, s) && Next(config, stream, s, step, s')
    ensures Inv(config, stream, s')
  {
    if step.Commit? {
      CommitKeeps(config, stream, s, step.worker, step.reported, s');
    } else {
      OtherStepKeeps(config, stream, s, step, s');
    }
  }

  lemma OtherStepKeeps(config: Config, stream: Stream, s: State, step: Step, s': State)
    requires Inv(config, stream, s) && Next(config, stream, s, step, s') && !step.Commit?
    ensures Inv(config, stream, s')
  {
    assert s'.processed == s.processed && s'.effects == s.effects && s.dlq <= s'.dlq && s.dlqErrors <= s'.dlqErrors;
    var w := step.worker;
    forall v | v in s'.workers ensures WorkInv(config, stream, s', s'.workers[v]) {
      if v in s.workers { assert WorkInv(config, stream, s, s.workers[v]); }
    }
    if w in s.workers { assert WorkInv(config, stream, s, s.workers[w]); }
    forall i | 0 <= i < |s'.finished| ensures ReplyInv(config, stream, s', s'.finished[i]) {
      if i < |s.finished| { assert ReplyInv(config, stream, s, s.finished[i]); }
    }
  }

  lemma {:induction false} RunInv(config: Config, stream: Stream, run: Run<State, Step>, n: nat)
    requires IsRun(config, stream, run) && n < |run.states|
    ensures Inv(config, stream, run.states[n])
  {
    if n > 0 {
      RunInv(config, stream, run, n - 1);
      StepKeeps(config, stream, run.states[n - 1], run.steps[n - 1], run.states[n]);
    }
  }

  // ----- what every run guarantees -----

  /** However often an event is delivered, its effect is there at most once, and exactly when recorded. */
  lemma AtMostOnce(config: Config, stream: Stream, run: Run<State, Step>, n: nat, e: EventId)
    requires IsRun(config, stream, run) && n < |run.states|
    ensures multiset(run.states[n].effects)[e] <= 1
    ensures multiset(run.states[n].effects)[e] == 1 <==> e in run.states[n].processed
  {
    RunInv(config, stream, run, n);
    DistinctCount(run.states[n].effects, e);
  }

  lemma {:induction false} DistinctCount(ids: seq<EventId>, e: EventId)
    requires Distinct(ids)
    ensures multiset(ids)[e] == if e in ids then 1 else 0
  {
    if ids != [] {
      var last := |ids| - 1;
      assert ids == ids[..last] + [ids[last]];
      DistinctCount(ids[..last], e);
      assert e in ids <==> e in ids[..last] || e == ids[last];
      if e == ids[last] { assert e !in ids[..last]; }
    }
  }

  /** No reply loses a message, and only a hopeless message is terminated. */
  lemma RepliesAreSafe(config: Config, stream: Stream, run: Run<State, Step>, n: nat, i: nat)
    requires IsRun(config, stream, run) && n < |run.states| && i < |run.states[n].finished|
    ensures
      var s, done := run.states[n], run.states[n].finished[i];
      var event := stream(done.msg).event;
      && (done.signal == Ack ==> (event.Some? && event.value in s.processed) || done.msg in s.dlq)
      && (done.signal == Term ==> event.None? && (config.hasDlq ==> done.msg in s.dlqErrors))
      && (done.signal == Nak ==> event.Some?)
  {
    RunInv(config, stream, run, n);
    assert ReplyInv(config, stream, run.states[n], run.states[n].finished[i]);
  }

  /**
   * Step k dead-letters message m: the broker did not refuse it, and it was hopeless, that
   * is undecodable, or failed on a delivery whose counter had reached the limit.
   */
  ghost predicate DeadLettersAt(config: Config, run: Run<State, Step>, k: nat, m: MsgId)
    requires k < |run.steps| && k < |run.states|
  {
    && run.steps[k].DeadLetter? && run.steps[k].outcome != Refused && run.steps[k].worker in run.states[k].workers
    && var work := run.states[k].workers[run.steps[k].worker];
    && work.msg == m && config.hasDlq
    && (work.phase == Undecodable || (work.phase == Failed && work.count.Some? && work.count.value >= config.maxDeliver))
  }

  /** The dead-letter stream holds exactly the messages that some delivery had to give up on. */
  lemma {:induction false} DeadLettersAreEarned(config: Config, stream: Stream, run: Run<State, Step>, n: nat, m: MsgId)
    requires IsRun(config, stream, run) && n < |run.states|
    ensures m in run.states[n].dlq <==> exists k :: 0 <= k < n && DeadLettersAt(config, run, k, m)
  {
    if n > 0 {
      DeadLettersAreEarned(config, stream, run, n - 1, m);
      assert Next(config, stream, run.states[n - 1], run.steps[n - 1], run.states[n]);
      assert m in run.states[n].dlq <==> m in run.states[n - 1].dlq || DeadLettersAt(config, run, n - 1, m);
      hide DeadLettersAt, Next;
    }
  }

  /**
   * A failed delivery whose counter is unreadable or below the limit is answered with a nak
   * and leaves the dead-letter stream alone, so the broker delivers the message again.
   */
  lemma EarlyFailureIsRedelivered(config: Config, stream: Stream, run: Run<State, Step>, n: nat, w: WorkerId)
    requires IsRun(config, stream, run) && n < |run.steps| && w in run.states[n].workers
    requires run.steps[n].worker == w && run.states[n].workers[w].phase == Failed
    requires
      var count := run.states[n].workers[w].count;
      !config.hasDlq || count.None? || count.value < config.maxDeliver
    ensures run.states[n + 1].dlq == run.states[n].dlq && w !in run.states[n + 1].workers
    ensures run.steps[n].Reply? ==>
      run.states[n + 1].finished == run.states[n].finished + [Finished(run.states[n].workers[w].msg, Nak)]
    ensures run.steps[n].Reply? || run.steps[n].Crash?
  {
    assert Next(config, stream, run.states[n], run.steps[n], run.states[n + 1]);
  }

  // ----- consumeMessage and handleIdempotent as they are written -----

  /** How the handler transaction goes, if it gets that far. */
  datatype HandlerFate =
    | FailsBefore          // bad ids, payload, BEGIN or INSERT
    | ApplyFails
    | CommitRolledBack
    | CommitLost           // committed, but the reply said otherwise
    | Succeeds

  predicate HandlerOk(s: State, event: Option<EventId>, fate: HandlerFate) {
    event.Some? && fate != FailsBefore && (event.value in s.processed || fate == Succeeds)
  }

  predicate EffectApplies(s: State, event: Option<EventId>, fate: HandlerFate) {
    event.Some? && event.value !in s.processed && (fate == Succeeds || fate == CommitLost)
  }

  predicate TriesDlq(config: Config, s: State, event: Option<EventId>, count: Option<nat>, fate: HandlerFate) {
    !HandlerOk(s, event, fate) && if event.Some? then ShouldMoveToDlq(config, count) else config.hasDlq
  }

  function ReplyOf(config: Config, s: State, event: Option<EventId>, count: Option<nat>, fate: HandlerFate, dlqFate: Outcome): Signal {
    if HandlerOk(s, event, fate) || (TriesDlq(config, s, event, count, fate) && dlqFate == Accepted) then Ack
    else if event.None? then Term else Nak
  }

  /** The world after one delivery that ran to its end. */
  function AfterDelivery(config: Config, s: State, m: MsgId, event: Option<EventId>, count: Option<nat>,
                         fate: HandlerFate, dlqFate: Outcome): State
  {
    var applies := EffectApplies(s, event, fate);
    var tries := TriesDlq(config, s, event, count, fate);
    s.(processed := if applies then s.processed + {event.value} else s.processed,
    effects := if applies then s.effects + [event.value] else s.effects,
    dlq := if tries && dlqFate != Refused then s.dlq + {m} else s.dlq,
    dlqErrors := if tries && dlqFate != Accepted then s.dlqErrors + {m} else s.dlqErrors,
    finished := s.finished + [Finished(m, ReplyOf(config, s, event, count, fate, dlqFate))])
  }

  /** Step by step, the handler part of a delivery. */
  lemma HandlerSteps(config: Config, stream: Stream, s: State, w: WorkerId, fate: HandlerFate) returns (run: Run<State, Step>, s': State)
    requires w in s.workers && s.workers[w].phase == Received && stream(s.workers[w].msg).event.Some?
    requires forall v :: v in s.workers ==> !Holds(stream, s.workers[v], stream(s.workers[w].msg).event.value)
    ensures
      var event := stream(s.workers[w].msg).event;
      var applies := EffectApplies(s, event, fate);
      s' == SetPhase(s, w, if HandlerOk(s, event, fate) then Handled else Failed)
        .(processed := if applies then s.processed + {event.value} else s.processed,
        effects := if applies then s.effects + [event.value] else s.effects)
    ensures Leads(Steps(config, stream), run, s, s')
  {
    hide Leads, Extend, Start;
    var event := stream(s.workers[w].msg).event;
    run := Start(s);
    StartLeads(Steps(config, stream), s);
    if fate == FailsBefore {
      s' := SetPhase(s, w, Failed);
      ExtendLeads(Steps(config, stream), run, s, s, HandlerFails(w), s');
      run := Extend(run, HandlerFails(w), s');
      return;
    }
    var s1 := SetPhase(s, w, if event.value in s.processed then Handled else Claimed);
    ExtendLeads(Steps(config, stream), run, s, s, Claim(w), s1);
    run, s' := Extend(run, Claim(w), s1), s1;
    if event.value in s.processed { return; }
    if fate == ApplyFails || fate == CommitRolledBack {
      s' := SetPhase(s, w, Failed);
      ExtendLeads(Steps(config, stream), run, s, s1, HandlerFails(w), s');
      run := Extend(run, HandlerFails(w), s');
      return;
    }
    var s2 := SetPhase(s, w, Applied);
    ExtendLeads(Steps(config, stream), run, s, s1, Apply(w), s2);
    run := Extend(run, Apply(w), s2);
    var reported := fate == Succeeds;
    s' := SetPhase(s, w, if reported then Handled else Failed)
      .(processed := s.processed + {event.value}, effects := s.effects + [event.value]);
    ExtendLeads(Steps(config, stream), run, s, s2, Commit(w, reported), s');
    run := Extend(run, Commit(w, reported), s');
  }

  /** The tail of a delivery: the dead-letter attempt, if any, and the reply. */
  lemma ReplySteps(config: Config, stream: Stream, s: State, w: WorkerId, dlqFate: Outcome) returns (run: Run<State, Step>, s': State)
    requires w in s.workers && s.workers[w].phase in {Handled, Failed, Undecodable}
    requires s.workers[w].phase == Undecodable <==> stream(s.workers[w].msg).event.None?
    ensures
      var work := s.workers[w];
      var tries := WantsDlq(config, work);
      s' == s.(workers := s.workers - {w},
      dlq := if tries && dlqFate != Refused then s.dlq + {work.msg} else s.dlq,
      dlqErrors := if tries && dlqFate != Accepted then s.dlqErrors + {work.msg} else s.dlqErrors,
      finished := s.finished + [Finished(work.msg,
      if work.phase == Handled || (tries && dlqFate == Accepted) then Ack
      else if stream(work.msg).event.None? then Term else Nak)])
    ensures Leads(Steps(config, stream), run, s, s')
  {
    var work := s.workers[w];
    var mid := s;
    run := Start(s);
    if WantsDlq(config, work) {
      mid := SetPhase(s, w, if dlqFate == Accepted then DeadLettered else DlqFailed)
        .(dlq := if dlqFate == Refused then s.dlq else s.dlq + {work.msg},
        dlqErrors := if dlqFate == Accepted then s.dlqErrors else s.dlqErrors + {work.msg});
      ExtendLeads(Steps(config, stream), run, s, s, DeadLetter(w, dlqFate), mid);
      run := Extend(run, DeadLetter(w, dlqFate), mid);
    }
    s' := mid.(workers := mid.workers - {w},
    finished := mid.finished + [Finished(work.msg, SignalOf(stream, mid.workers[w]).value)]);
    ExtendLeads(Steps(config, stream), run, s, mid, Reply(w), s');
    run := Extend(run, Reply(w), s');
    assert s.workers - {w} == mid.workers - {w};
  }

  /** An uninterrupted call of consumeMessage is one path of the protocol. */
  lemma DeliveryIsARun(config: Config, stream: Stream, s: State, w: WorkerId, m: MsgId, count: Option<nat>,
                       fate: HandlerFate, dlqFate: Outcome)
    returns (run: Run<State, Step>)
    requires w !in s.workers
    requires stream(m).event.Some? ==> forall v :: v in s.workers ==> !Holds(stream, s.workers[v], stream(m).event.value)
    ensures Leads(Steps(config, stream), run, s, AfterDelivery(config, s, m, stream(m).event, count, fate, dlqFate))
  {
    hide Leads, Extend, Start;
    var s1 := s.(workers := s.workers[w := Work(m, count, Received)]);
    run := Start(s);
    StartLeads(Steps(config, stream), s);
    StartLeads(Steps(config, stream), s1);
    ExtendLeads(Steps(config, stream), run, s, s, Deliver(w, m, count), s1);
    run := Extend(run, Deliver(w, m, count), s1);
    var handling, s2;
    if stream(m).event.Some? {
      handling, s2 := HandlerSteps(config, stream, s1, w, fate);
    } else {
      s2 := SetPhase(s1, w, Undecodable);
      ExtendLeads(Steps(config, stream), Start(s1), s1, s1, DecodeFails(w), s2);
      handling := Extend(Start(s1), DecodeFails(w), s2);
    }
    run := Joined(Steps(config, stream), run, handling, s, s1, s2);
    var tail, s3 := ReplySteps(config, stream, s2, w, dlqFate);
    run := Joined(Steps(config, stream), run, tail, s, s2, s3);
    assert s2.workers - {w} == s.workers;
  }

  class Service {
    var processed: set<EventId>
    var effects: seq<EventId>

    constructor ()
      ensures processed == {} && effects == []
    {
      processed, effects := {}, [];
    }

    /** handleIdempotent: record the id and apply the effect in one transaction. */
    method HandleOnce(e: EventId, fate: HandlerFate) returns (handled: bool, ok: bool)
      modifies this
      ensures
        var applies := e !in old(processed) && (fate == Succeeds || fate == CommitLost);
        && processed == (if applies then old(processed) + {e} else old(processed))
        && effects == (if applies then old(effects) + [e] else old(effects))
      ensures ok <==> fate != FailsBefore && (e in old(processed) || fate == Succeeds)
      ensures handled <==> ok && e !in old(processed)
    {
      if fate == FailsBefore { return false, false; }
      if e in processed { return false, true; }
      if fate == ApplyFails || fate == CommitRolledBack { return false, false; }
      processed, effects := processed + {e}, effects + [e];
      if fate == CommitLost { return false, false; }
      return true, true;
    }
  }

  class Delivery {
    const msg: MsgId
    const event: Option<EventId>
    const count: Option<nat>
    var signals: seq<Signal>

    constructor (msg: MsgId, event: Option<EventId>, count: Option<nat>)
      ensures this.msg == msg && this.event == event && this.count == count && signals == []
    {
      this.msg, this.event, this.count, signals := msg, event, count, [];
    }

    method Send(signal: Signal)
      modifies this
      ensures signals == old(signals) + [signal]
    {
      signals := signals + [signal];
    }
  }

  class Bus {
    var dlq: set<MsgId>
    var dlqErrors: set<MsgId>

    constructor ()
      ensures dlq == {} && dlqErrors == {}
    {
      dlq, dlqErrors := {}, {};
    }

    method MoveToDlq(m: MsgId, outcome: Outcome) returns (ok: bool)
      modifies this
      ensures ok <==> outcome == Accepted
      ensures dlq == if outcome == Refused then old(dlq) else old(dlq) + {m}
      ensures dlqErrors == if ok then old(dlqErrors) else old(dlqErrors) + {m}
    {
      if outcome != Refused { dlq := dlq + {m}; }
      if outcome != Accepted { dlqErrors := dlqErrors + {m}; }
      ok := outcome == Accepted;
    }

    /** The protocol state, given the deliveries and replies of other workers. */
    ghost function View(service: Service, others: map<WorkerId, Work>, finished: seq<Finished>): State
      reads this, service
    {
      State(service.processed, service.effects, others, dlq, dlqErrors, finished)
    }

    /**
     * consumeMessage. Every delivery that is not cut short by a crash sends exactly one
     * signal, and the world moves to AfterDelivery, which is a path of protocol steps.
     */
    method ConsumeMessage(config: Config, service: Service, d: Delivery, fate: HandlerFate, dlqFate: Outcome,
                          ghost others: map<WorkerId, Work>, ghost finished: seq<Finished>)
      modifies this, service, d
      ensures
        var stored := if dlqFate == Refused then old(dlq) else old(dlq) + {d.msg};
        if d.event.None? then
          && d.signals == old(d.signals) + [if config.hasDlq && dlqFate == Accepted then Ack else Term]
          && dlq == (if config.hasDlq then stored else old(dlq))
        else if fate != FailsBefore && (d.event.value in old(service.processed) || fate == Succeeds) then
          d.signals == old(d.signals) + [Ack] && dlq == old(dlq)
        else if config.hasDlq && d.count.Some? && d.count.value >= config.maxDeliver then
          d.signals == old(d.signals) + [if dlqFate == Accepted then Ack else Nak] && dlq == stored
        else
          d.signals == old(d.signals) + [Nak] && dlq == old(dlq)
      ensures
        if d.event.Some? && d.event.value !in old(service.processed) && (fate == Succeeds || fate == CommitLost) then
          service.processed == old(service.processed) + {d.event.value} && service.effects == old(service.effects) + [d.event.value]
        else
          service.processed == old(service.processed) && service.effects == old(service.effects)
      ensures
        d.signals == old(d.signals) + [ReplyOf(config, old(View(service, others, finished)), d.event, d.count, fate, dlqFate)]
      ensures
        View(service, others, finished + [Finished(d.msg, d.signals[|old(d.signals)|])])
        == AfterDelivery(config, old(View(service, others, finished)), d.msg, d.event, d.count, fate, dlqFate)
    {
      if d.event.None? {
        if config.hasDlq {
          var moved := MoveToDlq(d.msg, dlqFate);
          if moved {
            d.Send(Ack);
            return;
          }
        }
        d.Send(Term);
        return;
      }
      var _, ok := service.HandleOnce(d.event.value, fate);
      if ok {
        d.Send(Ack);
        return;
      }
      if ShouldMoveToDlq(config, d.count) {
        var moved := MoveToDlq(d.msg, dlqFate);
        if moved {
          d.Send(Ack);
          return;
        }
      }
      d.Send(Nak);
    }
  }
}

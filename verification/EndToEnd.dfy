/**
 * Outbox, stream and consumer together. The id of an outbox row is the event id its payload
 * carries. A message decodes, to its own id, exactly when the payload it was made from does;
 * `good` is the set of ids whose payloads decode. The broker may deliver anything it stored,
 * in any order and any number of times.
 */
module EndToEnd {
  import opened Prelude
  import opened Runs
  import O = Outbox
  import C = Consumer

  datatype State = State(outbox: O.State, consumer: C.State)

  datatype Step = Relay(outbox: O.Step) | Consume(consumer: C.Step)

  function OwnStream(good: set<nat>): C.Stream {
    (m: C.MsgId) => C.Message(if m in good then Some(m) else None)
  }

  ghost predicate Next(config: C.Config, good: set<nat>, s: State, step: Step, s': State) {
    match step
    case Relay(t) =>
      && O.Next(s.outbox, t, s'.outbox) && s'.consumer == s.consumer
      && (t.Insert? ==> (t.row.decodable <==> t.id in good))
    case Consume(t) =>
      && C.Next(config, OwnStream(good), s.consumer, t, s'.consumer) && s'.outbox == s.outbox
      && (t.Deliver? ==> t.msg in s.outbox.accepted)
  }

  ghost function Steps(config: C.Config, good: set<nat>): (State, Step, State) -> bool {
    (s: State, step: Step, s': State) => Next(config, good, s, step, s')
  }

  ghost predicate IsRun(config: C.Config, good: set<nat>, run: Run<State, Step>) {
    IsPath(Steps(config, good), run) && O.Init(run.states[0].outbox) && C.Init(run.states[0].consumer)
  }

  /** Everything the consumer works on or has done came off the stream. */
  ghost predicate Genuine(s: State) {
    && (forall w :: w in s.consumer.workers ==> s.consumer.workers[w].msg in s.outbox.accepted)
    && (forall e :: e in s.consumer.processed ==> e in s.outbox.accepted)
    && (forall i :: 0 <= i < |s.consumer.finished| ==> s.consumer.finished[i].msg in s.outbox.accepted)
  }

  ghost predicate RowsDecode(good: set<nat>, s: O.State) {
    forall id :: id in s.rows ==> (s.rows[id].decodable <==> id in good)
  }

  ghost predicate Inv(config: C.Config, good: set<nat>, s: State) {
    O.Inv(s.outbox) && C.Inv(config, OwnStream(good), s.consumer) && Genuine(s) && RowsDecode(good, s.outbox)
  }

  lemma RelayKeepsDecoding(config: C.Config, good: set<nat>, s: State, t: O.Step, s': State)
    requires O.Inv(s.outbox) && RowsDecode(good, s.outbox) && Next(config, good, s, Relay(t), s')
    ensures RowsDecode(good, s'.outbox) && s.outbox.accepted <= s'.outbox.accepted
  {
    if t.Commit? {
      hide O.Inv;
      O.CommitRows(s.outbox, t.relay, s'.outbox);
    } else {
      hide O.Inv;
    }
  }

  lemma StepKeeps(config: C.Config, good: set<nat>, s: State, step: Step, s': State)
    requires Inv(config, good, s) && Next(config, good, s, step, s')
    ensures Inv(config, good, s')
  {
    hide O.Inv, C.Inv;
    match step
    case Relay(t) =>
      O.StepKeeps(s.outbox, t, s'.outbox);
      RelayKeepsDecoding(config, good, s, t, s');
      hide O.Next;
    case Consume(t) =>
      C.StepKeeps(config, OwnStream(good), s.consumer, t, s'.consumer);
  }

  lemma {:induction false} RunInv(config: C.Config, good: set<nat>, run: Run<State, Step>, n: nat)
    requires IsRun(config, good, run) && n < |run.states|
    ensures Inv(config, good, run.states[n])
  {
    if n > 0 {
      RunInv(config, good, run, n - 1);
      StepKeeps(config, good, run.states[n - 1], run.steps[n - 1], run.states[n]);
    }
  }

  /**
   * Publishing twice, delivering twice, lost commits on either side: an effect still
   * exists at most once, exactly when its id is recorded, and only for an event that a
   * relay handed to the bus from a decodable outbox row.
   */
  lemma EffectAtMostOnceAndGenuine(config: C.Config, good: set<nat>, run: Run<State, Step>, n: nat, e: nat)
    requires IsRun(config, good, run) && n < |run.states|
    ensures
      var s := run.states[n];
      && multiset(s.consumer.effects)[e] == (if e in s.consumer.processed then 1 else 0)
      && (e in s.consumer.processed ==> e in s.outbox.log && e in s.outbox.rows && s.outbox.rows[e].decodable)
  {
    RunInv(config, good, run, n);
    C.DistinctCount(run.states[n].consumer.effects, e);
  }

  /** Where a settled row's event is: on the stream under its own subject or in the relay's DLQ. */
  predicate OnTheBus(s: O.State, id: O.Id) { id in s.accepted || id in s.dlq }

  /**
   * Nothing is lost between table and effect: a settled row is on the bus, and once its
   * message is acknowledged the effect is applied exactly once or the message is in the
   * consumer's DLQ. No message of this outbox is ever terminated: relays hand only payloads
   * that decode to the stream.
   */
  lemma NothingLost(config: C.Config, good: set<nat>, run: Run<State, Step>, n: nat, id: nat)
    requires IsRun(config, good, run) && n < |run.states| && id in run.states[n].outbox.rows
    ensures run.states[n].outbox.rows[id].Settled() ==> OnTheBus(run.states[n].outbox, id)
    ensures
      var s := run.states[n];
      C.Finished(id, C.Ack) in s.consumer.finished ==>
        multiset(s.consumer.effects)[id] == 1 || id in s.consumer.dlq
    ensures C.Finished(id, C.Term) !in run.states[n].consumer.finished
  {
    RunInv(config, good, run, n);
    var s := run.states[n];
    assert O.RowInv(s.outbox, id, s.outbox.rows[id]);
    C.DistinctCount(s.consumer.effects, id);
    forall i | 0 <= i < |s.consumer.finished|
      ensures C.ReplyInv(config, OwnStream(good), s.consumer, s.consumer.finished[i]) && s.consumer.finished[i].msg in good
    {
      assert s.consumer.finished[i].msg in s.outbox.log;
    }
  }
}

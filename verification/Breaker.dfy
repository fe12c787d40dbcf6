/**
 * The circuit breaker around calls to other services.
 *
 * Each method of the breaker runs under its mutex and is one atomic step; any number of
 * calls interleave between them. Time is in milliseconds and the clock read under the
 * mutex never goes back. `log` is a history variable: the code never reads it.
 */
module Breaker {
  import opened Prelude
  import opened Runs

  type CallId = nat

  const Attempts := 2
  const Threshold := 3
  const Cooldown := 10_000

  datatype Code = Unavailable | ResourceExhausted | DeadlineExceeded | OtherCode

  /** An error of the operation, or of the call's context once it is done. */
  datatype Error = Rpc(code: Code) | ContextDeadline | ContextCanceled

  predicate Retryable(e: Error) { e.Rpc? && e.code != OtherCode }

  predicate CountsAsFailure(e: Error) { Retryable(e) || e == ContextDeadline }

  /** The transient errors, listed. */
  ghost predicate Transient(e: Error) {
    e == Rpc(Unavailable) || e == Rpc(ResourceExhausted) || e == Rpc(DeadlineExceeded)
  }

  // ----- the guarded fields -----

  datatype Gauge = Gauge(failures: nat, openUntil: Option<int>)

  predicate Admits(b: Gauge, now: int) { b.openUntil.None? || now >= b.openUntil.value }

  function AfterAllow(b: Gauge, now: int): Gauge {
    if b.openUntil.Some? && now >= b.openUntil.value then Gauge(0, None) else b
  }

  function AfterFailure(b: Gauge, now: int): Gauge {
    Gauge(b.failures + 1, if b.failures + 1 >= Threshold then Some(now + Cooldown) else b.openUntil)
  }

  class CircuitBreaker {
    var failures: nat
    var openUntil: Option<int>

    function Read(): Gauge reads this { Gauge(failures, openUntil) }

    constructor ()
      ensures Read() == Gauge(0, None)
    {
      failures, openUntil := 0, None;
    }

    method Allow(now: int) returns (allowed: bool)
      modifies this
      ensures allowed == Admits(old(Read()), now) && Read() == AfterAllow(old(Read()), now)
      ensures !allowed <==> old(openUntil).Some? && now < old(openUntil).value
      ensures allowed && old(openUntil).Some? ==> failures == 0 && openUntil == None
      ensures !allowed || old(openUntil).None? ==> failures == old(failures) && openUntil == old(openUntil)
    {
      if openUntil.None? { return true; }
      if now < openUntil.value { return false; }
      openUntil := None;
      failures := 0;
      allowed := true;
    }

    method Success()
      modifies this
      ensures Read() == Gauge(0, None)
    {
      failures := 0;
      openUntil := None;
    }

    method Failure(now: int)
      modifies this
      ensures Read() == AfterFailure(old(Read()), now)
      ensures failures == old(failures) + 1
      ensures openUntil == if failures >= 3 then Some(now + 10_000) else old(openUntil)
    {
      failures := failures + 1;
      if failures >= Threshold { openUntil := Some(now + Cooldown); }
    }
  }

  // ----- interleaved calls -----

  /** Ready(n): n operations have ended and the next may start. Running(n): the n-th is under way. */
  datatype Phase = Ready(ended: nat) | Running(nth: nat) | Ended

  /** `probe`: the admission closed an expired breaker. `opening`: the failure reached the threshold. */
  datatype Event =
    | Admitted(call: CallId, time: int, probe: bool)
    | Rejected(call: CallId, time: int)
    | Started(call: CallId, time: int)
    | Succeeded(call: CallId, time: int)
    | Failed(call: CallId, time: int, opening: bool)
    | Dropped(call: CallId, time: int)

  datatype State = State(gauge: Gauge, clock: int, phases: map<CallId, Phase>, log: seq<Event>)

  datatype Step =
    | Allow(call: CallId, time: int)
    | StartOperation(call: CallId, time: int)
    | Retry(call: CallId, error: Error)                // the timer fired before the context was done
    | ReportSuccess(call: CallId, time: int)
    | GiveUp(call: CallId, error: Error, time: int)    // `error` is the call's last error

  function Init(): State { State(Gauge(0, None), 0, map[], []) }

  predicate Enabled(s: State, step: Step) {
    match step
    case Allow(c, t) => c !in s.phases && t >= s.clock
    case StartOperation(c, t) => c in s.phases && s.phases[c].Ready? && t >= s.clock
    case Retry(c, e) => c in s.phases && s.phases[c].Running? && s.phases[c].nth < Attempts && Retryable(e)
    case ReportSuccess(c, t) => c in s.phases && s.phases[c].Running? && t >= s.clock
    case GiveUp(c, e, t) => c in s.phases && s.phases[c].Running? && t >= s.clock && (Retryable(e) ==> s.phases[c].nth >= Attempts)
  }

  function Record(s: State, gauge: Gauge, c: CallId, phase: Phase, e: Event): State {
    State(gauge, e.time, s.phases[c := phase], s.log + [e])
  }

  function After(s: State, step: Step): State
    requires Enabled(s, step)
  {
    match step
    case Allow(c, t) =>
      if Admits(s.gauge, t) then Record(s, AfterAllow(s.gauge, t), c, Ready(0), Admitted(c, t, s.gauge.openUntil.Some?))
      else Record(s, s.gauge, c, Ended, Rejected(c, t))
    case StartOperation(c, t) => Record(s, s.gauge, c, Running(s.phases[c].ended + 1), Started(c, t))
    case Retry(c, e) => s.(phases := s.phases[c := Ready(s.phases[c].nth)])
    case ReportSuccess(c, t) => Record(s, Gauge(0, None), c, Ended, Succeeded(c, t))
    case GiveUp(c, e, t) =>
      if CountsAsFailure(e) then
        Record(s, AfterFailure(s.gauge, t), c, Ended, Failed(c, t, s.gauge.failures + 1 >= Threshold))
      else Record(s, s.gauge, c, Ended, Dropped(c, t))
  }

  ghost predicate Next(s: State, step: Step, s': State) { Enabled(s, step) && s' == After(s, step) }

  ghost predicate IsRun(run: Run<State, Step>) { IsPath(Next, run) && run.states[0] == Init() }

  // ----- what every step keeps -----

  /** Failures reported since the last success or probe. */
  function Streak(log: seq<Event>): nat {
    if log == [] then 0
    else
      var last := log[|log| - 1];
      if last.Succeeded? || (last.Admitted? && last.probe) then 0
      else Streak(log[..|log| - 1]) + if last.Failed? then 1 else 0
  }

  function Starts(log: seq<Event>, c: CallId): nat {
    if log == [] then 0 else Starts(log[..|log| - 1], c) + if log[|log| - 1].Started? && log[|log| - 1].call == c then 1 else 0
  }

  function Reports(log: seq<Event>, c: CallId): nat {
    if log == [] then 0
    else Reports(log[..|log| - 1], c) + if (log[|log| - 1].Succeeded? || log[|log| - 1].Failed?) && log[|log| - 1].call == c then 1 else 0
  }

  /** The counter is the streak, and the breaker is open, for at most one cooldown, exactly when it reached the threshold. */
  ghost predicate GaugeInv(s: State) {
    && s.gauge.failures == Streak(s.log)
    && (s.gauge.openUntil.Some? <==> s.gauge.failures >= Threshold)
    && (s.gauge.openUntil.Some? ==> s.gauge.openUntil.value <= s.clock + Cooldown)
  }

  ghost predicate CallInv(s: State, c: CallId) {
    if c !in s.phases then Starts(s.log, c) == 0 && Reports(s.log, c) == 0
    else
      match s.phases[c]
      case Ready(n) => n < Attempts && Starts(s.log, c) == n && Reports(s.log, c) == 0
      case Running(n) => 1 <= n <= Attempts && Starts(s.log, c) == n && Reports(s.log, c) == 0
      case Ended => Starts(s.log, c) <= Attempts && Reports(s.log, c) <= 1
  }

  ghost predicate NoSuccess(log: seq<Event>, from: nat, to: nat) {
    forall k :: from <= k < to && k < |log| ==> !log[k].Succeeded?
  }

  ghost predicate Opens(log: seq<Event>, i: nat) { i < |log| && log[i].Failed? && log[i].opening }

  /** Every opening not followed by a success still holds the breaker open, or its cooldown is over. */
  ghost predicate WatchInv(s: State) {
    && (forall i :: 0 <= i < |s.log| ==> s.log[i].time <= s.clock)
    && forall i: nat :: Opens(s.log, i) && NoSuccess(s.log, i, |s.log|) ==>
      (s.clock >= s.log[i].time + Cooldown || (s.gauge.openUntil.Some? && s.gauge.openUntil.value >= s.log[i].time + Cooldown))
  }

  /** Who is admitted after an opening with no success in between waited out the cooldown. */
  ghost predicate CooldownInv(log: seq<Event>) {
    forall i, j :: 0 <= i < j < |log| && Opens(log, i) && log[j].Admitted? && NoSuccess(log, i, j) ==> log[j].time >= log[i].time + Cooldown
  }

  /** Every call that is under way, and every operation that started, was admitted. */
  ghost predicate AdmittedBefore(log: seq<Event>, c: CallId, j: nat) {
    exists a :: 0 <= a < j && a < |log| && log[a].Admitted? && log[a].call == c
  }

  ghost predicate OriginInv(s: State) {
    && (forall c :: c in s.phases && !s.phases[c].Ended? ==> AdmittedBefore(s.log, c, |s.log|))
    && forall j :: 0 <= j < |s.log| && s.log[j].Started? ==> AdmittedBefore(s.log, s.log[j].call, j)
  }

  ghost predicate Inv(s: State) {
    GaugeInv(s) && (forall c :: CallInv(s, c)) && WatchInv(s) && CooldownInv(s.log) && OriginInv(s)
  }

  /** The three counts of a log with one event more. */
  lemma OneMore(log: seq<Event>, e: Event, c: CallId)
    ensures Streak(log + [e]) == if e.Succeeded? || (e.Admitted? && e.probe) then 0 else Streak(log) + if e.Failed? then 1 else 0
    ensures Starts(log + [e], c) == Starts(log, c) + if e.Started? && e.call == c then 1 else 0
    ensures Reports(log + [e], c) == Reports(log, c) + if (e.Succeeded? || e.Failed?) && e.call == c then 1 else 0
  {
    var longer := log + [e];
    assert longer[..|longer| - 1] == log && longer[|longer| - 1] == e;
  }

  lemma GaugeKept(s: State, step: Step)
    requires GaugeInv(s) && Enabled(s, step)
    ensures GaugeInv(After(s, step))
  {
    hide Streak, Starts, Reports;
    var s' := After(s, step);
    if !step.Retry? { OneMore(s.log, s'.log[|s.log|], step.call); }
  }

  lemma CallKept(s: State, step: Step, c: CallId)
    requires CallInv(s, c) && CallInv(s, step.call) && Enabled(s, step)
    ensures CallInv(After(s, step), c)
  {
    hide Streak, Starts, Reports;
    var s' := After(s, step);
    if !step.Retry? { OneMore(s.log, s'.log[|s.log|], c); }
  }

  lemma WatchKept(s: State, step: Step)
    requires GaugeInv(s) && WatchInv(s) && Enabled(s, step)
    ensures WatchInv(After(s, step))
  {
    hide Streak;
    var s' := After(s, step);
    forall i: nat | Opens(s'.log, i) && NoSuccess(s'.log, i, |s'.log|)
      ensures s'.clock >= s'.log[i].time + Cooldown || (s'.gauge.openUntil.Some? && s'.gauge.openUntil.value >= s'.log[i].time + Cooldown)
    {
      if i < |s.log| {
        assert s'.log[i] == s.log[i];
        assert forall k :: i <= k < |s.log| ==> s'.log[k] == s.log[k];
        assert Opens(s.log, i) && NoSuccess(s.log, i, |s.log|);
        if s'.log != s.log { assert !s'.log[|s.log|].Succeeded?; }
      }
    }
  }

  lemma CooldownKept(s: State, step: Step)
    requires WatchInv(s) && CooldownInv(s.log) && Enabled(s, step)
    ensures CooldownInv(After(s, step).log)
  {
    var log := After(s, step).log;
    forall i, j | 0 <= i < j < |log| && Opens(log, i) && log[j].Admitted? && NoSuccess(log, i, j)
      ensures log[j].time >= log[i].time + Cooldown
    {
      assert Opens(s.log, i) && NoSuccess(s.log, i, j) by {
        assert forall k :: 0 <= k < |s.log| ==> log[k] == s.log[k];
      }
    }
  }

  lemma OriginKept(s: State, step: Step)
    requires OriginInv(s) && Enabled(s, step)
    ensures OriginInv(After(s, step))
  {
    var s' := After(s, step);
    forall c, j: nat | j <= |s.log| && AdmittedBefore(s.log, c, j) ensures AdmittedBefore(s'.log, c, j) && AdmittedBefore(s'.log, c, |s'.log|) {
      var a :| 0 <= a < j && a < |s.log| && s.log[a].Admitted? && s.log[a].call == c;
      assert s'.log[a] == s.log[a];
    }
    forall c | c in s'.phases && !s'.phases[c].Ended? ensures AdmittedBefore(s'.log, c, |s'.log|) {
      if step.Allow? && c == step.call {
        assert s'.log[|s.log|].Admitted?;
      } else {
        assert AdmittedBefore(s.log, c, |s.log|);
      }
    }
    forall j | 0 <= j < |s'.log| && s'.log[j].Started? ensures AdmittedBefore(s'.log, s'.log[j].call, j) {
      if j < |s.log| { assert AdmittedBefore(s.log, s.log[j].call, j); } else { assert AdmittedBefore(s.log, step.call, j); }
    }
  }

  lemma {:induction false} RunInv(run: Run<State, Step>, i: nat)
    requires IsRun(run) && i < |run.states|
    ensures Inv(run.states[i])
  {
    if i > 0 {
      RunInv(run, i - 1);
      var s, step := run.states[i - 1], run.steps[i - 1];
      assert Next(s, step, run.states[i]);
      GaugeKept(s, step);
      WatchKept(s, step);
      CooldownKept(s, step);
      OriginKept(s, step);
      forall c ensures CallInv(run.states[i], c) { CallKept(s, step, c); }
    }
  }

  // ----- the guarantees -----

  /** The breaker is open exactly while at least three failures followed each other with no success or probe. */
  lemma OpenExactlyAtThreshold(run: Run<State, Step>, i: nat)
    requires IsRun(run) && i < |run.states|
    ensures run.states[i].gauge.failures == Streak(run.states[i].log)
    ensures run.states[i].gauge.openUntil.Some? <==> Streak(run.states[i].log) >= 3
  {
    RunInv(run, i);
  }

  /** Each call runs its operation at most twice and reports at most one outcome. */
  lemma TwoAttemptsOneReport(run: Run<State, Step>, i: nat, c: CallId)
    requires IsRun(run) && i < |run.states|
    ensures Starts(run.states[i].log, c) <= 2 && Reports(run.states[i].log, c) <= 1
  {
    RunInv(run, i);
    assert CallInv(run.states[i], c);
  }

  /** A failure opens the breaker exactly when it is at least the third in a row; a probe is an admission that ends such a row. */
  ghost predicate FlagsInv(log: seq<Event>) {
    forall i :: 0 <= i < |log| ==>
      && (log[i].Failed? ==> (log[i].opening <==> Streak(log[..i]) >= 2))
      && (log[i].Admitted? ==> (log[i].probe <==> Streak(log[..i]) >= 3))
  }

  lemma FlagsKept(s: State, step: Step)
    requires GaugeInv(s) && FlagsInv(s.log) && Enabled(s, step)
    ensures FlagsInv(After(s, step).log)
  {
    hide Streak;
    var log := After(s, step).log;
    assert forall i :: 0 <= i < |s.log| ==> log[i] == s.log[i];
    forall i | 0 <= i < |log|
      ensures log[i].Failed? ==> (log[i].opening <==> Streak(log[..i]) >= 2)
      ensures log[i].Admitted? ==> (log[i].probe <==> Streak(log[..i]) >= 3)
    {
      assert log[..i] == if i < |s.log| then s.log[..i] else s.log;
    }
  }

  lemma {:induction false} OpeningExactly(run: Run<State, Step>, n: nat)
    requires IsRun(run) && n < |run.states|
    ensures FlagsInv(run.states[n].log)
  {
    if n > 0 {
      OpeningExactly(run, n - 1);
      RunInv(run, n - 1);
      assert Next(run.states[n - 1], run.steps[n - 1], run.states[n]);
      hide FlagsInv, GaugeInv, WatchInv, CooldownInv, OriginInv;
      FlagsKept(run.states[n - 1], run.steps[n - 1]);
    }
  }

  /** Which errors are retried, and which are counted when a call gives up. */
  lemma ErrorsExactly(run: Run<State, Step>, i: nat)
    requires IsRun(run) && i < |run.steps|
    ensures run.steps[i].Retry? ==> Transient(run.steps[i].error) && Starts(run.states[i].log, run.steps[i].call) == 1
    ensures run.steps[i].GiveUp? && Starts(run.states[i].log, run.steps[i].call) == 1 ==> !Transient(run.steps[i].error)
    ensures run.steps[i].GiveUp? ==>
      var e, before, after := run.steps[i].error, run.states[i].gauge, run.states[i + 1].gauge;
      if Transient(e) || e == ContextDeadline
      then after == Gauge(before.failures + 1, if before.failures + 1 >= 3 then Some(run.steps[i].time + 10_000) else before.openUntil)
      else after == before
  {
    RunInv(run, i);
    assert Next(run.states[i], run.steps[i], run.states[i + 1]);
    assert CallInv(run.states[i], run.steps[i].call);
  }

  /** After an opening, and until some call reports success, nobody is admitted before the cooldown is over. */
  lemma NobodyAdmittedInCooldown(run: Run<State, Step>, i: nat, j: nat)
    requires IsRun(run)
    requires i < j < |run.Last().log| && Opens(run.Last().log, i) && NoSuccess(run.Last().log, i, j)
    requires run.Last().log[j].Admitted?
    ensures run.Last().log[j].time >= run.Last().log[i].time + 10_000
  {
    RunInv(run, |run.states| - 1);
  }

  /** So an operation that starts during the cooldown belongs to a call admitted before the opening. */
  lemma OnlyInFlightCallsStart(run: Run<State, Step>, i: nat, j: nat)
    requires IsRun(run)
    requires i < j < |run.Last().log| && Opens(run.Last().log, i) && NoSuccess(run.Last().log, i, j)
    requires run.Last().log[j].Started? && run.Last().log[j].time < run.Last().log[i].time + 10_000
    ensures AdmittedBefore(run.Last().log, run.Last().log[j].call, i)
  {
    StartedWasAdmitted(run, j);
    LogInOrder(run, |run.states| - 1);
    var log := run.Last().log;
    var a :| 0 <= a < j && a < |log| && log[a].Admitted? && log[a].call == log[j].call;
    if i < a { NobodyAdmittedInCooldown(run, i, a); }
  }

  lemma StartedWasAdmitted(run: Run<State, Step>, j: nat)
    requires IsRun(run) && j < |run.Last().log| && run.Last().log[j].Started?
    ensures AdmittedBefore(run.Last().log, run.Last().log[j].call, j)
  {
    RunInv(run, |run.states| - 1);
  }

  /** The log is in the order of the clock. */
  lemma {:induction false} LogInOrder(run: Run<State, Step>, n: nat)
    requires IsRun(run) && n < |run.states|
    ensures forall a, b :: 0 <= a <= b < |run.states[n].log| ==> run.states[n].log[a].time <= run.states[n].log[b].time
  {
    if n > 0 {
      LogInOrder(run, n - 1);
      RunInv(run, n - 1);
      assert Next(run.states[n - 1], run.steps[n - 1], run.states[n]);
    }
  }

  /** The call may still start an operation. */
  predicate AttemptLeft(s: State, c: CallId) {
    c in s.phases && (s.phases[c].Ready? || (s.phases[c].Running? && s.phases[c].nth < 2))
  }

  ghost predicate NoAttemptLeft(s: State) { forall c :: !AttemptLeft(s, c) }

  /** Whatever happens from s on, no operation starts before time u unless some call reported success first. */
  ghost predicate QuietUntil(s: State, u: int) {
    forall run, s' :: Leads(Next, run, s, s') ==> NoEarlyStart(s.log, s'.log, u)
  }

  ghost predicate NoEarlyStart(before: seq<Event>, log: seq<Event>, u: int) {
    forall j :: |before| <= j < |log| && log[j].Started? && NoSuccess(log, |before|, j) ==> log[j].time >= u
  }

  /** How an open breaker stays quiet: nobody has an attempt left and nobody is let in. */
  ghost predicate Calm(s0: State, s: State, u: int) {
    && GaugeInv(s) && |s0.log| <= |s.log| && NoEarlyStart(s0.log, s.log, u)
    && u <= s.clock + Cooldown
    && (|| !NoSuccess(s.log, |s0.log|, |s.log|)
        || s.clock >= u
        || (s.gauge.openUntil.Some? && s.gauge.openUntil.value >= u && NoAttemptLeft(s)))
  }

  lemma CalmStep(s0: State, s: State, step: Step, u: int)
    requires Calm(s0, s, u) && Enabled(s, step)
    ensures Calm(s0, After(s, step), u)
  {
    GaugeKept(s, step);
    var s' := After(s, step);
    hide GaugeInv, Streak;
    assert forall k :: 0 <= k < |s.log| ==> s'.log[k] == s.log[k];
    forall j | |s0.log| <= j < |s'.log| && s'.log[j].Started? && NoSuccess(s'.log, |s0.log|, j) ensures s'.log[j].time >= u {
      assert NoSuccess(s.log, |s0.log|, if j < |s.log| then j else |s.log|);
      if j == |s.log| { assert AttemptLeft(s, step.call); }
    }
    CalmLater(s0, s, step, u);
  }

  /** The third part of Calm, step by step. */
  lemma CalmLater(s0: State, s: State, step: Step, u: int)
    requires Calm(s0, s, u) && Enabled(s, step)
    ensures
      var s' := After(s, step);
      && u <= s'.clock + Cooldown
      && (|| !NoSuccess(s'.log, |s0.log|, |s'.log|)
          || s'.clock >= u
          || (s'.gauge.openUntil.Some? && s'.gauge.openUntil.value >= u && NoAttemptLeft(s')))
  {
    hide Streak, NoEarlyStart;
    var s' := After(s, step);
    if !NoSuccess(s.log, |s0.log|, |s.log|) {
      var k :| |s0.log| <= k < |s.log| && s.log[k].Succeeded?;
      assert s'.log[k].Succeeded?;
    } else if step.ReportSuccess? {
      assert s'.log[|s.log|].Succeeded?;
    } else if s.clock < u {
      assert !AttemptLeft(s, step.call);
      forall c ensures s'.clock >= u || !AttemptLeft(s', c) { assert !AttemptLeft(s, c); }
    }
  }

  lemma {:induction false} StaysCalm(run: Run<State, Step>, s0: State, n: nat, u: int)
    requires IsPath(Next, run) && run.states[0] == s0 && n < |run.states| && Calm(s0, s0, u)
    ensures Calm(s0, run.states[n], u)
  {
    if n > 0 {
      hide Calm;
      StaysCalm(run, s0, n - 1, u);
      assert Next(run.states[n - 1], run.steps[n - 1], run.states[n]);
      CalmStep(s0, run.states[n - 1], run.steps[n - 1], u);
    }
  }

  /** A call with an attempt left can start its operation at once. */
  lemma CanStart(s: State, c: CallId) returns (run: Run<State, Step>, s': State)
    requires AttemptLeft(s, c)
    ensures Leads(Next, run, s, s') && s'.log == s.log + [Started(c, s.clock)]
  {
    var start := StartOperation(c, s.clock);
    if s.phases[c].Ready? {
      s' := After(s, start);
      run := Run([s, s'], [start]);
    } else {
      var retry := Retry(c, Rpc(Unavailable));
      var mid := After(s, retry);
      s' := After(mid, start);
      assert Next(s, retry, mid) && Next(mid, start, s');
      run := Run([s, mid, s'], [retry, start]);
    }
  }

  /**
   * From any reachable state in which the breaker is open and its cooldown runs, no
   * operation starts before the cooldown ends or a call reports success, if and only if no
   * call has an attempt left.
   */
  lemma CooldownIsQuietExactly(run: Run<State, Step>, i: nat)
    requires IsRun(run) && i < |run.states|
    requires run.states[i].gauge.openUntil.Some? && run.states[i].clock < run.states[i].gauge.openUntil.value
    ensures QuietUntil(run.states[i], run.states[i].gauge.openUntil.value) <==> NoAttemptLeft(run.states[i])
  {
    var s := run.states[i];
    var u := s.gauge.openUntil.value;
    RunInv(run, i);
    if NoAttemptLeft(s) {
      assert Calm(s, s, u);
      forall ext, s' | Leads(Next, ext, s, s') ensures NoEarlyStart(s.log, s'.log, u) {
        StaysCalm(ext, s, |ext.states| - 1, u);
      }
    } else {
      var c :| AttemptLeft(s, c);
      var ext, s' := CanStart(s, c);
      assert s'.log[|s.log|] == Started(c, s.clock) && NoSuccess(s'.log, |s.log|, |s.log|);
      assert !NoEarlyStart(s.log, s'.log, u);
    }
  }

  function Four<T>(a: T, b: T, c: T, d: T): map<CallId, T> { map[0 := a, 1 := b, 2 := c, 3 := d] }

  function Admissions(): seq<Event> {
    [Admitted(0, 0, false), Admitted(1, 0, false), Admitted(2, 0, false), Admitted(3, 0, false)]
  }

  function ThreeStarted(): seq<Event> { [Started(0, 0), Started(1, 0), Started(2, 0)] }

  function ThreeFailed(): seq<Event> { [Failed(0, 500, false), Failed(1, 500, false), Failed(2, 500, true)] }

  function FourAdmitted(): State { State(Gauge(0, None), 0, Four(Ready(0), Ready(0), Ready(0), Ready(0)), Admissions()) }

  function ThreeRunning(): State {
    State(Gauge(0, None), 0, Four(Running(1), Running(1), Running(1), Ready(0)), Admissions() + ThreeStarted())
  }

  function JustOpened(): State {
    State(Gauge(3, Some(500 + Cooldown)), 500, Four(Ended, Ended, Ended, Ready(0)), Admissions() + ThreeStarted() + ThreeFailed())
  }

  lemma FourAreAdmitted() returns (run: Run<State, Step>)
    ensures Leads(Next, run, Init(), FourAdmitted())
  {
    run := FourSteps(Init(), Allow(0, 0), Allow(1, 0), Allow(2, 0), Allow(3, 0));
  }

  lemma ThreeStart() returns (run: Run<State, Step>)
    ensures Leads(Next, run, FourAdmitted(), ThreeRunning())
  {
    run := ThreeSteps(FourAdmitted(), StartOperation(0, 0), StartOperation(1, 0), StartOperation(2, 0));
  }

  lemma ThreeTimeOut() returns (run: Run<State, Step>)
    ensures Leads(Next, run, ThreeRunning(), JustOpened())
  {
    run := ThreeSteps(ThreeRunning(), GiveUp(0, ContextDeadline, 500), GiveUp(1, ContextDeadline, 500), GiveUp(2, ContextDeadline, 500));
  }

  /**
   * The restriction to calls admitted earlier is needed: three calls run into their
   * deadline and open the breaker, and a fourth, admitted before, starts its operation
   * one millisecond later.
   */
  lemma InFlightCallStartsInCooldown() returns (run: Run<State, Step>)
    ensures IsRun(run) && 9 < 10 < |run.Last().log|
    ensures Opens(run.Last().log, 9) && NoSuccess(run.Last().log, 9, 10) && run.Last().log[10].Started?
    ensures run.Last().log[10].time < run.Last().log[9].time + 10_000
  {
    var r1 := FourAreAdmitted();
    var r2 := ThreeStart();
    var r3 := ThreeTimeOut();
    var step := StartOperation(3, 501);
    var last := After(JustOpened(), step);
    assert Leads(Next, Run([JustOpened(), last], [step]), JustOpened(), last);
    assert last.log == Admissions() + ThreeStarted() + ThreeFailed() + [Started(3, 501)];
    hide FourAdmitted, ThreeRunning, JustOpened, After, Enabled, Next;
    var r12 := Joined(Next, r1, r2, Init(), FourAdmitted(), ThreeRunning());
    var r13 := Joined(Next, r12, r3, Init(), ThreeRunning(), JustOpened());
    run := Joined(Next, r13, Run([JustOpened(), last], [step]), Init(), JustOpened(), last);
  }

  lemma ThreeSteps(s: State, a: Step, b: Step, c: Step) returns (run: Run<State, Step>)
    requires Enabled(s, a) && Enabled(After(s, a), b) && Enabled(After(After(s, a), b), c)
    ensures Leads(Next, run, s, After(After(After(s, a), b), c))
  {
    hide After, Enabled;
    var s1 := After(s, a);
    var s2 := After(s1, b);
    run := Run([s, s1, s2, After(s2, c)], [a, b, c]);
  }

  lemma FourSteps(s: State, a: Step, b: Step, c: Step, d: Step) returns (run: Run<State, Step>)
    requires Enabled(s, a) && Enabled(After(s, a), b) && Enabled(After(After(s, a), b), c) && Enabled(After(After(After(s, a), b), c), d)
    ensures Leads(Next, run, s, After(After(After(After(s, a), b), c), d))
  {
    hide After, Enabled;
    var s1 := After(s, a);
    var s2 := After(s1, b);
    var s3 := After(s2, c);
    run := Run([s, s1, s2, s3, After(s3, d)], [a, b, c, d]);
  }

  // ----- one call, as the code runs it -----

  datatype Answer = CircuitOpen | Returned | GaveUp(error: Error)

  /**
   * What a call meets: the outcome of each operation (None is success), what ends the
   * wait between them (None is the timer), and the instants of its clock readings.
   */
  datatype Script = Script(first: Option<Error>, second: Option<Error>, wait: Option<Error>,
                           allowAt: int, firstAt: int, secondAt: int, reportAt: int)

  ghost predicate ValidScript(script: Script) {
    && (script.wait.Some? ==> !script.wait.value.Rpc?)
    && script.allowAt <= script.firstAt <= script.secondAt <= script.reportAt
  }

  /** The answer of an admitted call: the second operation follows a transient error unless the context ends the wait. */
  ghost predicate AnswerIs(script: Script, answer: Answer) {
    match script.first
    case None => answer == Returned
    case Some(e) =>
      if !Transient(e) then answer == GaveUp(e)
      else if script.wait.Some? then answer == GaveUp(script.wait.value)
      else if script.second.Some? then answer == GaveUp(script.second.value)
      else answer == Returned
  }

  /** The breaker after an admitted call that ended so; `before` is as the admission left it. */
  ghost predicate Reported(before: Gauge, after: Gauge, answer: Answer, time: int) {
    match answer
    case CircuitOpen => false
    case Returned => after == Gauge(0, None)
    case GaveUp(e) =>
      if Transient(e) || e == ContextDeadline
      then after == Gauge(before.failures + 1, if before.failures + 1 >= 3 then Some(time + 10_000) else before.openUntil)
      else after == before
  }

  lemma TransientExactly(e: Error)
    ensures Retryable(e) <==> Transient(e)
    ensures CountsAsFailure(e) <==> Transient(e) || e == ContextDeadline
  {
  }

  /** How the loop may end: a result, an error that is not to be retried or is the second, the end of the context. */
  lemma Returning(script: Script, attempt: int)
    requires attempt == 0 ==> script.first.None?
    requires attempt != 0 ==> script.second.None? && script.first.Some? && Transient(script.first.value) && script.wait.None?
    ensures AnswerIs(script, Returned) && forall before, time :: Reported(before, Gauge(0, None), Returned, time)
  {
  }

  lemma GivingUp(script: Script, attempt: int)
    requires attempt == 0 ==> script.first.Some? && !Transient(script.first.value)
    requires attempt != 0 ==> script.second.Some? && script.first.Some? && Transient(script.first.value) && script.wait.None?
    ensures AnswerIs(script, GaveUp(if attempt == 0 then script.first.value else script.second.value))
  {
  }

  lemma WaitEnded(script: Script)
    requires script.first.Some? && Transient(script.first.value) && script.wait.Some?
    ensures AnswerIs(script, GaveUp(script.wait.value))
  {
  }

  lemma ReportedFailure(before: Gauge, e: Error, time: int)
    ensures Reported(before, if CountsAsFailure(e) then AfterFailure(before, time) else before, GaveUp(e), time)
  {
  }

  /** callWithResilience takes only steps of the protocol and leaves its call ended. */
  method CallWithResilience(b: CircuitBreaker, c: CallId, script: Script, ghost s: State)
    returns (answer: Answer, ghost s': State, ghost run: Run<State, Step>)
    requires s.gauge == b.Read() && c !in s.phases && ValidScript(script) && s.clock <= script.allowAt
    modifies b
    ensures Leads(Next, run, s, s') && b.Read() == s'.gauge && s'.phases == s.phases[c := Ended]
    ensures s'.log != [] && var last := s'.log[|s'.log| - 1];
      match answer
      case CircuitOpen => last == Rejected(c, script.allowAt)
      case Returned => last == Succeeded(c, script.reportAt)
      case GaveUp(e) => if Transient(e) || e == ContextDeadline then last.Failed? && last.call == c else last == Dropped(c, script.reportAt)
    ensures answer == CircuitOpen <==> old(b.openUntil).Some? && script.allowAt < old(b.openUntil).value
    ensures answer == CircuitOpen ==> b.Read() == old(b.Read())
    ensures answer != CircuitOpen ==> AnswerIs(script, answer)
    ensures answer != CircuitOpen ==>
      Reported(if old(b.openUntil).Some? then Gauge(0, None) else old(b.Read()), b.Read(), answer, script.reportAt)
  {
    hide Leads, Next, Transient, AnswerIs, Reported, After, Enabled;
    s', run := Begin(s, c, script.allowAt);
    var allowed := b.Allow(script.allowAt);
    if !allowed { return CircuitOpen, s', run; }
    var attempt := 0;
    var lastErr := ContextCanceled;
    ghost var admitted := b.Read();
    while attempt < Attempts
      invariant 0 <= attempt <= Attempts
      invariant Leads(Next, run, s, s') && b.Read() == s'.gauge == admitted
      invariant attempt == 1 ==> script.first.Some? && Transient(script.first.value) && script.wait.None?
      invariant attempt == Attempts ==> AnswerIs(script, GaveUp(lastErr))
      invariant c in s'.phases && s'.phases == s.phases[c := s'.phases[c]]
      invariant attempt < Attempts ==> s'.phases[c] == Ready(attempt) && s'.clock <= if attempt == 0 then script.firstAt else script.secondAt
      invariant attempt == Attempts ==>
        s'.phases[c].Running? && s'.clock <= script.reportAt && (Retryable(lastErr) ==> s'.phases[c].nth >= Attempts)
    {
      s', run := TakeStart(s, s', run, c, if attempt == 0 then script.firstAt else script.secondAt);
      var outcome := if attempt == 0 then script.first else script.second;
      if outcome.None? {
        Returning(script, attempt);
        s', run := TakeSuccess(s, s', run, c, script.reportAt);
        b.Success();
        return Returned, s', run;
      }
      lastErr := outcome.value;
      TransientExactly(lastErr);
      if !Retryable(lastErr) || attempt + 1 == Attempts {
        GivingUp(script, attempt);
        break;
      }
      if script.wait.Some? {
        WaitEnded(script);
        lastErr := script.wait.value;
        attempt := Attempts;
      } else {
        s', run := TakeRetry(s, s', run, c, lastErr);
        attempt := attempt + 1;
      }
    }
    s', run := TakeGiveUp(s, s', run, c, lastErr, script.reportAt);
    TransientExactly(lastErr);
    ReportedFailure(admitted, lastErr, script.reportAt);
    if CountsAsFailure(lastErr) { b.Failure(script.reportAt); }
    answer := GaveUp(lastErr);
  }

  // The steps of one call, with what each changes.

  lemma Begin(s: State, c: CallId, time: int) returns (s': State, run: Run<State, Step>)
    requires c !in s.phases && s.clock <= time
    ensures Leads(Next, run, s, s') && s'.gauge == AfterAllow(s.gauge, time) && s'.clock == time
    ensures s'.phases == s.phases[c := if Admits(s.gauge, time) then Ready(0) else Ended]
    ensures !Admits(s.gauge, time) ==> s'.log == s.log + [Rejected(c, time)]
  {
    var step := Allow(c, time);
    s', run := After(s, step), Run([s, After(s, step)], [step]);
  }

  lemma TakeStart(s0: State, s: State, run: Run<State, Step>, c: CallId, time: int) returns (s': State, run': Run<State, Step>)
    requires Leads(Next, run, s0, s) && c in s.phases && s.phases[c].Ready? && s.clock <= time
    ensures Leads(Next, run', s0, s') && s'.gauge == s.gauge && s'.clock == time
    ensures s'.phases == s.phases[c := Running(s.phases[c].ended + 1)]
  {
    s', run' := Take(s0, s, run, StartOperation(c, time));
  }

  lemma TakeRetry(s0: State, s: State, run: Run<State, Step>, c: CallId, e: Error) returns (s': State, run': Run<State, Step>)
    requires Leads(Next, run, s0, s) && c in s.phases && s.phases[c].Running? && s.phases[c].nth < Attempts && Retryable(e)
    ensures Leads(Next, run', s0, s') && s'.gauge == s.gauge && s'.clock == s.clock
    ensures s'.phases == s.phases[c := Ready(s.phases[c].nth)]
  {
    s', run' := Take(s0, s, run, Retry(c, e));
  }

  lemma TakeSuccess(s0: State, s: State, run: Run<State, Step>, c: CallId, time: int) returns (s': State, run': Run<State, Step>)
    requires Leads(Next, run, s0, s) && c in s.phases && s.phases[c].Running? && s.clock <= time
    ensures Leads(Next, run', s0, s') && s'.gauge == Gauge(0, None)
    ensures s'.phases == s.phases[c := Ended] && s'.log == s.log + [Succeeded(c, time)]
  {
    s', run' := Take(s0, s, run, ReportSuccess(c, time));
  }

  lemma TakeGiveUp(s0: State, s: State, run: Run<State, Step>, c: CallId, e: Error, time: int) returns (s': State, run': Run<State, Step>)
    requires Leads(Next, run, s0, s) && c in s.phases && s.phases[c].Running? && s.clock <= time
    requires Retryable(e) ==> s.phases[c].nth >= Attempts
    ensures Leads(Next, run', s0, s') && s'.gauge == if CountsAsFailure(e) then AfterFailure(s.gauge, time) else s.gauge
    ensures s'.phases == s.phases[c := Ended] && |s'.log| == |s.log| + 1
    ensures var last := s'.log[|s'.log| - 1];
      if CountsAsFailure(e) then last.Failed? && last.call == c else last == Dropped(c, time)
  {
    s', run' := Take(s0, s, run, GiveUp(c, e, time));
  }

  /** One more step of the run. */
  lemma Take(s0: State, s: State, run: Run<State, Step>, step: Step) returns (s': State, run': Run<State, Step>)
    requires Leads(Next, run, s0, s) && Enabled(s, step)
    ensures s' == After(s, step) && Leads(Next, run', s0, s')
  {
    s', run' := After(s, step), Extend(run, step, After(s, step));
    ExtendLeads(Next, run, s0, s, step, s');
  }
}

/** Finite runs of a transition system given by its step relation. */
module Runs {
  datatype Run<S, T> = Run(states: seq<S>, steps: seq<T>) {
    ghost function Last(): S requires states != [] { states[|states| - 1] }
  }

  ghost predicate IsPath<S(!new), T(!new)>(next: (S, T, S) -> bool, run: Run<S, T>) {
    && |run.states| == |run.steps| + 1
    && forall i {:trigger run.steps[i]} :: 0 <= i < |run.steps| ==> next(run.states[i], run.steps[i], run.states[i + 1])
  }

  /** The run leads from one state to another. */
  ghost predicate Leads<S(!new), T(!new)>(next: (S, T, S) -> bool, run: Run<S, T>, s: S, s': S) {
    IsPath(next, run) && run.states[0] == s && run.Last() == s'
  }

  ghost function Start<S, T>(s: S): Run<S, T> { Run([s], []) }

  ghost function Extend<S, T>(run: Run<S, T>, step: T, s': S): Run<S, T> {
    Run(run.states + [s'], run.steps + [step])
  }

  lemma StartLeads<S(!new), T(!new)>(next: (S, T, S) -> bool, s: S)
    ensures Leads(next, Start<S, T>(s), s, s)
  {
  }

  lemma ExtendLeads<S(!new), T(!new)>(next: (S, T, S) -> bool, run: Run<S, T>, s: S, mid: S, step: T, s': S)
    requires Leads(next, run, s, mid) && next(mid, step, s')
    ensures Leads(next, Extend(run, step, s'), s, s')
  {
    var longer := Extend(run, step, s');
    forall i | 0 <= i < |longer.steps| ensures next(longer.states[i], longer.steps[i], longer.states[i + 1]) {
      if i < |run.steps| { assert next(run.states[i], run.steps[i], run.states[i + 1]); }
    }
  }

  lemma Joined<S(!new), T(!new)>(next: (S, T, S) -> bool, first: Run<S, T>, second: Run<S, T>, s: S, mid: S, s': S)
    returns (run: Run<S, T>)
    requires Leads(next, first, s, mid) && Leads(next, second, mid, s')
    ensures Leads(next, run, s, s')
  {
    run := Run(first.states + second.states[1..], first.steps + second.steps);
    forall i | 0 <= i < |run.steps| ensures next(run.states[i], run.steps[i], run.states[i + 1]) {
      if i < |first.steps| {
        assert next(first.states[i], first.steps[i], first.states[i + 1]);
      } else {
        var k := i - |first.steps|;
        assert next(second.states[k], second.steps[k], second.states[k + 1]);
      }
    }
  }
}

/**
 * Course versions under concurrent edits, publications and file-clone jobs.
 *
 * Transactions are modelled statement by statement under READ COMMITTED: a statement sees
 * committed rows, its updates stay private until Commit, and row locks last to the end of
 * the transaction. Edits and publications lock the version row; a clone worker does not,
 * it only filters its UPDATE by status = 'draft' and later locks its own job row.
 * Replication of knowledge-base articles also only filters by status.
 */
module Versions {
  import opened Prelude
  import opened Runs
  import opened Documents

  type VersionId = nat
  type LessonId = nat
  type JobId = nat
  type TxId = nat

  datatype Status = Draft | Published | Retired

  /** Everything a learner can see: lessons, the cover file, and the rest as one opaque value. */
  datatype Content = Content(lessons: map<LessonId, Lesson>, cover: Option<string>, outline: nat)

  datatype Version = Version(status: Status, content: Content)

  datatype JobStatus = Pending | Running | Completed | JobFailed

  datatype Job = Job(target: VersionId, status: JobStatus, attempts: nat)

  datatype Tx =
    | Editing(version: VersionId, draft: Content)
    | Publishing(version: VersionId, jobsLocked: bool)
    | Cloning(job: JobId, lessons: map<LessonId, Lesson>, cover: Option<string>, jobLocked: bool)
    | Replicating(writes: map<VersionId, map<LessonId, Lesson>>)

  datatype State = State(versions: map<VersionId, Version>, jobs: map<JobId, Job>, txs: map<TxId, Tx>)

  datatype Step =
    | CreateDraft(version: VersionId, content: Content, newJobs: set<JobId>)
    | BeginEdit(tx: TxId, version: VersionId)
    | Edit(tx: TxId, content: Content)
    | CommitEdit(tx: TxId)
    | BeginPublish(tx: TxId, version: VersionId)
    | LockJobs(tx: TxId)
    | CommitPublish(tx: TxId)
    | Retire(version: VersionId)
    | Claim(job: JobId)
    | Release(job: JobId)           // stale requeue or retry: running becomes failed
    | BeginClone(tx: TxId, job: JobId)
    | RewriteLesson(tx: TxId, lesson: LessonId, value: Lesson)
    | RewriteCover(tx: TxId, cover: string)
    | CompleteJob(tx: TxId)
    | CommitClone(tx: TxId)
    | Replicate(tx: TxId, writes: map<VersionId, map<LessonId, Lesson>>)
    | CommitReplicate(tx: TxId)
    | Rollback(tx: TxId)

  predicate LocksVersion(tx: Tx, v: VersionId) { (tx.Editing? || tx.Publishing?) && tx.version == v }

  predicate LocksJob(s: State, tx: Tx, j: JobId) {
    (tx.Cloning? && tx.jobLocked && tx.job == j)
    || (tx.Publishing? && tx.jobsLocked && j in s.jobs && s.jobs[j].target == tx.version)
  }

  ghost predicate VersionFree(s: State, v: VersionId) { forall t :: t in s.txs ==> !LocksVersion(s.txs[t], v) }

  ghost predicate JobFree(s: State, j: JobId) { forall t :: t in s.txs ==> !LocksJob(s, s.txs[t], j) }

  ghost predicate JobsDone(s: State, v: VersionId) {
    forall j :: j in s.jobs && s.jobs[j].target == v ==> s.jobs[j].status == Completed
  }

  predicate IsDraft(s: State, v: VersionId) { v in s.versions && s.versions[v].status == Draft }

  function SetTx(s: State, t: TxId, tx: Tx): State { s.(txs := s.txs[t := tx]) }

  function SetJob(s: State, j: JobId, status: JobStatus): State
    requires j in s.jobs
  {
    s.(jobs := s.jobs[j := s.jobs[j].(status := status)])
  }

  function Rewritten(content: Content, lessons: map<LessonId, Lesson>, cover: Option<string>): Content {
    content.(lessons := content.lessons + lessons, cover := if cover.Some? then cover else content.cover)
  }

  function Replicated(versions: map<VersionId, Version>, writes: map<VersionId, map<LessonId, Lesson>>): map<VersionId, Version> {
    map v | v in versions ::
      if v in writes then versions[v].(content := Rewritten(versions[v].content, writes[v], None)) else versions[v]
  }

  ghost predicate Next(s: State, step: Step, s': State) {
    match step
    case CreateDraft(v, content, newJobs) =>
      && v !in s.versions && newJobs !! s.jobs.Keys && (forall j :: j in s.jobs ==> s.jobs[j].target != v)
      && s' == s.(versions := s.versions[v := Version(Draft, content)], jobs := s.jobs + map j | j in newJobs :: Job(v, Pending, 0))
    case BeginEdit(t, v) =>
      t !in s.txs && IsDraft(s, v) && VersionFree(s, v) && s' == SetTx(s, t, Editing(v, s.versions[v].content))
    case Edit(t, content) =>
      t in s.txs && s.txs[t].Editing? && s' == SetTx(s, t, s.txs[t].(draft := content))
    case CommitEdit(t) =>
      && t in s.txs && s.txs[t].Editing? && s.txs[t].version in s.versions
      && var v := s.txs[t].version;
      s' == s.(versions := s.versions[v := s.versions[v].(content := s.txs[t].draft)], txs := s.txs - {t})
    case BeginPublish(t, v) =>
      t !in s.txs && IsDraft(s, v) && VersionFree(s, v) && s' == SetTx(s, t, Publishing(v, false))
    case LockJobs(t) =>
      && t in s.txs && s.txs[t].Publishing? && JobsDone(s, s.txs[t].version)
      && (forall j :: j in s.jobs && s.jobs[j].target == s.txs[t].version ==> JobFree(s, j))
      && s' == SetTx(s, t, s.txs[t].(jobsLocked := true))
    case CommitPublish(t) =>
      && t in s.txs && s.txs[t].Publishing? && s.txs[t].jobsLocked && IsDraft(s, s.txs[t].version)
      && var v := s.txs[t].version;
      s' == s.(versions := s.versions[v := s.versions[v].(status := Published)], txs := s.txs - {t})
    case Retire(v) =>
      && v in s.versions && s.versions[v].status == Published
      && s' == s.(versions := s.versions[v := s.versions[v].(status := Retired)])
    case Claim(j) =>
      && j in s.jobs && s.jobs[j].status in {Pending, JobFailed} && JobFree(s, j)
      && s' == s.(jobs := s.jobs[j := s.jobs[j].(status := Running, attempts := s.jobs[j].attempts + 1)])
    case Release(j) =>
      j in s.jobs && s.jobs[j].status == Running && JobFree(s, j) && s' == SetJob(s, j, JobFailed)
    case BeginClone(t, j) =>
      t !in s.txs && j in s.jobs && s' == SetTx(s, t, Cloning(j, map[], None, false))
    case RewriteLesson(t, l, value) =>
      && t in s.txs && s.txs[t].Cloning? && s.txs[t].job in s.jobs && IsDraft(s, s.jobs[s.txs[t].job].target)
      && l in s.versions[s.jobs[s.txs[t].job].target].content.lessons
      && s' == SetTx(s, t, s.txs[t].(lessons := s.txs[t].lessons[l := value]))
    case RewriteCover(t, cover) =>
      && t in s.txs && s.txs[t].Cloning? && s.txs[t].job in s.jobs && IsDraft(s, s.jobs[s.txs[t].job].target)
      && s' == SetTx(s, t, s.txs[t].(cover := Some(cover)))
    case CompleteJob(t) =>
      && t in s.txs && s.txs[t].Cloning? && !s.txs[t].jobLocked && s.txs[t].job in s.jobs
      && s.jobs[s.txs[t].job].status == Running && JobFree(s, s.txs[t].job)
      && s' == SetTx(s, t, s.txs[t].(jobLocked := true))
    case CommitClone(t) =>
      && t in s.txs && s.txs[t].Cloning? && s.txs[t].jobLocked && s.txs[t].job in s.jobs
      && s.jobs[s.txs[t].job].target in s.versions
      && var v := s.jobs[s.txs[t].job].target;
      s' == SetJob(s, s.txs[t].job, Completed)
        .(versions := s.versions[v := s.versions[v].(content := Rewritten(s.versions[v].content, s.txs[t].lessons, s.txs[t].cover))],
        txs := s.txs - {t})
    case Replicate(t, writes) =>
      && t !in s.txs && (forall v :: v in writes ==> IsDraft(s, v) && writes[v].Keys <= s.versions[v].content.lessons.Keys)
      && s' == SetTx(s, t, Replicating(writes))
    case CommitReplicate(t) =>
      && t in s.txs && s.txs[t].Replicating?
      && s' == s.(versions := Replicated(s.versions, s.txs[t].writes), txs := s.txs - {t})
    case Rollback(t) =>
      t in s.txs && s' == s.(txs := s.txs - {t})
  }

  ghost predicate IsRun(run: Run<State, Step>) {
    IsPath(Next, run) && run.states[0] == State(map[], map[], map[])
  }

  // ----- the invariant -----

  ghost predicate OneVersionLock(s: State) {
    forall t, u, v :: t in s.txs && u in s.txs && LocksVersion(s.txs[t], v) && LocksVersion(s.txs[u], v) ==> t == u
  }

  predicate ClonesJob(tx: Tx, j: JobId) { tx.Cloning? && tx.jobLocked && tx.job == j }

  ghost predicate OneJobLock(s: State) {
    forall t, u, j :: t in s.txs && u in s.txs && ClonesJob(s.txs[t], j) && ClonesJob(s.txs[u], j) ==> t == u
  }

  ghost predicate TxInv(s: State, tx: Tx) {
    match tx
    case Editing(v, _) => IsDraft(s, v)
    case Publishing(v, jobsLocked) => IsDraft(s, v) && (jobsLocked ==> JobsDone(s, v))
    case Cloning(j, _, _, jobLocked) => j in s.jobs && (jobLocked ==> s.jobs[j].status == Running)
    case Replicating(_) => true
  }

  ghost predicate TxsInv(s: State) { forall t :: t in s.txs ==> TxInv(s, s.txs[t]) }

  /** Every job belongs to a version, and a version past draft has no unfinished job. */
  ghost predicate JobsInv(s: State) {
    && (forall j :: j in s.jobs ==> s.jobs[j].target in s.versions)
    && (forall v :: v in s.versions && s.versions[v].status != Draft ==> JobsDone(s, v))
  }

  ghost predicate Inv(s: State) { OneVersionLock(s) && OneJobLock(s) && TxsInv(s) && JobsInv(s) }

  /** A step that only adds or changes transaction t. */
  lemma TxStepKeeps(s: State, t: TxId, s': State)
    requires Inv(s) && s'.versions == s.versions && s'.jobs == s.jobs && s'.txs.Keys == s.txs.Keys + {t}
    requires forall u :: u in s.txs && u != t ==> s'.txs[u] == s.txs[u]
    requires TxInv(s', s'.txs[t])
    requires forall v :: LocksVersion(s'.txs[t], v) ==> (t in s.txs && LocksVersion(s.txs[t], v)) || VersionFree(s, v)
    requires forall j :: ClonesJob(s'.txs[t], j) ==> (t in s.txs && ClonesJob(s.txs[t], j)) || JobFree(s, j)
    ensures Inv(s')
  {
    forall u, j | u in s.txs && JobFree(s, j) ensures !ClonesJob(s.txs[u], j) { assert !LocksJob(s, s.txs[u], j); }
    forall u | u in s'.txs ensures TxInv(s', s'.txs[u]) {
      if u != t { assert TxInv(s, s.txs[u]); }
    }
  }

  lemma CreateKeeps(s: State, step: Step, s': State)
    requires Inv(s) && step.CreateDraft? && Next(s, step, s')
    ensures Inv(s')
  {
    assert forall j :: j in s.jobs ==> s'.jobs[j] == s.jobs[j];
    forall v | v in s.versions && JobsDone(s, v) ensures JobsDone(s', v) {}
    forall u | u in s'.txs ensures TxInv(s', s'.txs[u]) { assert TxInv(s, s.txs[u]); }
  }

  /** A commit that ends transaction t and changes at most version v, which t had locked. */
  lemma LockedCommitKeeps(s: State, t: TxId, v: VersionId, s': State)
    requires Inv(s) && t in s.txs && LocksVersion(s.txs[t], v) && v in s.versions
    requires s'.jobs == s.jobs && s'.txs == s.txs - {t} && s'.versions.Keys == s.versions.Keys
    requires forall u :: u in s.versions && u != v ==> s'.versions[u] == s.versions[u]
    requires s'.versions[v].status != Draft ==> JobsDone(s, v)
    ensures Inv(s')
  {
    forall u | u in s'.txs ensures TxInv(s', s'.txs[u]) {
      assert TxInv(s, s.txs[u]);
      assert !LocksVersion(s.txs[u], v);
    }
    forall w | w in s'.versions && s'.versions[w].status != Draft ensures JobsDone(s', w) { assert JobsDone(s, w); }
  }

  /** A step that changes only the status of a free job that is not completed. */
  lemma JobStepKeeps(s: State, j: JobId, s': State)
    requires Inv(s) && j in s.jobs && s.jobs[j].status != Completed && JobFree(s, j)
    requires s'.versions == s.versions && s'.txs == s.txs && s'.jobs.Keys == s.jobs.Keys
    requires s'.jobs[j].target == s.jobs[j].target && forall k :: k in s.jobs && k != j ==> s'.jobs[k] == s.jobs[k]
    ensures Inv(s')
  {
    forall u | u in s'.txs ensures TxInv(s', s'.txs[u]) {
      assert TxInv(s, s.txs[u]);
      assert !LocksJob(s, s.txs[u], j);
    }
    forall v | v in s'.versions && s'.versions[v].status != Draft ensures JobsDone(s', v) { assert JobsDone(s, v); }
  }

  lemma CloneCommitKeeps(s: State, t: TxId, s': State)
    requires Inv(s) && Next(s, CommitClone(t), s')
    ensures Inv(s') && IsDraft(s, s.jobs[s.txs[t].job].target)
  {
    var j := s.txs[t].job;
    var v := s.jobs[j].target;
    assert TxInv(s, s.txs[t]);
    assert s.versions[v].status != Draft ==> JobsDone(s, v);
    forall u | u in s'.txs ensures TxInv(s', s'.txs[u]) {
      assert TxInv(s, s.txs[u]);
      assert ClonesJob(s.txs[t], j) && !ClonesJob(s.txs[u], j);
    }
    forall w | w in s'.versions && s'.versions[w].status != Draft ensures JobsDone(s', w) { assert JobsDone(s, w); }
  }

  lemma ReplicateKeeps(s: State, t: TxId, s': State)
    requires Inv(s) && Next(s, CommitReplicate(t), s')
    ensures Inv(s')
  {
    forall u | u in s'.txs ensures TxInv(s', s'.txs[u]) { assert TxInv(s, s.txs[u]); }
    forall w | w in s'.versions && s'.versions[w].status != Draft ensures JobsDone(s', w) { assert JobsDone(s, w); }
  }

  lemma PlainStepKeeps(s: State, step: Step, s': State)
    requires Inv(s) && Next(s, step, s') && (step.Retire? || step.Rollback?)
    ensures Inv(s')
  {
    forall u | u in s'.txs ensures TxInv(s', s'.txs[u]) { assert TxInv(s, s.txs[u]); }
    forall w | w in s'.versions && s'.versions[w].status != Draft ensures JobsDone(s', w) { assert JobsDone(s, w); }
  }

  lemma StepKeeps(s: State, step: Step, s': State)
    requires Inv(s) && Next(s, step, s')
    ensures Inv(s')
  {
    hide OneVersionLock, OneJobLock, JobsInv;
    match step
    case CreateDraft(_, _, _) => CreateKeeps(s, step, s');
    case CommitEdit(t) =>
      assert TxInv(s, s.txs[t]);
      LockedCommitKeeps(s, t, s.txs[t].version, s');
    case CommitPublish(t) =>
      assert TxInv(s, s.txs[t]);
      LockedCommitKeeps(s, t, s.txs[t].version, s');
    case Retire(_) => PlainStepKeeps(s, step, s');
    case Rollback(_) => PlainStepKeeps(s, step, s');
    case Claim(j) => JobStepKeeps(s, j, s');
    case Release(j) => JobStepKeeps(s, j, s');
    case CommitClone(t) => CloneCommitKeeps(s, t, s');
    case CommitReplicate(t) => ReplicateKeeps(s, t, s');
    case _ => OwnTxStepKeeps(s, step, s');
  }

  lemma OwnTxStepKeeps(s: State, step: Step, s': State)
    requires Inv(s) && Next(s, step, s')
    requires step.BeginEdit? || step.Edit? || step.BeginPublish? || step.LockJobs? || step.BeginClone?
          || step.RewriteLesson? || step.RewriteCover? || step.CompleteJob? || step.Replicate?
    ensures Inv(s')
  {
    assert step.tx in s.txs ==> TxInv(s, s.txs[step.tx]);
    TxStepKeeps(s, step.tx, s');
  }

  lemma {:induction false} RunInv(run: Run<State, Step>, n: nat)
    requires IsRun(run) && n < |run.states|
    ensures Inv(run.states[n])
  {
    if n > 0 {
      RunInv(run, n - 1);
      StepKeeps(run.states[n - 1], run.steps[n - 1], run.states[n]);
    }
  }

  // ----- what every run guarantees -----

  ghost predicate PastDraft(s: State, v: VersionId) { v in s.versions && s.versions[v].status != Draft }

  /** Transaction t holds a replicated article for version v. */
  predicate Replicates(s: State, t: TxId, v: VersionId) {
    t in s.txs && s.txs[t].Replicating? && v in s.txs[t].writes
  }

  /** The lessons of v once transaction t has committed. */
  function Landed(s: State, t: TxId, v: VersionId): Content
    requires v in s.versions && Replicates(s, t, v)
  {
    Rewritten(s.versions[v].content, s.txs[t].writes[v], None)
  }

  /** What one step does to the content of a version past draft. */
  lemma StepOnPublished(s: State, step: Step, s': State, v: VersionId)
    requires Inv(s) && Next(s, step, s') && PastDraft(s, v)
    ensures PastDraft(s', v)
    ensures s'.versions[v].content ==
      if step.CommitReplicate? && Replicates(s, step.tx, v) then Landed(s, step.tx, v) else s.versions[v].content
  {
    hide OneVersionLock, OneJobLock, JobsInv;
    match step
    case CommitEdit(t) => assert TxInv(s, s.txs[t]);
    case CommitPublish(t) => assert TxInv(s, s.txs[t]);
    case CommitClone(t) => CloneCommitKeeps(s, t, s');
    case _ => hide Inv;
  }

  /**
   * Edits, clone workers (stale or not), retries and publications leave the content of a
   * version past draft alone; the commit of a replication whose statement ran on the
   * draft writes its lessons into it.
   */
  lemma OnlyLateReplicationChangesPublished(run: Run<State, Step>, n: nat, v: VersionId)
    requires IsRun(run) && n < |run.steps| && PastDraft(run.states[n], v)
    ensures PastDraft(run.states[n + 1], v)
    ensures run.states[n + 1].versions[v].content ==
      if run.steps[n].CommitReplicate? && Replicates(run.states[n], run.steps[n].tx, v) then Landed(run.states[n], run.steps[n].tx, v)
      else run.states[n].versions[v].content
  {
    RunInv(run, n);
    assert Next(run.states[n], run.steps[n], run.states[n + 1]);
    hide Inv, Next, Landed, Replicates;
    StepOnPublished(run.states[n], run.steps[n], run.states[n + 1], v);
  }

  /** Some open transaction holds a replicated article that differs from what v has. */
  ghost predicate ChangePending(s: State, v: VersionId)
    requires v in s.versions
  {
    exists t :: Replicates(s, t, v) && Landed(s, t, v) != s.versions[v].content
  }

  /** No step makes a change pending for a version past draft, or changes it while none is. */
  lemma NoChangeArises(s: State, step: Step, s': State, v: VersionId)
    requires Inv(s) && Next(s, step, s') && PastDraft(s, v) && !ChangePending(s, v)
    ensures PastDraft(s', v) && s'.versions[v].content == s.versions[v].content && !ChangePending(s', v)
  {
    StepOnPublished(s, step, s', v);
    if step.CommitReplicate? && Replicates(s, step.tx, v) { assert Landed(s, step.tx, v) == s.versions[v].content; }
    hide Inv;
    forall t | Replicates(s', t, v) ensures Landed(s', t, v) == s'.versions[v].content {
      OldReplication(s, step, s', t, v);
      assert Landed(s, t, v) == s.versions[v].content;
    }
  }

  /** A replication that holds a version past draft started before, and its writes do not change. */
  lemma OldReplication(s: State, step: Step, s': State, t: TxId, v: VersionId)
    requires Next(s, step, s') && PastDraft(s, v) && Replicates(s', t, v)
    ensures Replicates(s, t, v) && s.txs[t].writes[v] == s'.txs[t].writes[v]
  {
  }

  lemma {:induction false} NoChangeComes(run: Run<State, Step>, s: State, n: nat, v: VersionId)
    requires IsPath(Next, run) && run.states[0] == s && n < |run.states| && Inv(s) && PastDraft(s, v) && !ChangePending(s, v)
    ensures Inv(run.states[n]) && PastDraft(run.states[n], v) && !ChangePending(run.states[n], v)
    ensures run.states[n].versions[v].content == s.versions[v].content
  {
    if n > 0 {
      NoChangeComes(run, s, n - 1, v);
      assert Next(run.states[n - 1], run.steps[n - 1], run.states[n]);
      hide Inv, Next, ChangePending;
      StepKeeps(run.states[n - 1], run.steps[n - 1], run.states[n]);
      NoChangeArises(run.states[n - 1], run.steps[n - 1], run.states[n], v);
    }
  }

  /** No continuation from s ever changes the content of v. */
  ghost predicate ImmutableFrom(s: State, v: VersionId)
    requires v in s.versions
  {
    forall run, s' :: Leads(Next, run, s, s') ==> v in s'.versions && s'.versions[v].content == s.versions[v].content
  }

  lemma CanLand(s: State, t: TxId, v: VersionId) returns (run: Run<State, Step>, s': State)
    requires v in s.versions && Replicates(s, t, v)
    ensures Leads(Next, run, s, s') && v in s'.versions && s'.versions[v].content == Landed(s, t, v)
  {
    s' := s.(versions := Replicated(s.versions, s.txs[t].writes), txs := s.txs - {t});
    assert Next(s, CommitReplicate(t), s');
    run := Run([s, s'], [CommitReplicate(t)]);
  }

  /**
   * From any reachable state on, a version past draft is immutable for ever, whatever edits,
   * clone claims, stale requeues, retries, publications and replications follow, if and
   * only if no open replication holds a change of it.
   */
  lemma PublishedIsImmutableExactly(run: Run<State, Step>, i: nat, v: VersionId)
    requires IsRun(run) && i < |run.states| && PastDraft(run.states[i], v)
    ensures ImmutableFrom(run.states[i], v) <==> !ChangePending(run.states[i], v)
  {
    var s := run.states[i];
    RunInv(run, i);
    if ChangePending(s, v) {
      var t :| Replicates(s, t, v) && Landed(s, t, v) != s.versions[v].content;
      hide Inv, Next, Landed, Replicates, Leads;
      var ext, s' := CanLand(s, t, v);
    } else {
      hide Inv, Next, ChangePending;
      forall ext, s' | Leads(Next, ext, s, s') ensures v in s'.versions && s'.versions[v].content == s.versions[v].content {
        NoChangeComes(ext, s, |ext.states| - 1, v);
      }
    }
  }

  /** In particular a publication that commits while no replication holds the version is final. */
  lemma {:induction false} PublishedIsImmutable(run: Run<State, Step>, i: nat, j: nat, v: VersionId)
    requires IsRun(run) && i <= j < |run.states| && PastDraft(run.states[i], v)
    requires forall t :: !Replicates(run.states[i], t, v)
    ensures PastDraft(run.states[j], v) && run.states[j].versions[v].content == run.states[i].versions[v].content
  {
    RunInv(run, i);
    var rest := Run(run.states[i..], run.steps[i..]);
    forall k | 0 <= k < |rest.steps| ensures Next(rest.states[k], rest.steps[k], rest.states[k + 1]) {
      assert run.steps[i + k] == rest.steps[k];
    }
    hide Inv, Next, Replicates, Landed;
    NoChangeComes(rest, run.states[i], j - i, v);
  }

  /** Publication waits for the clone jobs: past draft, every job of the version is completed. */
  lemma PublishedHasNoOpenJob(run: Run<State, Step>, n: nat, v: VersionId, j: JobId)
    requires IsRun(run) && n < |run.states| && v in run.states[n].versions && run.states[n].versions[v].status != Draft
    requires j in run.states[n].jobs && run.states[n].jobs[j].target == v
    ensures run.states[n].jobs[j].status == Completed
  {
    RunInv(run, n);
  }

  /** A completed job is never claimed, requeued or applied again. */
  lemma {:induction false} CompletedForever(run: Run<State, Step>, i: nat, n: nat, j: JobId)
    requires IsRun(run) && i <= n < |run.states| && j in run.states[i].jobs && run.states[i].jobs[j].status == Completed
    ensures j in run.states[n].jobs && run.states[n].jobs[j] == run.states[i].jobs[j]
  {
    if i < n {
      hide Inv, Next;
      CompletedForever(run, i, n - 1, j);
      RunInv(run, n - 1);
      assert Next(run.states[n - 1], run.steps[n - 1], run.states[n]);
      CompletedStays(run.states[n - 1], run.steps[n - 1], run.states[n], j);
    }
  }

  lemma CompletedStays(s: State, step: Step, s': State, j: JobId)
    requires Inv(s) && Next(s, step, s') && j in s.jobs && s.jobs[j].status == Completed
    ensures j in s'.jobs && s'.jobs[j] == s.jobs[j]
  {
    if step.CommitClone? { assert TxInv(s, s.txs[step.tx]); }
    hide Inv;
  }

  /** A version with one lesson, alone in the store, next to the given transactions. */
  ghost function OneLesson(status: Status, lesson: Lesson, txs: map<TxId, Tx>): State {
    State(map[0 := Version(status, Content(map[0 := lesson], None, 0))], map[], txs)
  }

  lemma RaceOpens(before: Lesson, writes: map<VersionId, map<LessonId, Lesson>>) returns (run: Run<State, Step>)
    requires writes.Keys == {0} && writes[0].Keys == {0}
    ensures Leads(Next, run, State(map[], map[], map[]), OneLesson(Draft, before, map[7 := Replicating(writes), 8 := Publishing(0, false)]))
  {
    var s0 := State(map[], map[], map[]);
    var s1 := OneLesson(Draft, before, map[]);
    var s2 := OneLesson(Draft, before, map[7 := Replicating(writes)]);
    var s3 := OneLesson(Draft, before, map[7 := Replicating(writes), 8 := Publishing(0, false)]);
    var create := CreateDraft(0, s1.versions[0].content, {});
    assert Next(s0, create, s1);
    RaceReplicates(before, writes);
    hide Next, OneLesson;
    run := Run([s0, s1, s2, s3], [create, Replicate(7, writes), BeginPublish(8, 0)]);
  }

  lemma RaceReplicates(before: Lesson, writes: map<VersionId, map<LessonId, Lesson>>)
    requires writes.Keys == {0} && writes[0].Keys == {0}
    ensures Next(OneLesson(Draft, before, map[]), Replicate(7, writes), OneLesson(Draft, before, map[7 := Replicating(writes)]))
    ensures Next(OneLesson(Draft, before, map[7 := Replicating(writes)]), BeginPublish(8, 0),
                 OneLesson(Draft, before, map[7 := Replicating(writes), 8 := Publishing(0, false)]))
  {
  }

  lemma RacePublishes(before: Lesson, writes: map<VersionId, map<LessonId, Lesson>>, s0: State, race: Run<State, Step>)
    returns (run: Run<State, Step>)
    requires Leads(Next, race, s0, OneLesson(Draft, before, map[7 := Replicating(writes), 8 := Publishing(0, false)]))
    ensures Leads(Next, run, s0, OneLesson(Published, before, map[7 := Replicating(writes)]))
  {
    var s3 := OneLesson(Draft, before, map[7 := Replicating(writes), 8 := Publishing(0, false)]);
    var s4 := OneLesson(Draft, before, map[7 := Replicating(writes), 8 := Publishing(0, true)]);
    var s5 := OneLesson(Published, before, map[7 := Replicating(writes)]);
    ExtendLeads(Next, race, s0, s3, LockJobs(8), s4);
    run := Extend(race, LockJobs(8), s4);
    assert s4.txs - {8} == s5.txs;
    ExtendLeads(Next, run, s0, s4, CommitPublish(8), s5);
    run := Extend(run, CommitPublish(8), s5);
  }

  /**
   * The race is real: the replication statement runs on a draft, the draft is published,
   * and only then the replication commits. The published lesson changes.
   */
  lemma LateReplicationHappens(before: Lesson, after: Lesson) returns (run: Run<State, Step>, n: nat)
    requires before != after
    ensures IsRun(run) && n < |run.steps|
    ensures run.states[n].versions == map[0 := Version(Published, Content(map[0 := before], None, 0))]
    ensures run.states[n + 1].versions == map[0 := Version(Published, Content(map[0 := after], None, 0))]
  {
    var s0, writes := State(map[], map[], map[]), map[0 := map[0 := after]];
    var race := RaceOpens(before, writes);
    race := RacePublishes(before, writes, s0, race);
    var s5, s6 := OneLesson(Published, before, map[7 := Replicating(writes)]), OneLesson(Published, after, map[]);
    RaceLands(before, after, writes);
    ExtendLeads(Next, race, s0, s5, CommitReplicate(7), s6);
    run, n := Extend(race, CommitReplicate(7), s6), |race.steps|;
  }

  lemma RaceLands(before: Lesson, after: Lesson, writes: map<VersionId, map<LessonId, Lesson>>)
    requires writes == map[0 := map[0 := after]]
    ensures Next(OneLesson(Published, before, map[7 := Replicating(writes)]), CommitReplicate(7), OneLesson(Published, after, map[]))
  {
    var s5, s6 := OneLesson(Published, before, map[7 := Replicating(writes)]), OneLesson(Published, after, map[]);
    assert s5.versions[0].content.lessons + writes[0] == s6.versions[0].content.lessons;
    assert Replicated(s5.versions, writes) == s6.versions;
    assert s5.txs - {7} == s6.txs;
  }

  /** Minutes until a failed clone job is tried again. */
  function RetryDelay(attempts: nat): nat { Pow2(Min(attempts, 8)) }

  lemma RetryDelayBounds(m: nat, n: nat)
    requires m <= n
    ensures 1 <= RetryDelay(m) <= RetryDelay(n) <= 256
    ensures RetryDelay(0) == 1 && (m < 8 ==> RetryDelay(m + 1) == 2 * RetryDelay(m)) && (m >= 8 ==> RetryDelay(m) == 256)
  {
    Pow2Monotone(Min(m, 8), Min(n, 8));
    Pow2Monotone(Min(n, 8), 8);
    assert Pow2(4) == 16;
    assert Pow2(8) == 256;
  }
}

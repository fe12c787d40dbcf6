/** The clone worker: applying a finished copy of files to its target version, and the publication gate. */
module CloneJobs {
  import opened Prelude
  import opened RichText
  import opened Normalize
  import opened Documents
  import opened Runs
  import V = Versions

  type LessonId = V.LessonId

  /** A job row with its items: the clone of each source file once it is recorded. */
  datatype JobRow = JobRow(status: V.JobStatus, items: map<string, Option<string>>)

  /** Does rewriting this version need it to be a draft? */
  predicate TouchesCover(version: V.Version, m: map<string, string>) {
    version.content.cover.Some? && version.content.cover.value in m
  }

  predicate LessonApplies(net: Net, status: V.Status, lesson: Lesson, m: map<string, string>) {
    Touched(lesson.fileIds, m) ==> status == V.Draft && Validate(net, lesson.content)
  }

  predicate ItemApplies(job: JobRow, source: string, m: map<string, string>)
    requires source in job.items
  {
    source in m && (job.items[source].None? || job.items[source] == Some(m[source]))
  }

  /**
   * Exactly the situations in which the whole application goes through: the job runs, a
   * version past draft has nothing to rewrite, what is rewritten is valid, and every item
   * has a clone and none recorded that differs.
   */
  ghost predicate Applicable(net: Net, version: V.Version, job: JobRow, m: map<string, string>) {
    var content := version.content;
    && job.status == V.Running
    && (content.cover.Some? && content.cover.value in m ==> version.status == V.Draft)
    && (forall l, i :: l in content.lessons && 0 <= i < |content.lessons[l].fileIds| && content.lessons[l].fileIds[i] in m ==>
          version.status == V.Draft && Validate(net, content.lessons[l].content))
    && forall source :: source in job.items ==> source in m && (job.items[source] == None || job.items[source] == Some(m[source]))
  }

  lemma ApplicableStepwise(net: Net, version: V.Version, job: JobRow, m: map<string, string>)
    ensures Applicable(net, version, job, m) <==>
      && (TouchesCover(version, m) ==> version.status == V.Draft)
      && (forall l :: l in version.content.lessons ==> LessonApplies(net, version.status, version.content.lessons[l], m))
      && (forall source :: source in job.items ==> ItemApplies(job, source, m))
      && job.status == V.Running
  {
    hide Validate;
    forall l | l in version.content.lessons
      ensures LessonApplies(net, version.status, version.content.lessons[l], m) <==>
        forall i :: 0 <= i < |version.content.lessons[l].fileIds| && version.content.lessons[l].fileIds[i] in m ==>
          version.status == V.Draft && Validate(net, version.content.lessons[l].content)
    {
      TouchedAt(version.content.lessons[l].fileIds, m);
    }
    hide LessonApplies;
  }

  lemma TouchedAt(ids: seq<string>, m: map<string, string>)
    ensures Touched(ids, m) <==> exists i :: 0 <= i < |ids| && ids[i] in m
  {
    if id :| id in ids && id in m { var i :| 0 <= i < |ids| && ids[i] == id; }
    if i :| 0 <= i < |ids| && ids[i] in m { assert ids[i] in ids; }
  }

  function AppliedLesson(lesson: Lesson, m: map<string, string>): Lesson {
    if Touched(lesson.fileIds, m) then Lesson(MappedIds(lesson.fileIds, m), Rename(lesson.content, Subst(m))) else lesson
  }

  function AppliedContent(content: V.Content, m: map<string, string>): V.Content {
    V.Content(
      map l | l in content.lessons :: AppliedLesson(content.lessons[l], m),
      if content.cover.Some? && content.cover.value in m then Some(m[content.cover.value]) else content.cover,
      content.outline)
  }

  /**
   * What an application leaves, field by field: the cover and each listed file id is its
   * clone if it has one and stays otherwise; a tree is rewritten with its list; the lessons
   * are the same ones and nothing else of the version moves.
   */
  ghost predicate Cloned(net: Net, before: V.Content, after: V.Content, m: map<string, string>) {
    && after.outline == before.outline && after.lessons.Keys == before.lessons.Keys
    && after.cover == (if before.cover.Some? && before.cover.value in m then Some(m[before.cover.value]) else before.cover)
    && forall l :: l in before.lessons ==> ClonedLesson(net, before.lessons[l], after.lessons[l], m)
  }

  ghost predicate ClonedLesson(net: Net, before: Lesson, after: Lesson, m: map<string, string>) {
    && |after.fileIds| == |before.fileIds|
    && (forall i :: 0 <= i < |before.fileIds| ==> after.fileIds[i] == if before.fileIds[i] in m then m[before.fileIds[i]] else before.fileIds[i])
    && if exists i :: 0 <= i < |before.fileIds| && before.fileIds[i] in m then ReplaceFileIDs(net, before.content, m) == Ok(after.content)
       else after.content == before.content
  }

  lemma AppliedFields(content: V.Content, m: map<string, string>)
    ensures AppliedContent(content, m).outline == content.outline
    ensures AppliedContent(content, m).cover == if content.cover.Some? && content.cover.value in m then Some(m[content.cover.value]) else content.cover
  {
  }

  lemma AppliedIsCloned(net: Net, status: V.Status, content: V.Content, m: map<string, string>)
    requires forall l :: l in content.lessons ==> LessonApplies(net, status, content.lessons[l], m)
    ensures Cloned(net, content, AppliedContent(content, m), m)
  {
    forall l | l in content.lessons ensures ClonedLesson(net, content.lessons[l], AppliedContent(content, m).lessons[l], m) {
      AppliedLessonIsCloned(net, status, content.lessons[l], m);
    }
    hide ClonedLesson;
  }

  lemma AppliedLessonIsCloned(net: Net, status: V.Status, lesson: Lesson, m: map<string, string>)
    requires LessonApplies(net, status, lesson, m)
    ensures ClonedLesson(net, lesson, AppliedLesson(lesson, m), m)
  {
    hide Validate, Rename;
    if Touched(lesson.fileIds, m) {
      var id :| id in lesson.fileIds && id in m;
      var i :| 0 <= i < |lesson.fileIds| && lesson.fileIds[i] == id;
    } else {
      assert forall i :: 0 <= i < |lesson.fileIds| ==> lesson.fileIds[i] in lesson.fileIds && lesson.fileIds[i] !in m;
    }
  }

  /** A listing query returns each key once. */
  ghost predicate Lists<K(!new)>(listing: seq<K>, keys: set<K>) {
    && (forall k :: k in listing <==> k in keys)
    && forall i, j :: 0 <= i < j < |listing| ==> listing[i] != listing[j]
  }

  /** One lesson: skip it, or rewrite it and insist on one affected draft row. */
  method ApplyToLesson(net: Net, status: V.Status, lesson: Lesson, m: map<string, string>) returns (ok: bool, out: Lesson)
    ensures ok <==> LessonApplies(net, status, lesson, m)
    ensures ok ==> out == AppliedLesson(lesson, m)
  {
    var rewritten := RewriteOneLesson(net, lesson, m);
    if rewritten.Err? { return false, lesson; }
    var affected := if status == V.Draft then 1 else 0;
    if rewritten.value != lesson || Touched(lesson.fileIds, m) {
      if affected != 1 { return false, lesson; }
    }
    return true, rewritten.value;
  }

  class Store {
    var version: V.Version
    var job: JobRow

    constructor (version: V.Version, job: JobRow)
      ensures this.version == version && this.job == job
    {
      this.version, this.job := version, job;
    }

    /** The store as part of a whole state: version v and job j are the store's, the rest is given. */
    ghost function View(s: V.State, v: V.VersionId, j: V.JobId): V.State
      requires j in s.jobs
      reads this
    {
      s.(versions := s.versions[v := version], jobs := s.jobs[j := s.jobs[j].(status := job.status)])
    }

    /**
     * The loop over the lessons; false at the first rewrite that does not hit exactly one
     * draft row. Each rewrite is a step of the worker's transaction t.
     */
    method RewriteLessons(net: Net, m: map<string, string>, listing: seq<LessonId>, ghost cover: Option<string>,
                          ghost s: V.State, ghost v: V.VersionId, ghost j: V.JobId, ghost t: V.TxId, ghost run0: Run<V.State, V.Step>)
      returns (ok: bool, lessons: map<LessonId, Lesson>, ghost writes: map<LessonId, Lesson>, ghost run: Run<V.State, V.Step>)
      requires Lists(listing, version.content.lessons.Keys) && j in s.jobs && s.jobs[j].target == v
      requires Leads(V.Next, run0, View(s, v, j), V.SetTx(View(s, v, j), t, V.Cloning(j, map[], cover, false)))
      ensures ok <==> forall l :: l in version.content.lessons ==> LessonApplies(net, version.status, version.content.lessons[l], m)
      ensures ok ==> lessons == AppliedContent(version.content, m).lessons == version.content.lessons + writes
      ensures Leads(V.Next, run, View(s, v, j), V.SetTx(View(s, v, j), t, V.Cloning(j, writes, cover, false)))
    {
      hide Applied, Validate, AppliedLesson, Leads, Touched, V.Next;
      lessons, writes, run := version.content.lessons, map[], run0;
      ghost var base := View(s, v, j);
      AppliedNone(net, version, m, listing);
      for i := 0 to |listing|
        invariant Applied(net, version, m, listing, i, lessons, writes)
        invariant Leads(V.Next, run, base, V.SetTx(base, t, V.Cloning(j, writes, cover, false)))
      {
        var l := listing[i];
        AppliedAt(net, version, m, listing, i, lessons, writes);
        var applies, rewritten := ApplyToLesson(net, version.status, lessons[l], m);
        if !applies { return false, lessons, writes, run; }
        AppliedStep(net, version, m, listing, i, lessons, writes);
        if Touched(lessons[l].fileIds, m) {
          run := RewriteStep(base, t, j, v, writes, cover, l, rewritten, run);
          writes := writes[l := rewritten];
          lessons := lessons[l := rewritten];
        }
      }
      AppliedAll(net, version, m, listing, lessons, writes);
      ok := true;
    }

    /** The loop over the job's items. */
    method RecordItems(m: map<string, string>, listing: seq<string>)
      returns (ok: bool, items: map<string, Option<string>>)
      requires Lists(listing, job.items.Keys)
      ensures ok <==> forall source :: source in job.items ==> ItemApplies(job, source, m)
      ensures ok ==> items == map source | source in job.items :: Some(m[source])
    {
      items := job.items;
      for i := 0 to |listing|
        invariant items.Keys == job.items.Keys
        invariant forall k :: 0 <= k < i ==> ItemApplies(job, listing[k], m) && items[listing[k]] == Some(m[listing[k]])
        invariant forall k :: i <= k < |listing| ==> items[listing[k]] == job.items[listing[k]]
      {
        var source := listing[i];
        if source !in m || (items[source].Some? && items[source].value != m[source]) {
          assert !ItemApplies(job, source, m);
          return false, items;
        }
        items := items[source := Some(m[source])];
      }
      ok := true;
      assert forall source :: source in job.items ==> source in listing;
    }

    /**
     * applyClonedFiles in one transaction: cover, lessons, items, job, commit. It either
     * applies the mapping everywhere and completes the job, or leaves no trace; it goes
     * through exactly when the state calls for nothing but draft rewrites; and it is a path
     * of the protocol of versions, next to any other transactions that do not hold the job.
     */
    method ApplyClonedFiles(net: Net, m: map<string, string>, lessonList: seq<LessonId>, itemList: seq<string>, commits: bool,
                            ghost s: V.State, ghost v: V.VersionId, ghost j: V.JobId, ghost t: V.TxId)
      returns (ok: bool, ghost run: Run<V.State, V.Step>)
      requires Lists(lessonList, version.content.lessons.Keys) && Lists(itemList, job.items.Keys)
      requires j in s.jobs && s.jobs[j].target == v && t !in s.txs && V.JobFree(s, j)
      modifies this
      ensures ok <==> commits && old(Applicable(net, version, job, m))
      ensures ok ==> version.status == old(version).status && Cloned(net, old(version).content, version.content, m)
      ensures ok ==> version == old(version).(content := AppliedContent(old(version).content, m))
      ensures ok ==> job.status == V.Completed && job.items == map source | source in old(job).items :: Some(m[source])
      ensures !ok ==> version == old(version) && job == old(job)
      ensures ok && old(version).status != V.Draft ==> version.content == old(version).content
      ensures Leads(V.Next, run, old(View(s, v, j)), View(s, v, j))
    {
      hide V.Next, V.SetTx, Finished, Leads, LessonApplies, AppliedLesson, ItemApplies, V.JobFree, Lists, Cloned, AppliedContent;
      ApplicableStepwise(net, version, job, m);
      hide Applicable;
      ghost var base := View(s, v, j);
      run := BeginClone(base, t, j);
      var cover := version.content.cover;
      ghost var newCover := None;
      if TouchesCover(version, m) {
        if version.status != V.Draft {
          run := Abandon(base, t, j, map[], None, run);
          return false, run;
        }
        run := CoverStep(base, t, j, v, m[cover.value], run);
        cover, newCover := Some(m[cover.value]), Some(m[cover.value]);
      }
      ghost var writes;
      var rewritten, lessons;
      rewritten, lessons, writes, run := RewriteLessons(net, m, lessonList, newCover, s, v, j, t, run);
      if !rewritten {
        run := Abandon(base, t, j, writes, newCover, run);
        return false, run;
      }
      var recorded, items := RecordItems(m, itemList);
      if !recorded || job.status != V.Running || !commits {
        run := Abandon(base, t, j, writes, newCover, run);
        return false, run;
      }
      AppliedIsCloned(net, version.status, version.content, m);
      FreeInView(s, base, v, j);
      run := FinishClone(base, t, j, v, writes, newCover, run);
      if version.status != V.Draft { StaysIfNotDraft(net, version, m); }
      AppliedFields(version.content, m);
      assert version.content.(lessons := lessons, cover := cover) == AppliedContent(version.content, m);
      ViewFinished(s, base, v, j, version, version.(content := version.content.(lessons := lessons, cover := cover)), writes, newCover);
      version := version.(content := version.content.(lessons := lessons, cover := cover));
      job := JobRow(V.Completed, items);
      ok := true;
    }
  }

  /** After i lessons: each is rewritten or needs no rewrite, and `writes` are the rewritten ones. */
  ghost predicate Applied(net: Net, version: V.Version, m: map<string, string>, listing: seq<LessonId>, i: nat,
                          lessons: map<LessonId, Lesson>, writes: map<LessonId, Lesson>)
  {
    var rows := version.content.lessons;
    && i <= |listing| && Lists(listing, rows.Keys)
    && lessons.Keys == rows.Keys && writes.Keys <= lessons.Keys && lessons == rows + writes
    && (forall k :: 0 <= k < i ==> LessonApplies(net, version.status, rows[listing[k]], m))
    && (forall k :: 0 <= k < i ==> lessons[listing[k]] == AppliedLesson(rows[listing[k]], m))
    && forall k :: i <= k < |listing| ==> lessons[listing[k]] == rows[listing[k]]
  }

  lemma AppliedNone(net: Net, version: V.Version, m: map<string, string>, listing: seq<LessonId>)
    requires Lists(listing, version.content.lessons.Keys)
    ensures Applied(net, version, m, listing, 0, version.content.lessons, map[])
  {
  }

  lemma AppliedAt(net: Net, version: V.Version, m: map<string, string>, listing: seq<LessonId>, i: nat,
                  lessons: map<LessonId, Lesson>, writes: map<LessonId, Lesson>)
    requires Applied(net, version, m, listing, i, lessons, writes) && i < |listing|
    ensures listing[i] in lessons && listing[i] in version.content.lessons && lessons[listing[i]] == version.content.lessons[listing[i]]
  {
  }

  lemma AppliedStep(net: Net, version: V.Version, m: map<string, string>, listing: seq<LessonId>, i: nat,
                    lessons: map<LessonId, Lesson>, writes: map<LessonId, Lesson>)
    requires Applied(net, version, m, listing, i, lessons, writes) && i < |listing| && listing[i] in lessons
    requires LessonApplies(net, version.status, lessons[listing[i]], m)
    ensures
      var l := listing[i];
      var value := AppliedLesson(lessons[l], m);
      if Touched(lessons[l].fileIds, m) then Applied(net, version, m, listing, i + 1, lessons[l := value], writes[l := value])
      else Applied(net, version, m, listing, i + 1, lessons, writes)
  {
    var l := listing[i];
    UntouchedApplies(lessons[l], m);
    hide AppliedLesson, LessonApplies, Touched, Applied;
    AppliedAt(net, version, m, listing, i, lessons, writes);
    if Touched(lessons[l].fileIds, m) {
      WrittenStep(net, version, m, listing, i, lessons, writes, AppliedLesson(lessons[l], m));
    } else {
      SkippedStep(net, version, m, listing, i, lessons, writes);
    }
  }

  lemma SkippedStep(net: Net, version: V.Version, m: map<string, string>, listing: seq<LessonId>, i: nat,
                    lessons: map<LessonId, Lesson>, writes: map<LessonId, Lesson>)
    requires Applied(net, version, m, listing, i, lessons, writes) && i < |listing| && listing[i] in version.content.lessons
    requires LessonApplies(net, version.status, version.content.lessons[listing[i]], m)
    requires AppliedLesson(version.content.lessons[listing[i]], m) == version.content.lessons[listing[i]]
    ensures Applied(net, version, m, listing, i + 1, lessons, writes)
  {
    hide AppliedLesson, LessonApplies;
  }

  lemma WrittenStep(net: Net, version: V.Version, m: map<string, string>, listing: seq<LessonId>, i: nat,
                    lessons: map<LessonId, Lesson>, writes: map<LessonId, Lesson>, value: Lesson)
    requires Applied(net, version, m, listing, i, lessons, writes) && i < |listing| && listing[i] in version.content.lessons
    requires LessonApplies(net, version.status, version.content.lessons[listing[i]], m)
    requires value == AppliedLesson(version.content.lessons[listing[i]], m)
    ensures Applied(net, version, m, listing, i + 1, lessons[listing[i] := value], writes[listing[i] := value])
  {
    hide AppliedLesson, LessonApplies;
    var l, rows := listing[i], version.content.lessons;
    var lessons', writes' := lessons[l := value], writes[l := value];
    assert lessons' == rows + writes';
    assert forall k :: 0 <= k < |listing| && k != i ==> listing[k] != l;
  }

  lemma AppliedAll(net: Net, version: V.Version, m: map<string, string>, listing: seq<LessonId>,
                   lessons: map<LessonId, Lesson>, writes: map<LessonId, Lesson>)
    requires Applied(net, version, m, listing, |listing|, lessons, writes)
    ensures lessons == AppliedContent(version.content, m).lessons == version.content.lessons + writes
    ensures forall l :: l in version.content.lessons ==> LessonApplies(net, version.status, version.content.lessons[l], m)
  {
    hide AppliedLesson, LessonApplies;
    assert forall l :: l in version.content.lessons ==> l in listing;
  }

  lemma UntouchedApplies(lesson: Lesson, m: map<string, string>)
    ensures !Touched(lesson.fileIds, m) ==> AppliedLesson(lesson, m) == lesson
  {
  }

  lemma StaysIfNotDraft(net: Net, version: V.Version, m: map<string, string>)
    requires version.status != V.Draft && !TouchesCover(version, m)
    requires forall l :: l in version.content.lessons ==> LessonApplies(net, version.status, version.content.lessons[l], m)
    ensures AppliedContent(version.content, m) == version.content
  {
    assert AppliedContent(version.content, m).lessons == version.content.lessons;
  }

  // ----- the worker's transaction, step by step -----

  lemma BeginClone(s: V.State, t: V.TxId, j: V.JobId) returns (run: Run<V.State, V.Step>)
    requires t !in s.txs && j in s.jobs
    ensures Leads(V.Next, run, s, V.SetTx(s, t, V.Cloning(j, map[], None, false)))
  {
    var s' := V.SetTx(s, t, V.Cloning(j, map[], None, false));
    assert V.Next(s, V.BeginClone(t, j), s');
    run := Run([s, s'], [V.BeginClone(t, j)]);
  }

  lemma CoverStep(s: V.State, t: V.TxId, j: V.JobId, v: V.VersionId, cover: string, run: Run<V.State, V.Step>)
    returns (run': Run<V.State, V.Step>)
    requires j in s.jobs && s.jobs[j].target == v && V.IsDraft(s, v)
    requires Leads(V.Next, run, s, V.SetTx(s, t, V.Cloning(j, map[], None, false)))
    ensures Leads(V.Next, run', s, V.SetTx(s, t, V.Cloning(j, map[], Some(cover), false)))
  {
    var mid, s' := V.SetTx(s, t, V.Cloning(j, map[], None, false)), V.SetTx(s, t, V.Cloning(j, map[], Some(cover), false));
    var step := V.RewriteCover(t, cover);
    assert V.Next(mid, step, s');
    hide V.Next, Leads, Extend;
    ExtendLeads(V.Next, run, s, mid, step, s');
    run' := Extend(run, step, s');
  }

  lemma RewriteStep(s: V.State, t: V.TxId, j: V.JobId, v: V.VersionId, writes: map<LessonId, Lesson>, cover: Option<string>,
                    l: LessonId, value: Lesson, run: Run<V.State, V.Step>)
    returns (run': Run<V.State, V.Step>)
    requires j in s.jobs && s.jobs[j].target == v && V.IsDraft(s, v) && l in s.versions[v].content.lessons
    requires Leads(V.Next, run, s, V.SetTx(s, t, V.Cloning(j, writes, cover, false)))
    ensures Leads(V.Next, run', s, V.SetTx(s, t, V.Cloning(j, writes[l := value], cover, false)))
  {
    var mid, s' := V.SetTx(s, t, V.Cloning(j, writes, cover, false)), V.SetTx(s, t, V.Cloning(j, writes[l := value], cover, false));
    var step := V.RewriteLesson(t, l, value);
    assert V.Next(mid, step, s');
    hide V.Next, Leads, Extend;
    ExtendLeads(V.Next, run, s, mid, step, s');
    run' := Extend(run, step, s');
  }

  /** Every error return leaves the rollback to the deferred call. */
  lemma Abandon(s: V.State, t: V.TxId, j: V.JobId, writes: map<LessonId, Lesson>, cover: Option<string>, run: Run<V.State, V.Step>)
    returns (run': Run<V.State, V.Step>)
    requires t !in s.txs && Leads(V.Next, run, s, V.SetTx(s, t, V.Cloning(j, writes, cover, false)))
    ensures Leads(V.Next, run', s, s)
  {
    var mid := V.SetTx(s, t, V.Cloning(j, writes, cover, false));
    assert mid.txs - {t} == s.txs;
    assert V.Next(mid, V.Rollback(t), s);
    hide V.Next, Leads, Extend;
    ExtendLeads(V.Next, run, s, mid, V.Rollback(t), s);
    run' := Extend(run, V.Rollback(t), s);
  }

  function Finished(s: V.State, j: V.JobId, v: V.VersionId, writes: map<LessonId, Lesson>, cover: Option<string>): V.State
    requires j in s.jobs && v in s.versions
  {
    V.SetJob(s, j, V.Completed)
      .(versions := s.versions[v := s.versions[v].(content := V.Rewritten(s.versions[v].content, writes, cover))])
  }

  lemma ViewFinished(s: V.State, base: V.State, v: V.VersionId, j: V.JobId, version: V.Version, version': V.Version,
                     writes: map<LessonId, Lesson>, cover: Option<string>)
    requires j in s.jobs && base == s.(versions := s.versions[v := version], jobs := s.jobs[j := s.jobs[j].(status := V.Running)])
    requires version' == version.(content := V.Rewritten(version.content, writes, cover))
    ensures Finished(base, j, v, writes, cover)
         == s.(versions := s.versions[v := version'], jobs := s.jobs[j := s.jobs[j].(status := V.Completed)])
  {
    assert base.versions[v := version'] == s.versions[v := version'];
    assert base.jobs[j := base.jobs[j].(status := V.Completed)] == s.jobs[j := s.jobs[j].(status := V.Completed)];
  }

  lemma FinishClone(s: V.State, t: V.TxId, j: V.JobId, v: V.VersionId, writes: map<LessonId, Lesson>, cover: Option<string>,
                    run: Run<V.State, V.Step>)
    returns (run': Run<V.State, V.Step>)
    requires t !in s.txs && j in s.jobs && s.jobs[j].target == v && v in s.versions && s.jobs[j].status == V.Running && V.JobFree(s, j)
    requires Leads(V.Next, run, s, V.SetTx(s, t, V.Cloning(j, writes, cover, false)))
    ensures Leads(V.Next, run', s, Finished(s, j, v, writes, cover))
  {
    var a := V.SetTx(s, t, V.Cloning(j, writes, cover, false));
    var b := V.SetTx(s, t, V.Cloning(j, writes, cover, true));
    var end := Finished(s, j, v, writes, cover);
    CompletesAndCommits(s, t, j, v, writes, cover);
    hide V.Next, Leads, Extend;
    ExtendLeads(V.Next, run, s, a, V.CompleteJob(t), b);
    run' := Extend(run, V.CompleteJob(t), b);
    ExtendLeads(V.Next, run', s, b, V.CommitClone(t), end);
    run' := Extend(run', V.CommitClone(t), end);
  }

  lemma CompletesAndCommits(s: V.State, t: V.TxId, j: V.JobId, v: V.VersionId, writes: map<LessonId, Lesson>, cover: Option<string>)
    requires t !in s.txs && j in s.jobs && s.jobs[j].target == v && v in s.versions && s.jobs[j].status == V.Running && V.JobFree(s, j)
    ensures
      var a, b := V.SetTx(s, t, V.Cloning(j, writes, cover, false)), V.SetTx(s, t, V.Cloning(j, writes, cover, true));
      V.Next(a, V.CompleteJob(t), b) && V.Next(b, V.CommitClone(t), Finished(s, j, v, writes, cover))
  {
    var a, b := V.SetTx(s, t, V.Cloning(j, writes, cover, false)), V.SetTx(s, t, V.Cloning(j, writes, cover, true));
    assert b.txs - {t} == s.txs && a.txs[t := b.txs[t]] == b.txs;
    assert V.JobFree(a, j) by {
      forall u | u in a.txs ensures !V.LocksJob(a, a.txs[u], j) {
        if u != t { assert !V.LocksJob(s, s.txs[u], j); }
      }
    }
  }

  lemma FreeInView(s: V.State, base: V.State, v: V.VersionId, j: V.JobId)
    requires j in s.jobs && j in base.jobs && base.txs == s.txs && base.jobs[j].target == s.jobs[j].target && V.JobFree(s, j)
    ensures V.JobFree(base, j)
  {
    forall u | u in base.txs ensures !V.LocksJob(base, base.txs[u], j) { assert !V.LocksJob(s, s.txs[u], j); }
  }

  /** requireCompletedFileCloneJobs: the loop that gates publication. */
  method RequireCompleted(statuses: seq<V.JobStatus>) returns (ok: bool)
    ensures ok <==> forall s :: s in statuses ==> s == V.Completed
  {
    for i := 0 to |statuses|
      invariant forall k :: 0 <= k < i ==> statuses[k] == V.Completed
    {
      if statuses[i] != V.Completed {
        assert statuses[i] in statuses;
        return false;
      }
    }
    ok := true;
  }

  ghost predicate AgreesEverywhere(net: Net, content: V.Content) {
    forall l :: l in content.lessons ==> Agrees(net, content.lessons[l])
  }

  /** The worker keeps list and tree of every lesson in agreement, and a second run is a no-op. */
  lemma ApplyKeepsAgreement(net: Net, content: V.Content, m: map<string, string>)
    requires AgreesEverywhere(net, content) && CanonicalMap(m)
    ensures AgreesEverywhere(net, AppliedContent(content, m))
    ensures m.Keys !! m.Values ==> AppliedContent(AppliedContent(content, m), m) == AppliedContent(content, m)
  {
    hide Agrees, AppliedLesson, CanonicalMap;
    forall l | l in content.lessons
      ensures Agrees(net, AppliedLesson(content.lessons[l], m))
      ensures m.Keys !! m.Values ==> AppliedLesson(AppliedLesson(content.lessons[l], m), m) == AppliedLesson(content.lessons[l], m)
    {
      AppliedLessonAgrees(net, content.lessons[l], m);
    }
    if content.cover.Some? && content.cover.value in m { assert m[content.cover.value] in m.Values; }
    if m.Keys !! m.Values {
      assert AppliedContent(AppliedContent(content, m), m).lessons == AppliedContent(content, m).lessons;
    }
  }

  lemma AppliedLessonAgrees(net: Net, lesson: Lesson, m: map<string, string>)
    requires Agrees(net, lesson) && CanonicalMap(m)
    ensures Agrees(net, AppliedLesson(lesson, m))
    ensures m.Keys !! m.Values ==> AppliedLesson(AppliedLesson(lesson, m), m) == AppliedLesson(lesson, m)
  {
    CloneKeepsAgreement(net, lesson, m);
    if m.Keys !! m.Values { CloneTwiceIsCloneOnce(net, lesson, m); }
  }

  /** With clones that are no sources, no source id is left anywhere: not as cover, not in a list, not in a tree. */
  lemma NoSourceLeft(net: Net, content: V.Content, m: map<string, string>)
    requires AgreesEverywhere(net, content) && CanonicalMap(m) && m.Keys !! m.Values
    ensures
      var after := AppliedContent(content, m);
      && (after.cover.Some? ==> after.cover.value !in m.Keys)
      && forall l :: l in after.lessons ==>
        (forall i :: 0 <= i < |after.lessons[l].fileIds| ==> after.lessons[l].fileIds[i] !in m.Keys) && FileIDs(after.lessons[l].content) !! m.Keys
  {
    var after := AppliedContent(content, m);
    if content.cover.Some? && content.cover.value in m { assert m[content.cover.value] in m.Values; }
    forall l | l in after.lessons
      ensures (forall i :: 0 <= i < |after.lessons[l].fileIds| ==> after.lessons[l].fileIds[i] !in m.Keys) && FileIDs(after.lessons[l].content) !! m.Keys
    {
      NoSourceInLesson(net, content.lessons[l], m);
    }
  }

  lemma NoSourceInLesson(net: Net, lesson: Lesson, m: map<string, string>)
    requires Agrees(net, lesson) && CanonicalMap(m) && m.Keys !! m.Values
    ensures
      var after := AppliedLesson(lesson, m);
      (forall i :: 0 <= i < |after.fileIds| ==> after.fileIds[i] !in m.Keys) && FileIDs(after.content) !! m.Keys
  {
    AppliedLessonAgrees(net, lesson, m);
    var after := AppliedLesson(lesson, m);
    assert Elements(after.fileIds) == FileIDs(after.content);
    hide Validate, Rename, FileIDs, CanonicalMap;
    forall i | 0 <= i < |after.fileIds| ensures after.fileIds[i] !in m.Keys {
      assert lesson.fileIds[i] in lesson.fileIds;
      if lesson.fileIds[i] in m { assert m[lesson.fileIds[i]] in m.Values; }
    }
  }
}

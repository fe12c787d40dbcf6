/**
 * Projecting a company's legacy progress and assignments onto enrollments.
 *
 * Tables are sequences of rows, so that a join or a filter that yielded a row twice would
 * show; `Schema` holds the keys the queries rely on. The company has no enrollments yet.
 */
module LegacyProjection {
  import opened Prelude

  type CourseId = nat
  type UserId = nat
  type VersionId = nat
  type LessonId = nat
  type AssignmentId = nat
  type Time = int

  datatype LegacyStatus = NotStarted | InProgress | Completed | Overdue
  datatype Assignee = ToUser | ToPosition | ToDepartment | ToExternal

  datatype Progress = Progress(course: CourseId, user: UserId, status: LegacyStatus, completed: seq<LessonId>,
                               started: Option<Time>, completedAt: Option<Time>)
  datatype Version = Version(id: VersionId, course: CourseId, number: nat, sequential: bool, created: Time)
  datatype Assignment = Assignment(id: AssignmentId, course: CourseId, version: VersionId, kind: Assignee,
                                   members: seq<UserId>, created: Time)
  datatype Lesson = Lesson(id: LessonId, version: VersionId, sectionOrder: int, order: int)

  datatype Legacy = Legacy(progress: seq<Progress>, versions: seq<Version>, assignments: seq<Assignment>, lessons: seq<Lesson>)

  ghost predicate Schema(db: Legacy) {
    && (forall i, j :: 0 <= i < j < |db.progress| ==>
          db.progress[i].course != db.progress[j].course || db.progress[i].user != db.progress[j].user)
    && (forall i, j :: 0 <= i < j < |db.versions| ==> db.versions[i].id != db.versions[j].id)
    && (forall i, j :: 0 <= i < j < |db.versions| ==>
          db.versions[i].course != db.versions[j].course || db.versions[i].number != db.versions[j].number)
    && (forall i, j :: 0 <= i < j < |db.assignments| ==> db.assignments[i].id != db.assignments[j].id)
    && (forall i, j :: 0 <= i < j < |db.lessons| ==> db.lessons[i].id != db.lessons[j].id)
  }

  datatype Stage = NotBegun | Underway | Finished
  datatype Access = Ready | Active

  /** `source` is the assignment behind the enrollment; None stands for source type "legacy". */
  datatype Enrollment = Enrollment(course: CourseId, user: UserId, version: VersionId, source: Option<AssignmentId>,
                                   stage: Stage, access: Access, current: Option<LessonId>, started: Option<Time>,
                                   completedAt: Option<Time>, lastActivity: Option<Time>, created: Time, updated: Time)

  // ----- ORDER BY ... LIMIT 1 -----

  predicate Earlier(a: Assignment, b: Assignment) { a.created < b.created || (a.created == b.created && a.id < b.id) }

  /** The assignment resolves to this user, and is not an external one. */
  predicate Reaches(a: Assignment, course: CourseId, user: UserId) {
    a.course == course && user in a.members && a.kind != ToExternal
  }

  function Earliest(assignments: seq<Assignment>, course: CourseId, user: UserId): Option<Assignment> {
    if assignments == [] then None
    else
      var last := assignments[|assignments| - 1];
      var best := Earliest(assignments[..|assignments| - 1], course, user);
      if Reaches(last, course, user) && (best.None? || Earlier(last, best.value)) then Some(last) else best
  }

  lemma {:induction false} EarliestIs(assignments: seq<Assignment>, course: CourseId, user: UserId)
    ensures Earliest(assignments, course, user).None? ==> forall a :: a in assignments ==> !Reaches(a, course, user)
    ensures Earliest(assignments, course, user).Some? ==>
      var best := Earliest(assignments, course, user).value;
      && best in assignments && Reaches(best, course, user)
      && forall a :: a in assignments && Reaches(a, course, user) ==> !Earlier(a, best)
  {
    if assignments != [] {
      var rest, last := assignments[..|assignments| - 1], assignments[|assignments| - 1];
      assert assignments == rest + [last];
      EarliestIs(rest, course, user);
    }
  }

  /** The order in which a version is walked: section, position in it, id. */
  predicate Precedes(a: Lesson, b: Lesson) {
    a.sectionOrder < b.sectionOrder
    || (a.sectionOrder == b.sectionOrder && (a.order < b.order || (a.order == b.order && a.id < b.id)))
  }

  predicate Open(l: Lesson, version: VersionId, done: seq<LessonId>) { l.version == version && l.id !in done }

  /** The first lesson of the version that is not done. */
  function NextLesson(lessons: seq<Lesson>, version: VersionId, done: seq<LessonId>): Option<Lesson> {
    if lessons == [] then None
    else
      var last := lessons[|lessons| - 1];
      var best := NextLesson(lessons[..|lessons| - 1], version, done);
      if Open(last, version, done) && (best.None? || Precedes(last, best.value)) then Some(last) else best
  }

  lemma {:induction false} NextLessonIs(lessons: seq<Lesson>, version: VersionId, done: seq<LessonId>)
    ensures NextLesson(lessons, version, done).None? <==> forall l :: l in lessons ==> !Open(l, version, done)
    ensures NextLesson(lessons, version, done).Some? ==>
      var next := NextLesson(lessons, version, done).value;
      && next in lessons && Open(next, version, done)
      && forall l :: l in lessons && Open(l, version, done) ==> !Precedes(l, next)
  {
    if lessons != [] {
      var rest, last := lessons[..|lessons| - 1], lessons[|lessons| - 1];
      assert lessons == rest + [last];
      NextLessonIs(rest, version, done);
    }
  }

  function IdOf(l: Option<Lesson>): Option<LessonId> { if l.Some? then Some(l.value.id) else None }

  predicate HasLessons(lessons: seq<Lesson>, version: VersionId) { exists i :: 0 <= i < |lessons| && lessons[i].version == version }

  // ----- enrollments from progress -----

  function Coalesce(a: Option<Time>, b: Option<Time>, c: Time): Time { if a.Some? then a.value else if b.Some? then b.value else c }

  predicate Untouched(p: Progress) { p.started.None? && p.completed == [] }

  function FromProgress(db: Legacy, p: Progress, v: Version): Enrollment {
    var next := NextLesson(db.lessons, v.id, p.completed);
    var source := Earliest(db.assignments, p.course, p.user);
    var finished := HasLessons(db.lessons, v.id) && next.None?;
    var last := Coalesce(p.completedAt, p.started, v.created);
    Enrollment(p.course, p.user, v.id,
               if source.Some? then Some(source.value.id) else None,
               if finished then Finished else if p.status in {InProgress, Completed} || !Untouched(p) then Underway else NotBegun,
               if p.status == NotStarted && Untouched(p) then Ready else Active,
               IdOf(next), p.started,
               if finished then Some(last) else None,
               Some(last), Coalesce(p.started, None, v.created), last)
  }

  /** JOIN course_versions ON course and number = 1. */
  function JoinVersions(db: Legacy, p: Progress, versions: seq<Version>): seq<Enrollment> {
    if versions == [] then []
    else
      var v := versions[|versions| - 1];
      JoinVersions(db, p, versions[..|versions| - 1]) + if v.course == p.course && v.number == 1 then [FromProgress(db, p, v)] else []
  }

  function ProgressEnrollments(db: Legacy, progress: seq<Progress>): seq<Enrollment> {
    if progress == [] then []
    else ProgressEnrollments(db, progress[..|progress| - 1]) + JoinVersions(db, progress[|progress| - 1], db.versions)
  }

  // ----- enrollments from assignments -----

  datatype Member = Member(assignment: Assignment, user: UserId)

  /** CROSS JOIN LATERAL unnest(resolved_user_ids). */
  function Unnest(a: Assignment): seq<Member> {
    if a.kind == ToExternal then [] else seq(|a.members|, i requires 0 <= i < |a.members| => Member(a, a.members[i]))
  }

  function Members(assignments: seq<Assignment>): seq<Member> {
    if assignments == [] then [] else Members(assignments[..|assignments| - 1]) + Unnest(assignments[|assignments| - 1])
  }

  predicate SameKey(m: Member, course: CourseId, user: UserId) { m.assignment.course == course && m.user == user }

  /** Row i comes before row j in the order of DISTINCT ON: created_at, id, position. */
  predicate Beats(rows: seq<Member>, i: int, j: int)
    requires 0 <= i < |rows| && 0 <= j < |rows|
  {
    Earlier(rows[i].assignment, rows[j].assignment) || (rows[i].assignment.created == rows[j].assignment.created && rows[i].assignment.id == rows[j].assignment.id && i < j)
  }

  /** Row i is the one DISTINCT ON keeps of its key. */
  predicate Keeps(rows: seq<Member>, i: nat)
    requires i < |rows|
  {
    forall j :: 0 <= j < |rows| && j != i && SameKey(rows[j], rows[i].assignment.course, rows[i].user) ==> Beats(rows, i, j)
  }

  function DistinctOn(rows: seq<Member>, n: nat): seq<Member>
    requires n <= |rows|
  {
    if n == 0 then [] else DistinctOn(rows, n - 1) + if Keeps(rows, n - 1) then [rows[n - 1]] else []
  }

  function FromAssignment(db: Legacy, m: Member): Enrollment {
    var a := m.assignment;
    Enrollment(a.course, m.user, a.version, Some(a.id), NotBegun, Ready, IdOf(NextLesson(db.lessons, a.version, [])),
               None, None, None, a.created, a.created)
  }

  function Count(es: seq<Enrollment>, course: CourseId, user: UserId): nat {
    if es == [] then 0
    else Count(es[..|es| - 1], course, user) + if es[|es| - 1].course == course && es[|es| - 1].user == user then 1 else 0
  }

  function CountMembers(rows: seq<Member>, course: CourseId, user: UserId): nat {
    if rows == [] then 0
    else CountMembers(rows[..|rows| - 1], course, user) + if SameKey(rows[|rows| - 1], course, user) then 1 else 0
  }

  /** WHERE NOT EXISTS an enrollment of the same course and user. */
  function NotEnrolled(db: Legacy, rows: seq<Member>, existing: seq<Enrollment>): seq<Enrollment> {
    if rows == [] then []
    else
      var m := rows[|rows| - 1];
      NotEnrolled(db, rows[..|rows| - 1], existing) + if Count(existing, m.assignment.course, m.user) == 0 then [FromAssignment(db, m)] else []
  }

  /** projectEmployeeEnrollments: the second statement sees the rows of the first. */
  function Enrollments(db: Legacy): seq<Enrollment> {
    var first := ProgressEnrollments(db, db.progress);
    var rows := Members(db.assignments);
    first + NotEnrolled(db, DistinctOn(rows, |rows|), first)
  }

  // ----- exactly one enrollment -----

  lemma {:induction false} CountAppend(a: seq<Enrollment>, b: seq<Enrollment>, course: CourseId, user: UserId)
    ensures Count(a + b, course, user) == Count(a, course, user) + Count(b, course, user)
  {
    if b == [] {
      assert a + b == a;
    } else {
      assert (a + b)[..|a + b| - 1] == a + b[..|b| - 1];
      CountAppend(a, b[..|b| - 1], course, user);
    }
  }

  predicate IsFirstVersion(v: Version, course: CourseId) { v.course == course && v.number == 1 }

  predicate HasFirstVersion(versions: seq<Version>, course: CourseId) { exists i :: 0 <= i < |versions| && IsFirstVersion(versions[i], course) }

  predicate HasProgress(progress: seq<Progress>, course: CourseId, user: UserId) {
    exists i :: 0 <= i < |progress| && progress[i].course == course && progress[i].user == user
  }

  predicate IsAssigned(assignments: seq<Assignment>, course: CourseId, user: UserId) {
    exists i :: 0 <= i < |assignments| && Reaches(assignments[i], course, user)
  }

  ghost predicate DistinctVersions(versions: seq<Version>) {
    forall i, j :: 0 <= i < j < |versions| ==> versions[i].course != versions[j].course || versions[i].number != versions[j].number
  }

  lemma {:induction false} OneJoin(db: Legacy, p: Progress, versions: seq<Version>, course: CourseId, user: UserId)
    requires DistinctVersions(versions)
    ensures Count(JoinVersions(db, p, versions), course, user) ==
      if p.course == course && p.user == user && HasFirstVersion(versions, course) then 1 else 0
  {
    if versions != [] {
      var rest, v := versions[..|versions| - 1], versions[|versions| - 1];
      OneJoin(db, p, rest, course, user);
      var one := if v.course == p.course && v.number == 1 then [FromProgress(db, p, v)] else [];
      CountAppend(JoinVersions(db, p, rest), one, course, user);
      assert one != [] ==> one[..0] == [];
      assert forall i :: 0 <= i < |rest| ==> rest[i] == versions[i];
      assert HasFirstVersion(versions, course) <==> HasFirstVersion(rest, course) || IsFirstVersion(v, course) by {
        if HasFirstVersion(rest, course) {
          var i :| 0 <= i < |rest| && IsFirstVersion(rest[i], course);
          assert IsFirstVersion(versions[i], course);
        }
      }
    }
  }

  ghost predicate DistinctProgress(progress: seq<Progress>) {
    forall i, j :: 0 <= i < j < |progress| ==> progress[i].course != progress[j].course || progress[i].user != progress[j].user
  }

  lemma {:induction false} OneFromProgress(db: Legacy, progress: seq<Progress>, course: CourseId, user: UserId)
    requires DistinctVersions(db.versions) && DistinctProgress(progress)
    ensures Count(ProgressEnrollments(db, progress), course, user) ==
      if HasProgress(progress, course, user) && HasFirstVersion(db.versions, course) then 1 else 0
  {
    if progress != [] {
      var rest, p := progress[..|progress| - 1], progress[|progress| - 1];
      OneFromProgress(db, rest, course, user);
      OneJoin(db, p, db.versions, course, user);
      CountAppend(ProgressEnrollments(db, rest), JoinVersions(db, p, db.versions), course, user);
      hide HasFirstVersion;
      assert forall i :: 0 <= i < |rest| ==> rest[i] == progress[i];
      assert HasProgress(progress, course, user) <==> HasProgress(rest, course, user) || (p.course == course && p.user == user) by {
        if HasProgress(rest, course, user) {
          var i :| 0 <= i < |rest| && rest[i].course == course && rest[i].user == user;
          assert progress[i].course == course && progress[i].user == user;
        }
      }
    }
  }

  /** Rows with one key: a best one exists. */
  lemma {:induction false} BestRow(rows: seq<Member>, n: nat, course: CourseId, user: UserId) returns (b: nat)
    requires n <= |rows| && CountMembers(rows[..n], course, user) > 0
    ensures b < n && SameKey(rows[b], course, user)
    ensures forall j :: 0 <= j < n && SameKey(rows[j], course, user) && j != b ==> Beats(rows, b, j)
  {
    assert rows[..n][..n - 1] == rows[..n - 1];
    if CountMembers(rows[..n - 1], course, user) == 0 {
      b := n - 1;
      forall j | 0 <= j < n - 1 ensures !SameKey(rows[j], course, user) { NoneCounted(rows[..n - 1], course, user, j); }
    } else {
      b := BestRow(rows, n - 1, course, user);
      if SameKey(rows[n - 1], course, user) && !Beats(rows, b, n - 1) {
        b := n - 1;
      }
    }
  }

  lemma {:induction false} NoneCounted(rows: seq<Member>, course: CourseId, user: UserId, j: nat)
    requires CountMembers(rows, course, user) == 0 && j < |rows|
    ensures !SameKey(rows[j], course, user)
  {
    if j < |rows| - 1 { NoneCounted(rows[..|rows| - 1], course, user, j); }
  }

  lemma {:induction false} SomeCounted(rows: seq<Member>, course: CourseId, user: UserId) returns (j: nat)
    requires CountMembers(rows, course, user) > 0
    ensures j < |rows| && SameKey(rows[j], course, user)
  {
    if SameKey(rows[|rows| - 1], course, user) { j := |rows| - 1; } else { j := SomeCounted(rows[..|rows| - 1], course, user); }
  }

  /** DISTINCT ON keeps one row of each key: the best. */
  lemma {:induction false} OneKept(rows: seq<Member>, n: nat, b: nat, course: CourseId, user: UserId)
    requires n <= |rows| && b < |rows| && SameKey(rows[b], course, user)
    requires forall j :: 0 <= j < |rows| && SameKey(rows[j], course, user) && j != b ==> Beats(rows, b, j)
    ensures CountMembers(DistinctOn(rows, n), course, user) == if b < n then 1 else 0
  {
    if n > 0 {
      OneKept(rows, n - 1, b, course, user);
      var kept := DistinctOn(rows, n - 1);
      if SameKey(rows[n - 1], course, user) && n - 1 != b {
        assert Beats(rows, b, n - 1) && !Beats(rows, n - 1, b);
        assert !Keeps(rows, n - 1);
      }
      assert (kept + [rows[n - 1]])[..|kept|] == kept;
      assert kept + [] == kept;
    }
  }

  lemma {:induction false} NoneKept(rows: seq<Member>, n: nat, course: CourseId, user: UserId)
    requires n <= |rows| && forall j :: 0 <= j < |rows| ==> !SameKey(rows[j], course, user)
    ensures CountMembers(DistinctOn(rows, n), course, user) == 0
  {
    if n > 0 {
      NoneKept(rows, n - 1, course, user);
      var kept := DistinctOn(rows, n - 1);
      assert (kept + [rows[n - 1]])[..|kept|] == kept;
      assert kept + [] == kept;
    }
  }

  lemma CountSnoc(es: seq<Enrollment>, e: Enrollment, course: CourseId, user: UserId)
    ensures Count(es + [e], course, user) == Count(es, course, user) + if e.course == course && e.user == user then 1 else 0
  {
    assert (es + [e])[..|es|] == es;
  }

  lemma {:induction false} CountNotEnrolled(db: Legacy, rows: seq<Member>, existing: seq<Enrollment>, course: CourseId, user: UserId)
    ensures Count(NotEnrolled(db, rows, existing), course, user) ==
      if Count(existing, course, user) == 0 then CountMembers(rows, course, user) else 0
  {
    if rows != [] {
      var rest, m := rows[..|rows| - 1], rows[|rows| - 1];
      CountNotEnrolled(db, rest, existing, course, user);
      var before, e := NotEnrolled(db, rest, existing), FromAssignment(db, m);
      assert e.course == m.assignment.course && e.user == m.user;
      hide FromAssignment, Count;
      CountSnoc(before, e, course, user);
      assert before + [] == before;
    }
  }

  /** A user is among the unnested rows exactly when some assignment reaches them. */
  lemma {:induction false} MembersAre(assignments: seq<Assignment>, m: Member)
    ensures m in Members(assignments) <==> m.assignment in assignments && Reaches(m.assignment, m.assignment.course, m.user)
  {
    if assignments != [] {
      var rest, last := assignments[..|assignments| - 1], assignments[|assignments| - 1];
      assert assignments == rest + [last];
      MembersAre(rest, m);
      if m in Unnest(last) {
        var i :| 0 <= i < |Unnest(last)| && Unnest(last)[i] == m;
      }
      if m.assignment == last && Reaches(last, last.course, m.user) {
        var i :| 0 <= i < |last.members| && last.members[i] == m.user;
        assert Unnest(last)[i] == m;
      }
    }
  }

  lemma OneFromAssignments(db: Legacy, course: CourseId, user: UserId)
    ensures
      var rows := Members(db.assignments);
      CountMembers(DistinctOn(rows, |rows|), course, user) == if IsAssigned(db.assignments, course, user) then 1 else 0
  {
    var rows := Members(db.assignments);
    assert rows[..|rows|] == rows;
    if IsAssigned(db.assignments, course, user) {
      var i :| 0 <= i < |db.assignments| && Reaches(db.assignments[i], course, user);
      var m := Member(db.assignments[i], user);
      MembersAre(db.assignments, m);
      var j :| 0 <= j < |rows| && rows[j] == m;
      if CountMembers(rows, course, user) == 0 { NoneCounted(rows, course, user, j); }
      var b := BestRow(rows, |rows|, course, user);
      OneKept(rows, |rows|, b, course, user);
    } else {
      forall j | 0 <= j < |rows| ensures !SameKey(rows[j], course, user) {
        MembersAre(db.assignments, rows[j]);
        assert rows[j] in rows;
      }
      NoneKept(rows, |rows|, course, user);
    }
  }

  /**
   * Every (course, user) with progress on a course that has a first version, or with a
   * resolved assignment that is not external, gets exactly one enrollment; nobody else
   * gets any.
   */
  lemma ExactlyOneEnrollment(db: Legacy, course: CourseId, user: UserId)
    requires Schema(db)
    ensures Count(Enrollments(db), course, user) ==
      if (HasProgress(db.progress, course, user) && HasFirstVersion(db.versions, course)) || IsAssigned(db.assignments, course, user)
      then 1 else 0
  {
    var first := ProgressEnrollments(db, db.progress);
    var rows := Members(db.assignments);
    OneFromProgress(db, db.progress, course, user);
    OneFromAssignments(db, course, user);
    CountNotEnrolled(db, DistinctOn(rows, |rows|), first, course, user);
    CountAppend(first, NotEnrolled(db, DistinctOn(rows, |rows|), first), course, user);
  }

  // ----- the enrollment of one progress row -----

  lemma {:induction false} JoinHas(db: Legacy, p: Progress, versions: seq<Version>, v: Version)
    requires v in versions && IsFirstVersion(v, p.course)
    ensures FromProgress(db, p, v) in JoinVersions(db, p, versions)
  {
    var rest, last := versions[..|versions| - 1], versions[|versions| - 1];
    assert versions == rest + [last];
    hide FromProgress;
    if v in rest { JoinHas(db, p, rest, v); }
  }

  lemma {:induction false} ProgressHas(db: Legacy, progress: seq<Progress>, p: Progress, v: Version)
    requires p in progress && v in db.versions && IsFirstVersion(v, p.course)
    ensures FromProgress(db, p, v) in ProgressEnrollments(db, progress)
  {
    var rest, last := progress[..|progress| - 1], progress[|progress| - 1];
    assert progress == rest + [last];
    JoinHas(db, p, db.versions, v);
    hide FromProgress;
    if p in rest { ProgressHas(db, rest, p, v); }
  }

  lemma {:induction false} CountedTwice(es: seq<Enrollment>, i: nat, j: nat, course: CourseId, user: UserId)
    requires i < j < |es| && es[i].course == course == es[j].course && es[i].user == user == es[j].user
    ensures Count(es, course, user) >= 2
  {
    if j < |es| - 1 {
      CountedTwice(es[..|es| - 1], i, j, course, user);
    } else {
      CountedOnce(es[..|es| - 1], i, course, user);
    }
  }

  lemma {:induction false} CountedOnce(es: seq<Enrollment>, i: nat, course: CourseId, user: UserId)
    requires i < |es| && es[i].course == course && es[i].user == user
    ensures Count(es, course, user) >= 1
  {
    if i < |es| - 1 { CountedOnce(es[..|es| - 1], i, course, user); }
  }

  /** A progress row on a course with a first version has that version's projection, and no other enrollment. */
  lemma TheEnrollment(db: Legacy, p: Progress, v: Version, e: Enrollment)
    requires Schema(db) && p in db.progress && v in db.versions && IsFirstVersion(v, p.course)
    ensures e in Enrollments(db) && e.course == p.course && e.user == p.user <==> e == FromProgress(db, p, v)
  {
    var es, own := Enrollments(db), FromProgress(db, p, v);
    ProgressHas(db, db.progress, p, v);
    ExactlyOneEnrollment(db, p.course, p.user);
    assert own.course == p.course && own.user == p.user;
    hide FromProgress, Schema, ProgressEnrollments, NotEnrolled;
    assert own in es;
    if e in es && e.course == p.course && e.user == p.user && e != own {
      var i :| 0 <= i < |es| && es[i] == e;
      var j :| 0 <= j < |es| && es[j] == own;
      if i < j { CountedTwice(es, i, j, p.course, p.user); } else { CountedTwice(es, j, i, p.course, p.user); }
    }
  }

  /** A version's lessons are all done. */
  predicate AllDone(db: Legacy, v: Version, done: seq<LessonId>) {
    forall l :: l in db.lessons && l.version == v.id ==> l.id in done
  }

  /** Completed exactly when lessons exist and none is left; then, and only then, there is a completion time. */
  lemma FinishedExactly(db: Legacy, p: Progress, v: Version)
    ensures var e := FromProgress(db, p, v);
      && (e.stage == Finished <==> HasLessons(db.lessons, v.id) && AllDone(db, v, p.completed))
      && (e.current.None? <==> AllDone(db, v, p.completed))
      && (e.completedAt.Some? <==> e.stage == Finished)
  {
    NextLessonIs(db.lessons, v.id, p.completed);
    hide HasLessons;
    assert AllDone(db, v, p.completed) <==> forall l :: l in db.lessons ==> !Open(l, v.id, p.completed);
  }

  /** The current lesson is not done, and every lesson before it is. */
  lemma CurrentIsFirstOpen(db: Legacy, p: Progress, v: Version, l: Lesson)
    requires Schema(db) && FromProgress(db, p, v).current.Some? && l in db.lessons && l.version == v.id
    ensures l.id == FromProgress(db, p, v).current.value ==> l.id !in p.completed
    ensures forall c :: c in db.lessons && c.id == FromProgress(db, p, v).current.value && Precedes(l, c) ==> l.id in p.completed
    ensures exists c :: c in db.lessons && c.version == v.id && c.id == FromProgress(db, p, v).current.value
  {
    NextLessonIs(db.lessons, v.id, p.completed);
    var next := NextLesson(db.lessons, v.id, p.completed).value;
    assert FromProgress(db, p, v).current == Some(next.id);
    forall c | c in db.lessons && c.id == next.id ensures c == next { OneLesson(db, c, next); }
  }

  lemma OneLesson(db: Legacy, a: Lesson, b: Lesson)
    requires Schema(db) && a in db.lessons && b in db.lessons && a.id == b.id
    ensures a == b
  {
    var i :| 0 <= i < |db.lessons| && db.lessons[i] == a;
    var j :| 0 <= j < |db.lessons| && db.lessons[j] == b;
    assert i == j;
  }

  /** Where the two statements could pick different assignments they do not: the progress row's source is the DISTINCT ON row's. */
  lemma SourceIsEarliest(db: Legacy, p: Progress, v: Version)
    ensures FromProgress(db, p, v).source.None? <==> !IsAssigned(db.assignments, p.course, p.user)
    ensures FromProgress(db, p, v).source.Some? ==> exists a ::
      && a in db.assignments && a.id == FromProgress(db, p, v).source.value && Reaches(a, p.course, p.user)
      && forall other :: other in db.assignments && Reaches(other, p.course, p.user) ==> !Earlier(other, a)
  {
    EarliestIs(db.assignments, p.course, p.user);
  }

  /** An enrollment not begun is ready, except that an overdue course never opened is active. */
  lemma ReadyExactly(db: Legacy, p: Progress, v: Version)
    ensures var e := FromProgress(db, p, v);
      (e.stage == NotBegun <==> e.access == Ready) <==>
      !(p.status == Overdue && Untouched(p))
  {
    FinishedExactly(db, p, v);
    var e := FromProgress(db, p, v);
    if Untouched(p) && HasLessons(db.lessons, v.id) {
      var i :| 0 <= i < |db.lessons| && db.lessons[i].version == v.id;
      assert db.lessons[i] in db.lessons && !AllDone(db, v, p.completed);
    }
  }

  // ----- lesson rows -----

  datatype LessonStatus = LessonCompleted | LessonCurrent | LessonAvailable

  datatype LessonRow = LessonRow(course: CourseId, user: UserId, lesson: LessonId, status: LessonStatus,
                                 firstOpened: Option<Time>, completedAt: Option<Time>)

  /** LEFT JOIN progress, then COALESCE of its completed ids. */
  function DoneOf(progress: seq<Progress>, course: CourseId, user: UserId): seq<LessonId> {
    if progress == [] then []
    else
      var p := progress[|progress| - 1];
      if p.course == course && p.user == user then p.completed else DoneOf(progress[..|progress| - 1], course, user)
  }

  lemma {:induction false} DoneIs(progress: seq<Progress>, p: Progress)
    requires DistinctProgress(progress) && p in progress
    ensures DoneOf(progress, p.course, p.user) == p.completed
  {
    var rest, last := progress[..|progress| - 1], progress[|progress| - 1];
    assert progress == rest + [last];
    if p in rest {
      DoneIs(rest, p);
      var i :| 0 <= i < |rest| && progress[i] == p;
    }
  }

  /** The joins and the filter: version v and lesson l give enrollment e a row. */
  predicate Selects(db: Legacy, e: Enrollment, v: Version, l: Lesson) {
    && e.stage != NotBegun && v.id == e.version && l.version == e.version
    && (!v.sequential || l.id in DoneOf(db.progress, e.course, e.user) || e.current == Some(l.id))
  }

  ghost predicate HasRow(db: Legacy, e: Enrollment, l: Lesson) { exists v :: v in db.versions && Selects(db, e, v, l) }

  function RowFor(db: Legacy, e: Enrollment, l: Lesson): LessonRow {
    var completed := l.id in DoneOf(db.progress, e.course, e.user);
    var current := e.current == Some(l.id);
    LessonRow(e.course, e.user, l.id,
              if completed then LessonCompleted else if current then LessonCurrent else LessonAvailable,
              if completed || current then e.started else None,
              if completed then Some(Coalesce(e.completedAt, e.lastActivity, Coalesce(e.started, None, e.created))) else None)
  }

  function LessonsFor(db: Legacy, e: Enrollment, v: Version, lessons: seq<Lesson>): seq<LessonRow> {
    if lessons == [] then []
    else
      var l := lessons[|lessons| - 1];
      LessonsFor(db, e, v, lessons[..|lessons| - 1]) + if Selects(db, e, v, l) then [RowFor(db, e, l)] else []
  }

  function VersionsFor(db: Legacy, e: Enrollment, versions: seq<Version>): seq<LessonRow> {
    if versions == [] then []
    else VersionsFor(db, e, versions[..|versions| - 1]) + LessonsFor(db, e, versions[|versions| - 1], db.lessons)
  }

  function RowsFor(db: Legacy, es: seq<Enrollment>): seq<LessonRow> {
    if es == [] then [] else RowsFor(db, es[..|es| - 1]) + VersionsFor(db, es[|es| - 1], db.versions)
  }

  /** The lesson rows inserted for all enrollments, one by one. */
  function LessonRows(db: Legacy): seq<LessonRow> { RowsFor(db, Enrollments(db)) }

  lemma {:induction false} LessonsForHas(db: Legacy, e: Enrollment, v: Version, lessons: seq<Lesson>, row: LessonRow)
    ensures row in LessonsFor(db, e, v, lessons) <==> exists l :: l in lessons && Selects(db, e, v, l) && row == RowFor(db, e, l)
  {
    if lessons != [] {
      var rest, last := lessons[..|lessons| - 1], lessons[|lessons| - 1];
      assert lessons == rest + [last];
      LessonsForHas(db, e, v, rest, row);
      hide Selects, RowFor;
    }
  }

  lemma {:induction false} VersionsForHas(db: Legacy, e: Enrollment, versions: seq<Version>, row: LessonRow)
    ensures row in VersionsFor(db, e, versions) <==>
      exists v, l :: v in versions && l in db.lessons && Selects(db, e, v, l) && row == RowFor(db, e, l)
  {
    if versions != [] {
      var rest, last := versions[..|versions| - 1], versions[|versions| - 1];
      assert versions == rest + [last];
      VersionsForHas(db, e, rest, row);
      LessonsForHas(db, e, last, db.lessons, row);
      hide Selects, RowFor, LessonsFor;
    }
  }

  lemma {:induction false} RowsForHas(db: Legacy, es: seq<Enrollment>, row: LessonRow)
    ensures row in RowsFor(db, es) <==> exists e, l :: e in es && l in db.lessons && HasRow(db, e, l) && row == RowFor(db, e, l)
  {
    if es != [] {
      var rest, last := es[..|es| - 1], es[|es| - 1];
      assert es == rest + [last];
      RowsForHas(db, rest, row);
      VersionsForHas(db, last, db.versions, row);
      hide Selects, RowFor, VersionsFor;
      if l, v :| v in db.versions && l in db.lessons && Selects(db, last, v, l) && row == RowFor(db, last, l) {
        assert HasRow(db, last, l);
      }
    }
  }

  // One row per enrollment and lesson.

  function CountRows(rows: seq<LessonRow>, course: CourseId, user: UserId, lesson: LessonId): nat {
    if rows == [] then 0
    else
      var row := rows[|rows| - 1];
      CountRows(rows[..|rows| - 1], course, user, lesson) + if row.course == course && row.user == user && row.lesson == lesson then 1 else 0
  }

  lemma {:induction false} CountRowsAppend(a: seq<LessonRow>, b: seq<LessonRow>, course: CourseId, user: UserId, lesson: LessonId)
    ensures CountRows(a + b, course, user, lesson) == CountRows(a, course, user, lesson) + CountRows(b, course, user, lesson)
  {
    if b == [] {
      assert a + b == a;
    } else {
      assert (a + b)[..|a + b| - 1] == a + b[..|b| - 1];
      CountRowsAppend(a, b[..|b| - 1], course, user, lesson);
    }
  }

  lemma CountOne(row: LessonRow, course: CourseId, user: UserId, lesson: LessonId)
    ensures CountRows([row], course, user, lesson) == if row.course == course && row.user == user && row.lesson == lesson then 1 else 0
  {
    assert [row][..0] == [];
  }

  ghost predicate DistinctLessons(lessons: seq<Lesson>) {
    forall i, j :: 0 <= i < j < |lessons| ==> lessons[i].id != lessons[j].id
  }

  ghost predicate DistinctVersionIds(versions: seq<Version>) {
    forall i, j :: 0 <= i < j < |versions| ==> versions[i].id != versions[j].id
  }

  /** Some lesson of the list with this id is selected. */
  ghost predicate Yields(db: Legacy, e: Enrollment, v: Version, lessons: seq<Lesson>, lesson: LessonId) {
    exists l :: l in lessons && l.id == lesson && Selects(db, e, v, l)
  }

  lemma {:induction false} OneLessonRow(db: Legacy, e: Enrollment, v: Version, lessons: seq<Lesson>, lesson: LessonId)
    requires DistinctLessons(lessons)
    ensures CountRows(LessonsFor(db, e, v, lessons), e.course, e.user, lesson) == if Yields(db, e, v, lessons, lesson) then 1 else 0
  {
    if lessons != [] {
      var rest, last := lessons[..|lessons| - 1], lessons[|lessons| - 1];
      assert lessons == rest + [last];
      OneLessonRow(db, e, v, rest, lesson);
      var one := if Selects(db, e, v, last) then [RowFor(db, e, last)] else [];
      CountRowsAppend(LessonsFor(db, e, v, rest), one, e.course, e.user, lesson);
      if one != [] { CountOne(one[0], e.course, e.user, lesson); }
      assert last.id == lesson ==> forall l :: l in rest ==> l.id != lesson;
      hide Selects, CountRows;
    }
  }

  lemma {:induction false} OneVersionRow(db: Legacy, e: Enrollment, versions: seq<Version>, lesson: LessonId)
    requires DistinctVersionIds(versions) && DistinctLessons(db.lessons)
    ensures CountRows(VersionsFor(db, e, versions), e.course, e.user, lesson) ==
      if exists v :: v in versions && Yields(db, e, v, db.lessons, lesson) then 1 else 0
  {
    if versions != [] {
      var rest, last := versions[..|versions| - 1], versions[|versions| - 1];
      assert versions == rest + [last];
      OneVersionRow(db, e, rest, lesson);
      OneLessonRow(db, e, last, db.lessons, lesson);
      CountRowsAppend(VersionsFor(db, e, rest), LessonsFor(db, e, last, db.lessons), e.course, e.user, lesson);
      forall v | v in rest ensures v.id != last.id {}
      forall v | v in versions && Yields(db, e, v, db.lessons, lesson) ensures v.id == e.version {}
      hide Yields, CountRows, LessonsFor;
    }
  }

  /** Rows of other enrollments do not count. */
  lemma {:induction false} NoneElsewhere(db: Legacy, e: Enrollment, versions: seq<Version>, course: CourseId, user: UserId, lesson: LessonId)
    requires e.course != course || e.user != user
    ensures CountRows(VersionsFor(db, e, versions), course, user, lesson) == 0
  {
    if versions != [] {
      var rest, last := versions[..|versions| - 1], versions[|versions| - 1];
      NoneElsewhere(db, e, rest, course, user, lesson);
      NoneForLessons(db, e, last, db.lessons, course, user, lesson);
      CountRowsAppend(VersionsFor(db, e, rest), LessonsFor(db, e, last, db.lessons), course, user, lesson);
    }
  }

  lemma {:induction false} NoneForLessons(db: Legacy, e: Enrollment, v: Version, lessons: seq<Lesson>, course: CourseId, user: UserId, lesson: LessonId)
    requires e.course != course || e.user != user
    ensures CountRows(LessonsFor(db, e, v, lessons), course, user, lesson) == 0
  {
    if lessons != [] {
      var rest, last := lessons[..|lessons| - 1], lessons[|lessons| - 1];
      NoneForLessons(db, e, v, rest, course, user, lesson);
      var one := if Selects(db, e, v, last) then [RowFor(db, e, last)] else [];
      CountRowsAppend(LessonsFor(db, e, v, rest), one, course, user, lesson);
      if one != [] { CountOne(one[0], course, user, lesson); }
    }
  }

  lemma {:induction false} CountsOwn(db: Legacy, es: seq<Enrollment>, e: Enrollment, lesson: LessonId)
    requires e in es && Count(es, e.course, e.user) == 1
    ensures CountRows(RowsFor(db, es), e.course, e.user, lesson) == CountRows(VersionsFor(db, e, db.versions), e.course, e.user, lesson)
  {
    var rest, last := es[..|es| - 1], es[|es| - 1];
    assert es == rest + [last];
    CountRowsAppend(RowsFor(db, rest), VersionsFor(db, last, db.versions), e.course, e.user, lesson);
    if last.course == e.course && last.user == e.user {
      NoneCountedRows(db, rest, e.course, e.user, lesson);
      if e in rest {
        var i :| 0 <= i < |rest| && rest[i] == e;
        CountedOnce(rest, i, e.course, e.user);
      }
    } else {
      CountsOwn(db, rest, e, lesson);
      NoneElsewhere(db, last, db.versions, e.course, e.user, lesson);
    }
  }

  lemma {:induction false} NoneCountedRows(db: Legacy, es: seq<Enrollment>, course: CourseId, user: UserId, lesson: LessonId)
    requires Count(es, course, user) == 0
    ensures CountRows(RowsFor(db, es), course, user, lesson) == 0
  {
    if es != [] {
      var rest, last := es[..|es| - 1], es[|es| - 1];
      NoneCountedRows(db, rest, course, user, lesson);
      NoneElsewhere(db, last, db.versions, course, user, lesson);
      CountRowsAppend(RowsFor(db, rest), VersionsFor(db, last, db.versions), course, user, lesson);
    }
  }

  /** Each enrollment gets exactly one row for each lesson the filter selects, and none for any other. */
  lemma OneRowPerLesson(db: Legacy, e: Enrollment, l: Lesson)
    requires Schema(db) && e in Enrollments(db) && l in db.lessons
    ensures CountRows(LessonRows(db), e.course, e.user, l.id) == if HasRow(db, e, l) then 1 else 0
  {
    var es := Enrollments(db);
    ExactlyOneEnrollment(db, e.course, e.user);
    var i :| 0 <= i < |es| && es[i] == e;
    CountedOnce(es, i, e.course, e.user);
    CountsOwn(db, es, e, l.id);
    OneVersionRow(db, e, db.versions, l.id);
    forall v | v in db.versions && Yields(db, e, v, db.lessons, l.id) ensures HasRow(db, e, l) {
      var k :| k in db.lessons && k.id == l.id && Selects(db, e, v, k);
      OneLesson(db, k, l);
    }
    if HasRow(db, e, l) {
      var v :| v in db.versions && Selects(db, e, v, l);
      assert Yields(db, e, v, db.lessons, l.id);
    }
  }

  ghost predicate HasStatus(db: Legacy, course: CourseId, user: UserId, lesson: LessonId, status: LessonStatus) {
    exists row :: row in LessonRows(db) && row.course == course && row.user == user && row.lesson == lesson && row.status == status
  }

  /** The rows of a progress row's enrollment. */
  lemma RowsOf(db: Legacy, p: Progress, v: Version, lesson: LessonId, status: LessonStatus)
    requires Schema(db) && p in db.progress && v in db.versions && IsFirstVersion(v, p.course)
    ensures HasStatus(db, p.course, p.user, lesson, status) <==>
      exists l :: l in db.lessons && l.id == lesson && HasRow(db, FromProgress(db, p, v), l) && RowFor(db, FromProgress(db, p, v), l).status == status
  {
    var e := FromProgress(db, p, v);
    TheEnrollment(db, p, v, e);
    assert e.course == p.course && e.user == p.user;
    hide HasRow, FromProgress, Schema, Enrollments;
    if HasStatus(db, p.course, p.user, lesson, status) {
      var row :| row in LessonRows(db) && row.course == p.course && row.user == p.user && row.lesson == lesson && row.status == status;
      RowsForHas(db, Enrollments(db), row);
      var e', l :| e' in Enrollments(db) && l in db.lessons && HasRow(db, e', l) && row == RowFor(db, e', l);
      TheEnrollment(db, p, v, e');
    }
    if l :| l in db.lessons && l.id == lesson && HasRow(db, e, l) && RowFor(db, e, l).status == status {
      RowsForHas(db, Enrollments(db), RowFor(db, e, l));
    }
  }

  lemma TheVersion(db: Legacy, v: Version, i: nat)
    requires Schema(db) && v in db.versions && i < |db.versions| && db.versions[i].id == v.id
    ensures db.versions[i] == v
  {
    var j :| 0 <= j < |db.versions| && db.versions[j] == v;
    assert i == j;
  }

  /** What lesson rows an enrollment made from progress gets. */
  lemma HasRowExactly(db: Legacy, p: Progress, v: Version, l: Lesson)
    requires Schema(db) && p in db.progress && v in db.versions && l in db.lessons
    ensures var e := FromProgress(db, p, v);
      && DoneOf(db.progress, e.course, e.user) == p.completed
      && (HasRow(db, e, l) <==> e.stage != NotBegun && l.version == v.id && (!v.sequential || l.id in p.completed || e.current == Some(l.id)))
  {
    var e := FromProgress(db, p, v);
    DoneIs(db.progress, p);
    assert e.course == p.course && e.user == p.user && e.version == v.id;
    hide FromProgress;
    var j :| 0 <= j < |db.versions| && db.versions[j] == v;
    forall i | 0 <= i < |db.versions| && db.versions[i].id == v.id ensures db.versions[i] == v { TheVersion(db, v, i); }
  }

  /** The completed lesson rows are exactly the legacy completed lessons of the version. */
  lemma CompletedRowsExactly(db: Legacy, p: Progress, v: Version, lesson: LessonId)
    requires Schema(db) && p in db.progress && v in db.versions && IsFirstVersion(v, p.course)
    ensures HasStatus(db, p.course, p.user, lesson, LessonCompleted) <==>
      lesson in p.completed && exists l :: l in db.lessons && l.id == lesson && l.version == v.id
  {
    RowsOf(db, p, v, lesson, LessonCompleted);
    var e := FromProgress(db, p, v);
    assert p.completed != [] ==> e.stage != NotBegun;
    forall l | l in db.lessons && l.id == lesson
      ensures HasRow(db, e, l) && RowFor(db, e, l).status == LessonCompleted <==> lesson in p.completed && l.version == v.id
    {
      HasRowExactly(db, p, v, l);
    }
  }

  /** Every lesson before the current one has a completed row. */
  lemma LessonsBeforeCurrentCompleted(db: Legacy, p: Progress, v: Version, c: Lesson, l: Lesson)
    requires Schema(db) && p in db.progress && v in db.versions && IsFirstVersion(v, p.course)
    requires c in db.lessons && FromProgress(db, p, v).current == Some(c.id)
    requires l in db.lessons && l.version == v.id && Precedes(l, c)
    ensures HasStatus(db, p.course, p.user, l.id, LessonCompleted)
  {
    CurrentIsFirstOpen(db, p, v, l);
    CompletedRowsExactly(db, p, v, l.id);
  }

  /** At most one lesson is current, the first that is not done; in a sequential version nothing else is open. */
  lemma OpenRowsExactly(db: Legacy, p: Progress, v: Version, lesson: LessonId)
    requires Schema(db) && p in db.progress && v in db.versions && IsFirstVersion(v, p.course)
    ensures var e := FromProgress(db, p, v);
      && (HasStatus(db, p.course, p.user, lesson, LessonCurrent) <==> e.stage != NotBegun && e.current == Some(lesson))
      && (v.sequential ==> !HasStatus(db, p.course, p.user, lesson, LessonAvailable))
  {
    var e := FromProgress(db, p, v);
    RowsOf(db, p, v, lesson, LessonCurrent);
    RowsOf(db, p, v, lesson, LessonAvailable);
    NextLessonIs(db.lessons, v.id, p.completed);
    assert e.current == IdOf(NextLesson(db.lessons, v.id, p.completed));
    hide FromProgress, HasStatus;
    forall l | l in db.lessons && l.id == lesson
      ensures HasRow(db, e, l) && RowFor(db, e, l).status == LessonCurrent <==>
        e.stage != NotBegun && l.version == v.id && e.current == Some(lesson) && lesson !in p.completed
      ensures v.sequential ==> !(HasRow(db, e, l) && RowFor(db, e, l).status == LessonAvailable)
    {
      HasRowExactly(db, p, v, l);
    }
  }

  /** An enrollment made from an assignment has no lesson rows and stands at the version's first lesson. */
  lemma AssignmentEnrollmentIsBlank(db: Legacy, m: Member, l: Lesson)
    ensures var e := FromAssignment(db, m);
      && !HasRow(db, e, l)
      && (e.current.None? <==> !HasLessons(db.lessons, m.assignment.version))
      && (e.current.Some? ==> exists c :: (
            && c in db.lessons && c.version == m.assignment.version && e.current == Some(c.id)
            && forall o :: o in db.lessons && o.version == m.assignment.version ==> !Precedes(o, c)))
  {
    NextLessonIs(db.lessons, m.assignment.version, []);
    var next := NextLesson(db.lessons, m.assignment.version, []);
    if next.None? && HasLessons(db.lessons, m.assignment.version) {
      var i :| 0 <= i < |db.lessons| && db.lessons[i].version == m.assignment.version;
      assert Open(db.lessons[i], m.assignment.version, []);
    }
    if next.Some? {
      var i :| 0 <= i < |db.lessons| && db.lessons[i] == next.value;
      assert HasLessons(db.lessons, m.assignment.version);
      forall o | o in db.lessons && o.version == m.assignment.version ensures !Precedes(o, next.value) {
        assert Open(o, m.assignment.version, []);
      }
    }
  }
}

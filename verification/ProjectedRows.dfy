/**
 * The rows the legacy projection writes, said of the legacy tables alone: which
 * assignment and which lesson an enrollment names, its states and times, and the values
 * of its lesson rows.
 */
module ProjectedRows {
  import opened Prelude
  import opened LegacyProjection

  /** Of the assignments that reach the user and are not external, the first by creation and then id. */
  ghost predicate FirstAssignment(db: Legacy, course: CourseId, user: UserId, a: Assignment) {
    && a in db.assignments && a.course == course && user in a.members && a.kind != ToExternal
    && forall o :: o in db.assignments && o.course == course && user in o.members && o.kind != ToExternal ==>
      a.created < o.created || (a.created == o.created && a.id <= o.id)
  }

  /** Of the version's lessons that are not done, the first by section, position and id. */
  ghost predicate FirstOpen(db: Legacy, version: VersionId, done: seq<LessonId>, l: Lesson) {
    && l in db.lessons && l.version == version && l.id !in done
    && forall o :: o in db.lessons && o.version == version && o.id !in done ==>
      || l.sectionOrder < o.sectionOrder
      || (l.sectionOrder == o.sectionOrder && (l.order < o.order || (l.order == o.order && l.id <= o.id)))
  }

  ghost predicate SourceIs(db: Legacy, course: CourseId, user: UserId, source: Option<AssignmentId>) {
    if source.Some? then exists a :: FirstAssignment(db, course, user, a) && a.id == source.value
    else forall a :: a in db.assignments ==> !(a.course == course && user in a.members && a.kind != ToExternal)
  }

  ghost predicate CurrentIs(db: Legacy, version: VersionId, done: seq<LessonId>, current: Option<LessonId>) {
    if current.Some? then exists l :: FirstOpen(db, version, done, l) && l.id == current.value
    else forall l :: l in db.lessons && l.version == version ==> l.id in done
  }

  /** The learner did something, or the legacy status says so. */
  predicate Begun(p: Progress) { p.status == InProgress || p.status == Completed || p.started.Some? || p.completed != [] }

  /** Lessons exist and all of them are done. */
  ghost predicate Through(db: Legacy, v: Version, done: seq<LessonId>) {
    && (exists l :: l in db.lessons && l.version == v.id)
    && forall l :: l in db.lessons && l.version == v.id ==> l.id in done
  }

  /** The last time known of the progress row: completion, start, creation of the version. */
  function LastTime(p: Progress, v: Version): Time {
    match (p.completedAt, p.started)
    case (Some(t), _) => t
    case (None, Some(t)) => t
    case (None, None) => v.created
  }

  /** The enrollment written for a progress row on the first version of its course. */
  ghost predicate Projected(db: Legacy, p: Progress, v: Version, e: Enrollment) {
    && e.course == p.course && e.user == p.user && e.version == v.id
    && SourceIs(db, p.course, p.user, e.source) && CurrentIs(db, v.id, p.completed, e.current)
    && e.stage == (if Through(db, v, p.completed) then Finished else if Begun(p) then Underway else NotBegun)
    && e.access == (if p.status == NotStarted && p.started.None? && p.completed == [] then Ready else Active)
    && e.started == p.started && e.created == (if p.started.Some? then p.started.value else v.created)
    && e.updated == LastTime(p, v) && e.lastActivity == Some(LastTime(p, v))
    && e.completedAt == if Through(db, v, p.completed) then Some(LastTime(p, v)) else None
  }

  /** The enrollment written for an assignment. */
  ghost predicate Assigned(db: Legacy, a: Assignment, user: UserId, e: Enrollment) {
    && e.course == a.course && e.user == user && e.version == a.version && e.source == Some(a.id)
    && CurrentIs(db, a.version, [], e.current)
    && e.stage == NotBegun && e.access == Ready && e.started.None? && e.completedAt.None? && e.lastActivity.None?
    && e.created == a.created && e.updated == a.created
  }

  // ----- the functions satisfy the description -----

  lemma EarliestIsFirst(db: Legacy, course: CourseId, user: UserId)
    ensures SourceIs(db, course, user, if Earliest(db.assignments, course, user).Some? then Some(Earliest(db.assignments, course, user).value.id) else None)
  {
    EarliestIs(db.assignments, course, user);
    if Earliest(db.assignments, course, user).Some? {
      assert FirstAssignment(db, course, user, Earliest(db.assignments, course, user).value);
    } else {
      forall a | a in db.assignments ensures !(a.course == course && user in a.members && a.kind != ToExternal) {
        assert !Reaches(a, course, user);
      }
    }
  }

  lemma NextIsFirst(db: Legacy, version: VersionId, done: seq<LessonId>)
    ensures CurrentIs(db, version, done, IdOf(NextLesson(db.lessons, version, done)))
  {
    NextLessonIs(db.lessons, version, done);
    if NextLesson(db.lessons, version, done).Some? {
      var next := NextLesson(db.lessons, version, done).value;
      forall o | o in db.lessons && o.version == version && o.id !in done ensures !Precedes(o, next) {
        assert Open(o, version, done);
      }
      assert FirstOpen(db, version, done, next);
    } else {
      forall l | l in db.lessons && l.version == version ensures l.id in done {
        assert !Open(l, version, done);
      }
    }
  }

  lemma ThroughExactly(db: Legacy, v: Version, done: seq<LessonId>)
    ensures Through(db, v, done) <==> HasLessons(db.lessons, v.id) && NextLesson(db.lessons, v.id, done).None?
  {
    NextLessonIs(db.lessons, v.id, done);
    assert forall l :: l in db.lessons ==> (Open(l, v.id, done) <==> l.version == v.id && l.id !in done);
    if l :| l in db.lessons && l.version == v.id {
      var i :| 0 <= i < |db.lessons| && db.lessons[i] == l;
    }
    if HasLessons(db.lessons, v.id) {
      var i :| 0 <= i < |db.lessons| && db.lessons[i].version == v.id;
      assert db.lessons[i] in db.lessons;
    }
  }

  lemma FromProgressIsProjected(db: Legacy, p: Progress, v: Version)
    ensures Projected(db, p, v, FromProgress(db, p, v))
  {
    EarliestIsFirst(db, p.course, p.user);
    NextIsFirst(db, v.id, p.completed);
    ThroughExactly(db, v, p.completed);
    hide SourceIs, CurrentIs, Through, Earliest, NextLesson, HasLessons;
  }

  lemma SourceUnique(db: Legacy, course: CourseId, user: UserId, a: Option<AssignmentId>, b: Option<AssignmentId>)
    requires SourceIs(db, course, user, a) && SourceIs(db, course, user, b)
    ensures a == b
  {
  }

  lemma CurrentUnique(db: Legacy, version: VersionId, done: seq<LessonId>, a: Option<LessonId>, b: Option<LessonId>)
    requires CurrentIs(db, version, done, a) && CurrentIs(db, version, done, b)
    ensures a == b
  {
  }

  /** The one enrollment of a progress row on a course with a first version, value by value. */
  lemma ProjectionExactly(db: Legacy, p: Progress, v: Version, e: Enrollment)
    requires Schema(db) && p in db.progress && v in db.versions && v.course == p.course && v.number == 1
    ensures e in Enrollments(db) && e.course == p.course && e.user == p.user <==> Projected(db, p, v, e)
  {
    hide Schema, Enrollments, FromProgress, SourceIs, CurrentIs, Through;
    TheEnrollment(db, p, v, e);
    FromProgressIsProjected(db, p, v);
    if Projected(db, p, v, e) {
      var own := FromProgress(db, p, v);
      SourceUnique(db, p.course, p.user, e.source, own.source);
      CurrentUnique(db, v.id, p.completed, e.current, own.current);
    }
  }

  // ----- enrollments from assignments -----

  lemma {:induction false} NotEnrolledHas(db: Legacy, rows: seq<Member>, existing: seq<Enrollment>, e: Enrollment)
    ensures e in NotEnrolled(db, rows, existing) <==>
      exists m :: m in rows && Count(existing, m.assignment.course, m.user) == 0 && e == FromAssignment(db, m)
  {
    if rows != [] {
      var rest, last := rows[..|rows| - 1], rows[|rows| - 1];
      assert rows == rest + [last];
      hide FromAssignment, Count;
      NotEnrolledHas(db, rest, existing, e);
    }
  }

  lemma {:induction false} KeptHas(rows: seq<Member>, n: nat, m: Member)
    requires n <= |rows|
    ensures m in DistinctOn(rows, n) <==> exists i :: 0 <= i < n && rows[i] == m && Keeps(rows, i)
  {
    if n > 0 {
      hide Keeps;
      KeptHas(rows, n - 1, m);
    }
  }

  lemma BestIsKept(rows: seq<Member>, course: CourseId, user: UserId, j: nat) returns (b: nat)
    requires j < |rows| && SameKey(rows[j], course, user)
    ensures b < |rows| && SameKey(rows[b], course, user) && Keeps(rows, b)
  {
    assert rows[..|rows|] == rows;
    if CountMembers(rows, course, user) == 0 { NoneCounted(rows, course, user, j); }
    b := BestRow(rows, |rows|, course, user);
  }

  /** DISTINCT ON keeps, for each course and user, the member of the first assignment that reaches them. */
  lemma KeptIsFirst(db: Legacy, m: Member)
    requires Schema(db)
    ensures var rows := Members(db.assignments);
      m in DistinctOn(rows, |rows|) <==> FirstAssignment(db, m.assignment.course, m.user, m.assignment)
  {
    var rows, course, user := Members(db.assignments), m.assignment.course, m.user;
    KeptHas(rows, |rows|, m);
    MembersAre(db.assignments, m);
    if m in DistinctOn(rows, |rows|) {
      var i :| 0 <= i < |rows| && rows[i] == m && Keeps(rows, i);
      assert m in rows;
      KeptBeatsAll(db, i);
    }
    if FirstAssignment(db, course, user, m.assignment) {
      var j :| 0 <= j < |rows| && rows[j] == m;
      var b := BestIsKept(rows, course, user, j);
      assert rows[b] in rows;
      MembersAre(db.assignments, rows[b]);
      KeptBeatsAll(db, b);
      SameAssignment(db, rows[b].assignment, m.assignment);
    }
  }

  lemma KeptBeatsAll(db: Legacy, i: nat)
    requires i < |Members(db.assignments)| && Keeps(Members(db.assignments), i)
    ensures var m := Members(db.assignments)[i]; FirstAssignment(db, m.assignment.course, m.user, m.assignment)
  {
    var rows := Members(db.assignments);
    var m := rows[i];
    assert m in rows;
    MembersAre(db.assignments, m);
    forall o | o in db.assignments && o.course == m.assignment.course && m.user in o.members && o.kind != ToExternal
      ensures m.assignment.created < o.created || (m.assignment.created == o.created && m.assignment.id <= o.id)
    {
      MembersAre(db.assignments, Member(o, m.user));
      var j :| 0 <= j < |rows| && rows[j] == Member(o, m.user);
      if j != i { assert Beats(rows, i, j); }
    }
  }

  lemma SameAssignment(db: Legacy, a: Assignment, b: Assignment)
    requires Schema(db) && a in db.assignments && b in db.assignments && a.id == b.id
    ensures a == b
  {
    var i :| 0 <= i < |db.assignments| && db.assignments[i] == a;
    var j :| 0 <= j < |db.assignments| && db.assignments[j] == b;
    assert i == j;
  }

  lemma FromAssignmentIsAssigned(db: Legacy, m: Member, e: Enrollment)
    ensures e == FromAssignment(db, m) <==> Assigned(db, m.assignment, m.user, e)
  {
    NextIsFirst(db, m.assignment.version, []);
    var current := IdOf(NextLesson(db.lessons, m.assignment.version, []));
    if Assigned(db, m.assignment, m.user, e) { CurrentUnique(db, m.assignment.version, [], e.current, current); }
    hide CurrentIs, NextLesson;
  }

  lemma {:induction false} CountsSome(es: seq<Enrollment>, e: Enrollment)
    requires e in es
    ensures Count(es, e.course, e.user) > 0
  {
    var i :| 0 <= i < |es| && es[i] == e;
    CountedOnce(es, i, e.course, e.user);
  }

  /** Without progress on a course with a first version, the enrollment is the first assignment's. */
  lemma AssignedExactly(db: Legacy, course: CourseId, user: UserId, e: Enrollment)
    requires Schema(db)
    requires forall p, v :: p in db.progress && v in db.versions && v.course == p.course && v.number == 1 ==> p.course != course || p.user != user
    ensures e in Enrollments(db) && e.course == course && e.user == user <==>
      exists a :: FirstAssignment(db, course, user, a) && Assigned(db, a, user, e)
  {
    var first, rows := ProgressEnrollments(db, db.progress), Members(db.assignments);
    var kept := DistinctOn(rows, |rows|);
    OneFromProgress(db, db.progress, course, user);
    if HasProgress(db.progress, course, user) && HasFirstVersion(db.versions, course) {
      var p, v := ProgressRow(db, course, user);
    }
    assert Count(first, course, user) == 0;
    NotEnrolledHas(db, kept, first, e);
    hide Schema, Count, FirstAssignment, Assigned, FromAssignment, ProgressEnrollments, NotEnrolled, DistinctOn, Members, HasProgress, HasFirstVersion;
    if e in Enrollments(db) && e.course == course && e.user == user {
      if e in first { CountsSome(first, e); }
      var m :| m in kept && e == FromAssignment(db, m);
      AssignedKey(db, m);
      KeptIsFirst(db, m);
      FromAssignmentIsAssigned(db, m, e);
    }
    if a :| FirstAssignment(db, course, user, a) && Assigned(db, a, user, e) {
      var m := Member(a, user);
      FirstHasCourse(db, course, user, a);
      KeptIsFirst(db, m);
      FromAssignmentIsAssigned(db, m, e);
      AssignedKey(db, m);
    }
  }

  lemma FirstHasCourse(db: Legacy, course: CourseId, user: UserId, a: Assignment)
    requires FirstAssignment(db, course, user, a)
    ensures a.course == course
  {
  }

  lemma AssignedKey(db: Legacy, m: Member)
    ensures FromAssignment(db, m).course == m.assignment.course && FromAssignment(db, m).user == m.user
  {
  }

  lemma ProgressRow(db: Legacy, course: CourseId, user: UserId) returns (p: Progress, v: Version)
    requires HasProgress(db.progress, course, user) && HasFirstVersion(db.versions, course)
    ensures p in db.progress && v in db.versions && v.course == p.course == course && v.number == 1 && p.user == user
  {
    var i :| 0 <= i < |db.progress| && db.progress[i].course == course && db.progress[i].user == user;
    var j :| 0 <= j < |db.versions| && IsFirstVersion(db.versions[j], course);
    p, v := db.progress[i], db.versions[j];
  }

  // ----- lesson rows -----

  /** The row of lesson l for a learner who has begun. */
  ghost predicate RowIs(db: Legacy, p: Progress, v: Version, l: Lesson, row: LessonRow) {
    var done, current := l.id in p.completed, FirstOpen(db, v.id, p.completed, l);
    && row.course == p.course && row.user == p.user && row.lesson == l.id
    && row.status == (if done then LessonCompleted else if current then LessonCurrent else LessonAvailable)
    && row.firstOpened == (if done || current then p.started else None)
    && row.completedAt == if done then Some(LastTime(p, v)) else None
  }

  /** Does lesson l of the version get a row: the learner has begun, and a sequential version shows done and current lessons only. */
  ghost predicate Shown(db: Legacy, p: Progress, v: Version, l: Lesson) {
    Begun(p) && l in db.lessons && l.version == v.id && (!v.sequential || l.id in p.completed || FirstOpen(db, v.id, p.completed, l))
  }

  lemma CurrentExactly(db: Legacy, p: Progress, v: Version, l: Lesson)
    requires Schema(db) && l in db.lessons && l.version == v.id
    ensures FromProgress(db, p, v).current == Some(l.id) <==> FirstOpen(db, v.id, p.completed, l)
  {
    var current := FromProgress(db, p, v).current;
    NextIsFirst(db, v.id, p.completed);
    assert current == IdOf(NextLesson(db.lessons, v.id, p.completed));
    hide FromProgress, NextLesson;
    if FirstOpen(db, v.id, p.completed, l) {
      assert CurrentIs(db, v.id, p.completed, Some(l.id));
      CurrentUnique(db, v.id, p.completed, current, Some(l.id));
    }
    if current == Some(l.id) {
      var c :| FirstOpen(db, v.id, p.completed, c) && c.id == l.id;
      hide Schema;
      OneLesson(db, c, l);
    }
  }

  lemma BegunExactly(db: Legacy, p: Progress, v: Version)
    ensures FromProgress(db, p, v).stage != NotBegun <==> Begun(p)
  {
    FromProgressIsProjected(db, p, v);
    hide FromProgress, SourceIs, CurrentIs;
    if Through(db, v, p.completed) { assert p.completed != []; }
  }

  lemma RowIsExactly(db: Legacy, p: Progress, v: Version, l: Lesson, row: LessonRow)
    requires Schema(db) && p in db.progress && v in db.versions && l in db.lessons && l.version == v.id
    ensures row == RowFor(db, FromProgress(db, p, v), l) <==> RowIs(db, p, v, l, row)
  {
    var e := FromProgress(db, p, v);
    HasRowExactly(db, p, v, l);
    CurrentExactly(db, p, v, l);
    FromProgressIsProjected(db, p, v);
    hide FromProgress, FirstOpen, SourceIs, CurrentIs, Through, DoneOf, HasRow, Schema;
  }

  /** The lesson rows of a progress row's enrollment, value by value. */
  lemma LessonRowsExactly(db: Legacy, p: Progress, v: Version, row: LessonRow)
    requires Schema(db) && p in db.progress && v in db.versions && v.course == p.course && v.number == 1
    ensures row in LessonRows(db) && row.course == p.course && row.user == p.user <==>
      exists l :: Shown(db, p, v, l) && RowIs(db, p, v, l, row)
  {
    var own := FromProgress(db, p, v);
    RowsForHas(db, Enrollments(db), row);
    BegunExactly(db, p, v);
    TheEnrollment(db, p, v, own);
    hide Schema, Enrollments, FromProgress, RowFor, HasRow, FirstOpen, RowsFor;
    if row in LessonRows(db) && row.course == p.course && row.user == p.user {
      var e, l :| e in Enrollments(db) && l in db.lessons && HasRow(db, e, l) && row == RowFor(db, e, l);
      RowKey(db, e, l);
      TheEnrollment(db, p, v, e);
      HasRowExactly(db, p, v, l);
      CurrentExactly(db, p, v, l);
      RowIsExactly(db, p, v, l, row);
      assert Shown(db, p, v, l);
    }
    if l :| Shown(db, p, v, l) && RowIs(db, p, v, l, row) {
      HasRowExactly(db, p, v, l);
      CurrentExactly(db, p, v, l);
      RowIsExactly(db, p, v, l, row);
    }
  }

  lemma RowKey(db: Legacy, e: Enrollment, l: Lesson)
    ensures RowFor(db, e, l).course == e.course && RowFor(db, e, l).user == e.user
  {
  }
}

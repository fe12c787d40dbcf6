/**
 * Reconciling a company's users with a snapshot of its amoCRM account.
 *
 * Only what the reconciliation decides on is modelled: identity, e-mail, the tombstone,
 * and the three ways in (sessions, password, access link). A user comes from amoCRM
 * exactly when it has an external id (users_external_identity_check).
 */
module AmoSync {
  import opened Prelude
  import opened Strings

  type UserId = nat
  type ExternalId = string
  type Email = string

  datatype User = User(external: Option<ExternalId>, email: Email, deleted: bool)

  datatype Employee = Employee(id: ExternalId, email: Email)

  /** The unique indexes on (company, external id) and (company, e-mail). */
  ghost predicate Schema(users: map<UserId, User>) {
    && (forall u, v :: u in users && v in users && users[u].email == users[v].email ==> u == v)
    && forall u, v :: u in users && v in users && users[u].external.Some? && users[u].external == users[v].external ==> u == v
  }

  /** What the normalisation of the snapshot establishes. */
  ghost predicate IsSnapshot(snapshot: seq<Employee>) {
    forall i, j :: 0 <= i < j < |snapshot| ==> snapshot[i].id != snapshot[j].id && snapshot[i].email != snapshot[j].email
  }

  ghost predicate Present(snapshot: seq<Employee>, id: ExternalId) {
    exists i :: 0 <= i < |snapshot| && snapshot[i].id == id
  }

  // ----- the lookup -----

  predicate LocalMatch(users: map<UserId, User>, e: Employee, u: UserId) {
    u in users && users[u].external.None? && users[u].email == e.email
  }

  predicate IdMatch(users: map<UserId, User>, e: Employee, u: UserId) {
    u in users && users[u].external == Some(e.id)
  }

  predicate OtherMatch(users: map<UserId, User>, e: Employee, u: UserId) {
    u in users && users[u].external.Some? && users[u].external != Some(e.id) && users[u].email == e.email
  }

  /**
   * FindUserForAmoSync: ORDER BY (external_id = $id) DESC puts NULL before true before
   * false, so a local user with the e-mail comes before the user with the id, and that
   * one before another amoCRM user with the e-mail.
   */
  ghost predicate IsLookup(users: map<UserId, User>, e: Employee, r: Option<UserId>) {
    if exists u :: LocalMatch(users, e, u) then r.Some? && LocalMatch(users, e, r.value)
    else if exists u :: IdMatch(users, e, u) then r.Some? && IdMatch(users, e, r.value)
    else if exists u :: OtherMatch(users, e, u) then r.Some? && OtherMatch(users, e, r.value)
    else r.None?
  }

  ghost function Lookup(users: map<UserId, User>, e: Employee): (r: Option<UserId>)
    ensures IsLookup(users, e, r)
  {
    if u :| LocalMatch(users, e, u) then Some(u)
    else if u :| IdMatch(users, e, u) then Some(u)
    else if u :| OtherMatch(users, e, u) then Some(u)
    else None
  }

  /** The unique indexes leave at most one row of each kind. */
  lemma LookupUnique(users: map<UserId, User>, e: Employee, r: Option<UserId>)
    requires Schema(users) && IsLookup(users, e, r)
    ensures r == Lookup(users, e)
  {
  }

  method FindUserForAmoSync(users: map<UserId, User>, e: Employee) returns (r: Option<UserId>)
    requires Schema(users)
    ensures r == Lookup(users, e)
    ensures IsAnswer(users, e, r)
  {
    if u :| u in users && LocalMatch(users, e, u) {
      r := Some(u);
    } else if u :| u in users && IdMatch(users, e, u) {
      r := Some(u);
    } else if u :| u in users && OtherMatch(users, e, u) {
      r := Some(u);
    } else {
      r := None;
    }
    LookupUnique(users, e, r);
    UnknownExactly(users, e);
    if r.Some? && users[r.value].external.Some? { ResolvesExactly(users, e, r.value); }
  }

  // ----- the lookup, said of ids and e-mails alone -----

  ghost predicate NoLocal(users: map<UserId, User>, email: Email) {
    forall u :: u in users && users[u].external.None? ==> users[u].email != email
  }

  ghost predicate NoId(users: map<UserId, User>, id: ExternalId) { forall u :: u in users ==> users[u].external != Some(id) }

  /** Nobody has the employee's id or e-mail. */
  ghost predicate Unknown(users: map<UserId, User>, e: Employee) {
    forall u :: u in users ==> users[u].external != Some(e.id) && users[u].email != e.email
  }

  /** The employee resolves to the user from amoCRM: by id if no local user has the e-mail, by e-mail if nobody has the id. */
  ghost predicate Resolves(users: map<UserId, User>, e: Employee, u: UserId)
    requires u in users
  {
    || (users[u].external == Some(e.id) && NoLocal(users, e.email))
    || (users[u].external.Some? && users[u].email == e.email && NoId(users, e.id))
  }

  /** Nobody, a local user with the e-mail, or a user from amoCRM the employee resolves to. */
  ghost predicate IsAnswer(users: map<UserId, User>, e: Employee, r: Option<UserId>) {
    && (r.None? <==> Unknown(users, e))
    && (r.Some? ==>
          && r.value in users
          && if users[r.value].external.None? then users[r.value].email == e.email else Resolves(users, e, r.value))
  }

  lemma UnknownExactly(users: map<UserId, User>, e: Employee)
    ensures Lookup(users, e).None? <==> Unknown(users, e)
  {
    assert forall u :: u in users ==>
      (LocalMatch(users, e, u) || IdMatch(users, e, u) || OtherMatch(users, e, u) <==> users[u].external == Some(e.id) || users[u].email == e.email);
  }

  lemma ResolvesExactly(users: map<UserId, User>, e: Employee, u: UserId)
    requires Schema(users) && u in users && users[u].external.Some?
    ensures Lookup(users, e) == Some(u) <==> Resolves(users, e, u)
  {
    NoMatches(users, e);
    hide Schema, NoLocal, NoId;
    if users[u].external == Some(e.id) && NoLocal(users, e.email) {
      assert IdMatch(users, e, u);
      LookupUnique(users, e, Some(u));
    }
    if users[u].external.Some? && users[u].email == e.email && NoId(users, e.id) {
      assert !IdMatch(users, e, u) && OtherMatch(users, e, u);
      OnlyOneEmail(users, e, u);
      LookupUnique(users, e, Some(u));
    }
  }

  lemma NoMatches(users: map<UserId, User>, e: Employee)
    ensures NoLocal(users, e.email) <==> forall v :: !LocalMatch(users, e, v)
    ensures NoId(users, e.id) <==> forall v :: !IdMatch(users, e, v)
  {
    assert forall v :: v in users && users[v].external.None? && users[v].email == e.email ==> LocalMatch(users, e, v);
    assert forall v :: v in users && users[v].external == Some(e.id) ==> IdMatch(users, e, v);
  }

  lemma OnlyOneEmail(users: map<UserId, User>, e: Employee, u: UserId)
    requires Schema(users) && u in users && users[u].external.Some? && users[u].email == e.email
    ensures forall v :: !LocalMatch(users, e, v)
  {
  }

  // ----- what a reconciliation does -----

  /** Some employee of the snapshot resolves to this user. */
  ghost predicate Found(users: map<UserId, User>, snapshot: seq<Employee>, u: UserId) {
    exists k :: 0 <= k < |snapshot| && Lookup(users, snapshot[k]) == Some(u)
  }

  /** A user from amoCRM who is neither tombstoned nor in the snapshot. */
  ghost predicate Leaves(users: map<UserId, User>, snapshot: seq<Employee>, u: UserId) {
    u in users && users[u].external.Some? && !users[u].deleted && !Present(snapshot, users[u].external.value)
  }

  ghost predicate DeletedAfter(users: map<UserId, User>, snapshot: seq<Employee>, u: UserId)
    requires u in users
  {
    if users[u].external.None? then users[u].deleted
    else if users[u].deleted then !Found(users, snapshot, u)
    else Leaves(users, snapshot, u)
  }

  function NewUser(e: Employee): User { User(Some(e.id), e.email, false) }

  /** A committed reconciliation, as a relation between the users before and after. */
  ghost predicate IsSync(users: map<UserId, User>, snapshot: seq<Employee>, users': map<UserId, User>) {
    && Schema(users')
    && (forall u :: u in users ==> u in users' && users'[u] == users[u].(deleted := DeletedAfter(users, snapshot, u)))
    && (forall u :: u in users' && u !in users ==>
          exists k :: 0 <= k < |snapshot| && Lookup(users, snapshot[k]).None? && users'[u] == NewUser(snapshot[k]))
    && (forall k :: 0 <= k < |snapshot| && Lookup(users, snapshot[k]).None? ==> Created(users, users', snapshot[k]))
  }

  ghost predicate Created(users: map<UserId, User>, users': map<UserId, User>, e: Employee) {
    exists u :: u in users' && u !in users && users'[u] == NewUser(e)
  }

  /** What becomes of one user: local ones stay, live ones stay exactly while in the snapshot, tombstoned ones return exactly when reached. */
  ghost predicate RowAfter(users: map<UserId, User>, snapshot: seq<Employee>, u: UserId, row: User)
    requires u in users
  {
    && row.external == users[u].external && row.email == users[u].email
    && row.deleted ==
       if users[u].external.None? then users[u].deleted
       else if users[u].deleted then forall k :: 0 <= k < |snapshot| ==> !Resolves(users, snapshot[k], u)
       else forall k :: 0 <= k < |snapshot| ==> Some(snapshot[k].id) != users[u].external
  }

  /** A reconciliation, said of ids and e-mails alone. */
  ghost predicate Reconciled(users: map<UserId, User>, snapshot: seq<Employee>, users': map<UserId, User>) {
    && (forall u :: u in users ==> u in users' && RowAfter(users, snapshot, u, users'[u]))
    && (forall u :: u in users' && u !in users ==>
          exists k :: 0 <= k < |snapshot| && Unknown(users, snapshot[k]) && users'[u] == User(Some(snapshot[k].id), snapshot[k].email, false))
    && (forall k :: 0 <= k < |snapshot| && Unknown(users, snapshot[k]) ==> HasNewRow(users, users', snapshot[k]))
  }

  ghost predicate HasNewRow(users: map<UserId, User>, users': map<UserId, User>, e: Employee) {
    exists u :: u in users' && u !in users && users'[u] == User(Some(e.id), e.email, false)
  }

  lemma RowAfterExactly(users: map<UserId, User>, snapshot: seq<Employee>, u: UserId)
    requires Schema(users) && u in users
    ensures RowAfter(users, snapshot, u, users[u].(deleted := DeletedAfter(users, snapshot, u)))
  {
    hide Schema, Resolves;
    if users[u].external.Some? {
      forall k | 0 <= k < |snapshot| ensures Lookup(users, snapshot[k]) == Some(u) <==> Resolves(users, snapshot[k], u) {
        ResolvesExactly(users, snapshot[k], u);
      }
    }
  }

  /** Every committed reconciliation is one. */
  lemma SyncReconciles(users: map<UserId, User>, snapshot: seq<Employee>, users': map<UserId, User>)
    requires Schema(users) && IsSync(users, snapshot, users')
    ensures Reconciled(users, snapshot, users')
  {
    hide Schema, DeletedAfter, RowAfter, Unknown, Created, IsLookup;
    forall u | u in users ensures u in users' && RowAfter(users, snapshot, u, users'[u]) { RowAfterExactly(users, snapshot, u); }
    forall e ensures Lookup(users, e).None? <==> Unknown(users, e) { UnknownExactly(users, e); }
    forall k | 0 <= k < |snapshot| && Unknown(users, snapshot[k]) ensures HasNewRow(users, users', snapshot[k]) {
      CreatedIsNewRow(users, users', snapshot[k]);
    }
  }

  lemma CreatedIsNewRow(users: map<UserId, User>, users': map<UserId, User>, e: Employee)
    requires Created(users, users', e)
    ensures HasNewRow(users, users', e)
  {
  }

  // ----- lookups do not disturb each other -----

  /** users' adds to users only rows that match neither the id nor the e-mail of e. */
  ghost predicate SameFor(users: map<UserId, User>, users': map<UserId, User>, e: Employee) {
    && (forall u :: u in users ==> u in users' && users'[u].external == users[u].external && users'[u].email == users[u].email)
    && (forall u :: u in users' && u !in users ==> users'[u].external.Some? && users'[u].external.value != e.id && users'[u].email != e.email)
  }

  lemma LookupStable(users: map<UserId, User>, users': map<UserId, User>, e: Employee)
    requires Schema(users) && Schema(users') && SameFor(users, users', e)
    ensures Lookup(users', e) == Lookup(users, e)
  {
    forall u ensures LocalMatch(users', e, u) == LocalMatch(users, e, u)
      ensures IdMatch(users', e, u) == IdMatch(users, e, u)
      ensures OtherMatch(users', e, u) == OtherMatch(users, e, u)
    {
    }
    LookupUnique(users', e, Lookup(users, e));
  }

  lemma LookupAfter(users: map<UserId, User>, snapshot: seq<Employee>, users': map<UserId, User>, k: nat)
    requires Schema(users) && IsSnapshot(snapshot) && IsSync(users, snapshot, users') && k < |snapshot|
    ensures Lookup(users, snapshot[k]).Some? ==> Lookup(users', snapshot[k]) == Lookup(users, snapshot[k])
    ensures Lookup(users, snapshot[k]).None? ==> Lookup(users', snapshot[k]).Some? && Lookup(users', snapshot[k]).value !in users
  {
    if Lookup(users, snapshot[k]).Some? { FoundStaysFound(users, snapshot, users', k); } else { NewIsFound(users, snapshot, users', k); }
  }

  lemma FoundStaysFound(users: map<UserId, User>, snapshot: seq<Employee>, users': map<UserId, User>, k: nat)
    requires Schema(users) && IsSnapshot(snapshot) && IsSync(users, snapshot, users') && k < |snapshot| && Lookup(users, snapshot[k]).Some?
    ensures Lookup(users', snapshot[k]) == Lookup(users, snapshot[k])
  {
    hide Schema, IsLookup;
    var e := snapshot[k];
    forall u | u in users' && u !in users ensures users'[u].external.Some? && users'[u].external.value != e.id && users'[u].email != e.email {
      var j :| 0 <= j < |snapshot| && Lookup(users, snapshot[j]).None? && users'[u] == NewUser(snapshot[j]);
      assert j != k;
    }
    LookupStable(users, users', e);
  }

  lemma NewIsFound(users: map<UserId, User>, snapshot: seq<Employee>, users': map<UserId, User>, k: nat)
    requires IsSync(users, snapshot, users') && k < |snapshot| && Lookup(users, snapshot[k]).None?
    ensures Lookup(users', snapshot[k]).Some? && Lookup(users', snapshot[k]).value !in users
  {
    var e := snapshot[k];
    assert Created(users, users', e);
    var u :| u in users' && u !in users && users'[u] == NewUser(e);
    assert IdMatch(users', e, u);
    assert forall v :: !LocalMatch(users', e, v);
    hide IsSync;
    LookupUnique(users', e, Some(u));
  }

  // ----- who is live afterwards -----

  /** A local user holds the e-mail of the employee with u's id, and so hides u. */
  ghost predicate Shadowed(users: map<UserId, User>, snapshot: seq<Employee>, u: UserId)
    requires u in users
  {
    exists k, v :: 0 <= k < |snapshot| && IdMatch(users, snapshot[k], u) && LocalMatch(users, snapshot[k], v)
  }

  /** An employee unknown by id carries u's e-mail, and so resolves to u. */
  ghost predicate Adopted(users: map<UserId, User>, snapshot: seq<Employee>, u: UserId) {
    exists k :: 0 <= k < |snapshot| && OtherMatch(users, snapshot[k], u) && forall v :: !IdMatch(users, snapshot[k], v)
  }

  lemma FoundExactly(users: map<UserId, User>, snapshot: seq<Employee>, u: UserId)
    requires Schema(users) && IsSnapshot(snapshot) && u in users && users[u].external.Some?
    ensures Found(users, snapshot, u) <==>
      (Adopted(users, snapshot, u) || (Present(snapshot, users[u].external.value) && !Shadowed(users, snapshot, u)))
  {
    if Found(users, snapshot, u) {
      var k :| 0 <= k < |snapshot| && Lookup(users, snapshot[k]) == Some(u);
      assert IdMatch(users, snapshot[k], u) || OtherMatch(users, snapshot[k], u);
      if IdMatch(users, snapshot[k], u) { NotShadowed(users, snapshot, u, k); }
    }
    if Adopted(users, snapshot, u) {
      var k :| 0 <= k < |snapshot| && OtherMatch(users, snapshot[k], u) && forall v :: !IdMatch(users, snapshot[k], v);
      assert forall v :: !LocalMatch(users, snapshot[k], v);
      LookupUnique(users, snapshot[k], Some(u));
    }
    if Present(snapshot, users[u].external.value) && !Shadowed(users, snapshot, u) {
      var k :| 0 <= k < |snapshot| && snapshot[k].id == users[u].external.value;
      assert IdMatch(users, snapshot[k], u);
      LookupUnique(users, snapshot[k], Some(u));
    }
  }

  lemma NotShadowed(users: map<UserId, User>, snapshot: seq<Employee>, u: UserId, k: nat)
    requires IsSnapshot(snapshot) && u in users && k < |snapshot| && IdMatch(users, snapshot[k], u)
    requires forall v :: !LocalMatch(users, snapshot[k], v)
    ensures !Shadowed(users, snapshot, u)
  {
    forall j, v | 0 <= j < |snapshot| && IdMatch(users, snapshot[j], u) ensures !LocalMatch(users, snapshot[j], v) {
      assert j == k;
    }
  }

  /**
   * The condition under which the snapshot decides who is live, on the tombstoned users
   * from amoCRM before the reconciliation: those in the snapshot can be reached by a
   * lookup, and no lookup reaches one who is not.
   */
  ghost predicate Clean(users: map<UserId, User>, snapshot: seq<Employee>) {
    forall u :: u in users && users[u].external.Some? && users[u].deleted ==>
      if Present(snapshot, users[u].external.value) then !Shadowed(users, snapshot, u) || Adopted(users, snapshot, u)
      else !Adopted(users, snapshot, u)
  }

  ghost predicate LiveIffPresent(users: map<UserId, User>, snapshot: seq<Employee>) {
    forall u :: u in users && users[u].external.Some? ==> (!users[u].deleted <==> Present(snapshot, users[u].external.value))
  }

  /** After a reconciliation a user from amoCRM is live exactly when in the snapshot, if and only if the start was clean. */
  lemma LiveExactlyInSnapshot(users: map<UserId, User>, snapshot: seq<Employee>, users': map<UserId, User>)
    requires Schema(users) && IsSnapshot(snapshot) && IsSync(users, snapshot, users')
    ensures LiveIffPresent(users', snapshot) <==> Clean(users, snapshot)
  {
    forall u | u in users && users[u].external.Some?
      ensures Found(users, snapshot, u) <==>
        (Adopted(users, snapshot, u) || (Present(snapshot, users[u].external.value) && !Shadowed(users, snapshot, u)))
    {
      FoundExactly(users, snapshot, u);
    }
    hide Found, Adopted, Shadowed, Schema, IsSnapshot;
    forall u | u in users' && u !in users ensures users'[u].external.Some? && !users'[u].deleted && Present(snapshot, users'[u].external.value) {
      var k :| 0 <= k < |snapshot| && Lookup(users, snapshot[k]).None? && users'[u] == NewUser(snapshot[k]);
    }
    if LiveIffPresent(users', snapshot) {
      forall u | u in users && users[u].external.Some? && users[u].deleted
        ensures if Present(snapshot, users[u].external.value) then !Shadowed(users, snapshot, u) || Adopted(users, snapshot, u)
                else !Adopted(users, snapshot, u)
      {
        assert users'[u].deleted == DeletedAfter(users, snapshot, u);
      }
    }
    if Clean(users, snapshot) {
      forall u | u in users' && users'[u].external.Some? ensures !users'[u].deleted <==> Present(snapshot, users'[u].external.value) {
        if u in users { assert users'[u].deleted == DeletedAfter(users, snapshot, u); }
      }
    }
  }

  // ----- the same snapshot again -----

  ghost predicate NobodyAdopted(users: map<UserId, User>, snapshot: seq<Employee>) {
    forall u :: u in users && users[u].external.Some? && Adopted(users, snapshot, u) ==> Present(snapshot, users[u].external.value)
  }

  lemma FoundAgain(users: map<UserId, User>, snapshot: seq<Employee>, users': map<UserId, User>, u: UserId)
    requires Schema(users) && IsSnapshot(snapshot) && IsSync(users, snapshot, users') && u in users
    ensures Found(users', snapshot, u) <==> Found(users, snapshot, u)
  {
    hide IsSync, Schema, IsSnapshot;
    if Found(users, snapshot, u) {
      var k :| 0 <= k < |snapshot| && Lookup(users, snapshot[k]) == Some(u);
      LookupAfter(users, snapshot, users', k);
    }
    if Found(users', snapshot, u) {
      var k :| 0 <= k < |snapshot| && Lookup(users', snapshot[k]) == Some(u);
      LookupAfter(users, snapshot, users', k);
    }
  }

  /** The second reconciliation creates nobody. */
  lemma CreatesNobody(users: map<UserId, User>, snapshot: seq<Employee>, first: map<UserId, User>, second: map<UserId, User>)
    requires Schema(users) && IsSnapshot(snapshot) && IsSync(users, snapshot, first) && IsSync(first, snapshot, second)
    ensures second.Keys == first.Keys
  {
    forall u | u in second ensures u in first {
      if u !in first {
        var k :| 0 <= k < |snapshot| && Lookup(first, snapshot[k]).None? && second[u] == NewUser(snapshot[k]);
        LookupAfter(users, snapshot, first, k);
      }
    }
  }

  /** What a second reconciliation does to one user: it flips exactly the adopted ones that are not in the snapshot. */
  lemma SecondOnUser(users: map<UserId, User>, snapshot: seq<Employee>, first: map<UserId, User>, second: map<UserId, User>, u: UserId)
    requires Schema(users) && IsSnapshot(snapshot) && IsSync(users, snapshot, first) && IsSync(first, snapshot, second) && u in first
    ensures u in second
    ensures second[u] != first[u] <==>
      u in users && users[u].external.Some? && Adopted(users, snapshot, u) && !Present(snapshot, users[u].external.value)
    ensures second[u] != first[u] ==> second[u] == first[u].(deleted := !first[u].deleted)
  {
    assert second[u] == first[u].(deleted := DeletedAfter(first, snapshot, u));
    if u in users {
      assert first[u] == users[u].(deleted := DeletedAfter(users, snapshot, u));
      FoundAgain(users, snapshot, first, u);
      if users[u].external.Some? { FoundExactly(users, snapshot, u); }
    } else {
      var k :| 0 <= k < |snapshot| && Lookup(users, snapshot[k]).None? && first[u] == NewUser(snapshot[k]);
      assert Present(snapshot, first[u].external.value);
    }
  }

  /** So the second one restores and tombstones nobody, if and only if nobody outside the snapshot is adopted. */
  lemma SecondSyncChangesNothing(users: map<UserId, User>, snapshot: seq<Employee>, first: map<UserId, User>, second: map<UserId, User>)
    requires Schema(users) && IsSnapshot(snapshot) && IsSync(users, snapshot, first) && IsSync(first, snapshot, second)
    ensures second == first <==> NobodyAdopted(users, snapshot)
  {
    CreatesNobody(users, snapshot, first, second);
    forall u | u in first
      ensures u in second && (second[u] != first[u] <==>
        (u in users && users[u].external.Some? && Adopted(users, snapshot, u) && !Present(snapshot, users[u].external.value)))
    {
      SecondOnUser(users, snapshot, first, second, u);
    }
    hide Adopted, Present, Schema, IsSnapshot;
    forall u | u in users ensures u in first {}
    hide IsSync;
    if NobodyAdopted(users, snapshot) {
      assert forall u :: u in first ==> second[u] == first[u];
    } else {
      var u :| u in users && users[u].external.Some? && Adopted(users, snapshot, u) && !Present(snapshot, users[u].external.value);
      assert second[u] != first[u];
    }
  }

  /** An adopted user outside the snapshot is tombstoned and restored in turn by every reconciliation. */
  lemma AdoptedFlips(users: map<UserId, User>, snapshot: seq<Employee>, users': map<UserId, User>, u: UserId)
    requires Schema(users) && IsSnapshot(snapshot) && IsSync(users, snapshot, users')
    requires u in users && users[u].external.Some? && Adopted(users, snapshot, u) && !Present(snapshot, users[u].external.value)
    ensures u in users' && users'[u].deleted == !users[u].deleted
  {
    FoundExactly(users, snapshot, u);
  }

  /** It happens: the account issued a new id for the same e-mail. The user is tombstoned, then restored. */
  lemma ReissuedIdFlips(first: map<UserId, User>, second: map<UserId, User>)
    requires
      var users := map[0 := User(Some("1"), "a@b", false)];
      IsSync(users, [Employee("2", "a@b")], first) && IsSync(first, [Employee("2", "a@b")], second)
    ensures 0 in first && first[0].deleted && 0 in second && !second[0].deleted
  {
    var users := map[0 := User(Some("1"), "a@b", false)];
    var snapshot := [Employee("2", "a@b")];
    assert OtherMatch(users, snapshot[0], 0) && forall v :: !IdMatch(users, snapshot[0], v);
    assert Adopted(users, snapshot, 0);
    assert !Present(snapshot, "1");
    AdoptedFlips(users, snapshot, first, 0);
    SecondOnUser(users, snapshot, first, second, 0);
  }

  /** A tombstoned amoCRM user, and a local one with the e-mail its employee now has. */
  function HiddenStart(): map<UserId, User> { map[0 := User(None, "a@b", false), 1 := User(Some("1"), "c@d", true)] }

  lemma HiddenStartIsShadowed()
    ensures
      var users, snapshot := HiddenStart(), [Employee("1", "a@b")];
      Schema(users) && IsSnapshot(snapshot) && Present(snapshot, "1") && Shadowed(users, snapshot, 1) && !Adopted(users, snapshot, 1)
  {
    var users, snapshot := HiddenStart(), [Employee("1", "a@b")];
    assert snapshot[0].id == "1";
    assert IdMatch(users, snapshot[0], 1) && LocalMatch(users, snapshot[0], 0);
  }

  /** So does the other failure: the local user keeps the tombstone of a present user in place. */
  lemma LocalUserHidesTombstone(after: map<UserId, User>)
    requires IsSync(HiddenStart(), [Employee("1", "a@b")], after)
    ensures Present([Employee("1", "a@b")], "1") && 1 in after && after[1] == User(Some("1"), "c@d", true)
  {
    var users, snapshot := HiddenStart(), [Employee("1", "a@b")];
    HiddenStartIsShadowed();
    hide Schema, IsSnapshot, Present, Shadowed, Adopted, Found;
    FoundExactly(users, snapshot, 1);
    assert after[1] == users[1].(deleted := DeletedAfter(users, snapshot, 1));
  }

  // ----- the loops -----

  /** An existing row, restored if it was tombstoned and an employee resolved to it. */
  ghost function Touched(before: map<UserId, User>, snapshot: seq<Employee>, u: UserId): User
    requires u in before
  {
    before[u].(deleted := before[u].deleted && !(before[u].external.Some? && Found(before, snapshot, u)))
  }

  /** A row created for one of the first n employees. */
  ghost predicate IsNewRow(before: map<UserId, User>, snapshot: seq<Employee>, newIds: seq<UserId>, n: nat, u: UserId, row: User)
    requires n <= |snapshot| == |newIds|
  {
    exists k :: 0 <= k < n && u == newIds[k] && Lookup(before, snapshot[k]).None? && row == NewUser(snapshot[k])
  }

  /** What the first n employees have done: restored whom they resolved to, or been created. */
  ghost predicate Imported(before: map<UserId, User>, snapshot: seq<Employee>, newIds: seq<UserId>, n: nat, users: map<UserId, User>)
    requires n <= |snapshot| == |newIds|
  {
    && Schema(users)
    && (forall u :: u in before ==> u in users && users[u] == Touched(before, snapshot[..n], u))
    && (forall u :: u in users && u !in before ==> IsNewRow(before, snapshot, newIds, n, u, users[u]))
    && (forall k :: 0 <= k < n && Lookup(before, snapshot[k]).None? ==>
          newIds[k] in users && users[newIds[k]] == NewUser(snapshot[k]))
  }

  ghost predicate AreNew(before: map<UserId, User>, newIds: seq<UserId>) {
    && (forall k :: 0 <= k < |newIds| ==> newIds[k] !in before)
    && forall j, k :: 0 <= j < k < |newIds| ==> newIds[j] != newIds[k]
  }

  lemma FoundOneMore(before: map<UserId, User>, snapshot: seq<Employee>, n: nat, u: UserId)
    requires n < |snapshot|
    ensures Found(before, snapshot[..n + 1], u) <==> Found(before, snapshot[..n], u) || Lookup(before, snapshot[n]) == Some(u)
  {
    var a, b := snapshot[..n], snapshot[..n + 1];
    assert b[n] == snapshot[n] && forall k :: 0 <= k < n ==> a[k] == b[k];
    if Found(before, a, u) {
      var k :| 0 <= k < |a| && Lookup(before, a[k]) == Some(u);
      assert Lookup(before, b[k]) == Some(u);
    }
  }

  lemma StableWhileImporting(before: map<UserId, User>, snapshot: seq<Employee>, newIds: seq<UserId>, n: nat, users: map<UserId, User>)
    requires Schema(before) && IsSnapshot(snapshot) && |newIds| == |snapshot| && n < |snapshot|
    requires Imported(before, snapshot, newIds, n, users)
    ensures Lookup(users, snapshot[n]) == Lookup(before, snapshot[n])
  {
    LookupStable(before, users, snapshot[n]);
  }

  lemma TouchedOneMore(before: map<UserId, User>, snapshot: seq<Employee>, n: nat, u: UserId)
    requires n < |snapshot| && u in before
    ensures Touched(before, snapshot[..n + 1], u) ==
      if Lookup(before, snapshot[n]) == Some(u) && before[u].external.Some? then before[u].(deleted := false)
      else Touched(before, snapshot[..n], u)
  {
    FoundOneMore(before, snapshot, n, u);
  }

  lemma NewRowStays(before: map<UserId, User>, snapshot: seq<Employee>, newIds: seq<UserId>, n: nat, u: UserId, row: User)
    requires n < |snapshot| == |newIds| && IsNewRow(before, snapshot, newIds, n, u, row)
    ensures IsNewRow(before, snapshot, newIds, n + 1, u, row)
  {
  }

  /** The employee resolved to u, who is restored if tombstoned. */
  lemma ImportFound(before: map<UserId, User>, snapshot: seq<Employee>, newIds: seq<UserId>, n: nat, users: map<UserId, User>, u: UserId)
    requires |newIds| == |snapshot| && n < |snapshot| && AreNew(before, newIds)
    requires Imported(before, snapshot, newIds, n, users) && Lookup(before, snapshot[n]) == Some(u) && u in before
    ensures u in users
    ensures Imported(before, snapshot, newIds, n + 1, if users[u].external.Some? && users[u].deleted then users[u := users[u].(deleted := false)] else users)
  {
    hide IsLookup, Schema, IsNewRow, Found;
    var users' := if users[u].external.Some? && users[u].deleted then users[u := users[u].(deleted := false)] else users;
    SchemaKept(users, users');
    assert users[u].external == before[u].external by { assert users[u] == Touched(before, snapshot[..n], u); }
    assert forall k :: 0 <= k < |newIds| ==> newIds[k] != u;
    forall v | v in before ensures users'[v] == Touched(before, snapshot[..n + 1], v) {
      TouchedOneMore(before, snapshot, n, v);
    }
    hide Touched;
    forall v | v in users' && v !in before ensures IsNewRow(before, snapshot, newIds, n + 1, v, users'[v]) {
      NewRowStays(before, snapshot, newIds, n, v, users[v]);
    }
  }

  lemma ImportCreated(before: map<UserId, User>, snapshot: seq<Employee>, newIds: seq<UserId>, n: nat, users: map<UserId, User>)
    requires IsSnapshot(snapshot) && |newIds| == |snapshot| && n < |snapshot| && AreNew(before, newIds)
    requires Imported(before, snapshot, newIds, n, users) && Lookup(before, snapshot[n]).None? && Lookup(users, snapshot[n]).None?
    ensures newIds[n] !in users && Imported(before, snapshot, newIds, n + 1, users[newIds[n] := NewUser(snapshot[n])])
  {
    hide IsLookup, Schema, IsSnapshot, Found;
    CreationIsUnique(users, snapshot[n], newIds[n]);
    var users' := users[newIds[n] := NewUser(snapshot[n])];
    assert newIds[n] !in users;
    forall v | v in before ensures users'[v] == Touched(before, snapshot[..n + 1], v) {
      TouchedOneMore(before, snapshot, n, v);
    }
    hide Touched;
    forall v | v in users' && v !in before ensures IsNewRow(before, snapshot, newIds, n + 1, v, users'[v]) {
      if v != newIds[n] { NewRowStays(before, snapshot, newIds, n, v, users[v]); }
    }
  }

  /** An employee nobody resolves to clashes with no unique index. */
  lemma CreationIsUnique(users: map<UserId, User>, e: Employee, u: UserId)
    requires Schema(users) && Lookup(users, e).None?
    ensures Schema(users[u := NewUser(e)])
  {
    assert IsLookup(users, e, None);
    forall v | v in users ensures users[v].email != e.email && users[v].external != Some(e.id) {
      assert !LocalMatch(users, e, v) && !IdMatch(users, e, v) && !OtherMatch(users, e, v);
    }
  }

  /** Tombstones are no part of the unique indexes. */
  lemma SchemaKept(users: map<UserId, User>, users': map<UserId, User>)
    requires Schema(users) && users'.Keys == users.Keys
    requires forall u :: u in users ==> users'[u].external == users[u].external && users'[u].email == users[u].email
    ensures Schema(users')
  {
  }

  /** A company's users and their ways in. */
  class Directory {
    var users: map<UserId, User>
    var sessions: set<UserId>
    var credentials: set<UserId>
    var links: set<UserId>

    /** The loop over the employees of the snapshot; newIds are the ids drawn for users to create. */
    method Import(snapshot: seq<Employee>, newIds: seq<UserId>)
      requires Schema(users) && IsSnapshot(snapshot) && |newIds| == |snapshot| && AreNew(users, newIds)
      modifies this`users
      ensures Imported(old(users), snapshot, newIds, |snapshot|, users)
    {
      ghost var before := users;
      assert Imported(before, snapshot, newIds, 0, users);
      hide Imported, IsSnapshot, AreNew, Schema, IsLookup, LocalMatch, IdMatch, OtherMatch, IsAnswer;
      for n := 0 to |snapshot|
        invariant Schema(users) && Imported(before, snapshot, newIds, n, users)
      {
        ImportedKeeps(before, snapshot, newIds, n, users);
        StableWhileImporting(before, snapshot, newIds, n, users);
        var existing := FindUserForAmoSync(users, snapshot[n]);
        if existing.Some? {
          var u := existing.value;
          LookupInTable(before, snapshot[n]);
          ImportFound(before, snapshot, newIds, n, users, u);
          if users[u].external.Some? && users[u].deleted {
            users := users[u := users[u].(deleted := false)];
          }
        } else {
          ImportCreated(before, snapshot, newIds, n, users);
          users := users[newIds[n] := NewUser(snapshot[n])];
        }
        ImportedKeeps(before, snapshot, newIds, n + 1, users);
      }
    }

    /** One user who left: tombstone, sessions, password, access link. */
    method Deactivate(u: UserId)
      requires u in users
      modifies this
      ensures users == old(users)[u := old(users)[u].(deleted := true)]
      ensures sessions == old(sessions) - {u} && credentials == old(credentials) - {u} && links == old(links) - {u}
    {
      users := users[u := users[u].(deleted := true)];
      sessions := sessions - {u};
      credentials := credentials - {u};
      links := links - {u};
    }

    /** The loop over the users from amoCRM as they were read before the import. */
    method Tombstone(snapshot: seq<Employee>, amoUsers: map<UserId, User>)
      requires forall u :: u in amoUsers ==> u in users && amoUsers[u].external.Some?
      modifies this
      ensures users.Keys == old(users.Keys)
      ensures forall u :: u in users ==> users[u] == old(users)[u].(deleted := old(users)[u].deleted || Leaves(amoUsers, snapshot, u))
      ensures forall u :: u in sessions <==> u in old(sessions) && !Leaves(amoUsers, snapshot, u)
      ensures forall u :: u in credentials <==> u in old(credentials) && !Leaves(amoUsers, snapshot, u)
      ensures forall u :: u in links <==> u in old(links) && !Leaves(amoUsers, snapshot, u)
    {
      var ids := set i | 0 <= i < |snapshot| :: snapshot[i].id;
      ghost var leaving := set u | u in amoUsers && amoUsers[u].external.value !in ids && !amoUsers[u].deleted;
      assert forall u :: u in leaving <==> Leaves(amoUsers, snapshot, u);
      hide Leaves, Present;
      var todo := amoUsers.Keys;
      while todo != {}
        invariant todo <= amoUsers.Keys && users.Keys == old(users.Keys)
        invariant forall u :: u in users ==> users[u] == old(users)[u].(deleted := old(users)[u].deleted || u in leaving - todo)
        invariant sessions == old(sessions) - (leaving - todo)
        invariant credentials == old(credentials) - (leaving - todo)
        invariant links == old(links) - (leaving - todo)
      {
        var u :| u in todo;
        if amoUsers[u].external.value !in ids && !amoUsers[u].deleted {
          assert leaving - (todo - {u}) == (leaving - todo) + {u};
          Deactivate(u);
        } else {
          assert leaving - (todo - {u}) == leaving - todo;
        }
        todo := todo - {u};
      }
      assert leaving - todo == leaving;
    }

    /**
     * syncAmoUsersNow inside its serializable transaction. Exactly the users who left are
     * newly tombstoned, and they lose their sessions, password and access link; nobody
     * else's ways in change.
     */
    method SyncNow(snapshot: seq<Employee>, newIds: seq<UserId>)
      requires Schema(users) && IsSnapshot(snapshot) && |newIds| == |snapshot| && AreNew(users, newIds)
      modifies this
      ensures IsSync(old(users), snapshot, users) && Reconciled(old(users), snapshot, users)
      ensures forall u :: u in old(users) && !old(users)[u].deleted ==> (users[u].deleted <==> Leaves(old(users), snapshot, u))
      ensures forall u :: u in sessions <==> u in old(sessions) && !Leaves(old(users), snapshot, u)
      ensures forall u :: u in credentials <==> u in old(credentials) && !Leaves(old(users), snapshot, u)
      ensures forall u :: u in links <==> u in old(links) && !Leaves(old(users), snapshot, u)
    {
      ghost var before := users;
      var amoUsers := map u | u in users && users[u].external.Some? :: users[u];
      assert forall u :: Leaves(amoUsers, snapshot, u) == Leaves(before, snapshot, u);
      Import(snapshot, newIds);
      ghost var mid := users;
      Tombstone(snapshot, amoUsers);
      SyncedIsSync(before, snapshot, newIds, mid, users);
      hide Imported, Leaves, AreNew, Schema, IsSync, Reconciled;
      SyncReconciles(before, snapshot, users);
    }
  }

  lemma LookupInTable(users: map<UserId, User>, e: Employee)
    requires Lookup(users, e).Some?
    ensures Lookup(users, e).value in users
  {
  }

  lemma ImportedKeeps(before: map<UserId, User>, snapshot: seq<Employee>, newIds: seq<UserId>, n: nat, users: map<UserId, User>)
    requires n <= |snapshot| == |newIds| && Imported(before, snapshot, newIds, n, users)
    ensures Schema(users) && before.Keys <= users.Keys
  {
  }

  lemma SyncedIsSync(before: map<UserId, User>, snapshot: seq<Employee>, newIds: seq<UserId>, mid: map<UserId, User>, after: map<UserId, User>)
    requires |newIds| == |snapshot| && AreNew(before, newIds) && Imported(before, snapshot, newIds, |snapshot|, mid)
    requires after.Keys == mid.Keys
    requires forall u :: u in after ==> after[u] == mid[u].(deleted := mid[u].deleted || Leaves(before, snapshot, u))
    ensures IsSync(before, snapshot, after)
    ensures forall u :: u in before && !before[u].deleted ==> (after[u].deleted <==> Leaves(before, snapshot, u))
  {
    hide Imported, Leaves, AreNew, Schema, DeletedAfter, Created, Found, Present, NewUser, IsLookup;
    ImportedKeeps(before, snapshot, newIds, |snapshot|, mid);
    OldRowsSynced(before, snapshot, newIds, mid, after);
    NewRowsSynced(before, snapshot, newIds, mid, after);
    forall u | u in mid ensures after[u].external == mid[u].external && after[u].email == mid[u].email {
      assert after[u] == mid[u].(deleted := mid[u].deleted || Leaves(before, snapshot, u));
    }
    SchemaKept(mid, after);
  }

  lemma OldRowsSynced(before: map<UserId, User>, snapshot: seq<Employee>, newIds: seq<UserId>, mid: map<UserId, User>, after: map<UserId, User>)
    requires |newIds| == |snapshot| && Imported(before, snapshot, newIds, |snapshot|, mid)
    requires after.Keys == mid.Keys
    requires forall u :: u in after ==> after[u] == mid[u].(deleted := mid[u].deleted || Leaves(before, snapshot, u))
    ensures forall u :: u in before ==> u in after && after[u] == before[u].(deleted := DeletedAfter(before, snapshot, u))
    ensures forall u :: u in before && !before[u].deleted ==> (after[u].deleted <==> Leaves(before, snapshot, u))
  {
    hide IsLookup, Schema, Found, Present, IsNewRow;
    assert snapshot[..|snapshot|] == snapshot;
    forall u | u in before
      ensures u in after && after[u] == before[u].(deleted := DeletedAfter(before, snapshot, u))
      ensures !before[u].deleted ==> (after[u].deleted <==> Leaves(before, snapshot, u))
    {
      assert mid[u] == Touched(before, snapshot, u);
      assert after[u] == mid[u].(deleted := mid[u].deleted || Leaves(before, snapshot, u));
    }
  }

  lemma NewRowsSynced(before: map<UserId, User>, snapshot: seq<Employee>, newIds: seq<UserId>, mid: map<UserId, User>, after: map<UserId, User>)
    requires |newIds| == |snapshot| && AreNew(before, newIds) && Imported(before, snapshot, newIds, |snapshot|, mid)
    requires after.Keys == mid.Keys
    requires forall u :: u in after ==> after[u] == mid[u].(deleted := mid[u].deleted || Leaves(before, snapshot, u))
    ensures forall u :: u in after && u !in before ==>
      exists k :: 0 <= k < |snapshot| && Lookup(before, snapshot[k]).None? && after[u] == NewUser(snapshot[k])
    ensures forall k :: 0 <= k < |snapshot| && Lookup(before, snapshot[k]).None? ==> Created(before, after, snapshot[k])
  {
    hide IsLookup, Schema, Found, Present, Touched;
    forall u | u in after && u !in before ensures after[u] == mid[u] {}
    forall u | u in after && u !in before
      ensures exists k :: 0 <= k < |snapshot| && Lookup(before, snapshot[k]).None? && after[u] == NewUser(snapshot[k])
    {
      assert IsNewRow(before, snapshot, newIds, |snapshot|, u, mid[u]);
    }
    hide IsNewRow;
    forall k | 0 <= k < |snapshot| && Lookup(before, snapshot[k]).None? ensures Created(before, after, snapshot[k]) {
      assert newIds[k] in after && after[newIds[k]] == NewUser(snapshot[k]);
    }
  }

  // ----- normalising the snapshot -----

  datatype External = External(id: string, email: Option<string>)

  predicate HasEmail(value: External) { value.email.Some? && Trim(value.email.value) != "" }

  /** Trimmed id, and the lower-case e-mail or the one derived from the id. */
  function Normal(value: External, fallback: string -> Email): Employee {
    var id := Trim(value.id);
    Employee(id, if HasEmail(value) then Lower(Trim(value.email.value)) else fallback(id))
  }

  predicate Acceptable(value: External, parses: string -> bool) {
    Trim(value.id) != "" && (HasEmail(value) ==> parses(Lower(Trim(value.email.value))))
  }

  function Normals(values: seq<External>, fallback: string -> Email): seq<Employee> {
    seq(|values|, i requires 0 <= i < |values| => Normal(values[i], fallback))
  }

  /** The address an entry gives, if it is more than spaces. */
  ghost predicate Gives(value: External, address: string) { value.email.Some? && Trim(value.email.value) != "" && address == Lower(Trim(value.email.value)) }

  /** The employee an entry becomes. */
  ghost predicate Becomes(value: External, fallback: string -> Email, e: Employee) {
    e.id == Trim(value.id) && (Gives(value, e.email) || (e.email == fallback(e.id) && forall a :: !Gives(value, a)))
  }

  /** The entries are usable: ids given, addresses well-formed, no id and no e-mail twice among the employees they become. */
  ghost predicate Usable(values: seq<External>, parses: string -> bool, employees: seq<Employee>) {
    && (forall i :: 0 <= i < |values| ==> Trim(values[i].id) != "")
    && (forall i, a :: 0 <= i < |values| && Gives(values[i], a) ==> parses(a))
    && forall i, j :: 0 <= i < j < |employees| ==> employees[i].id != employees[j].id && employees[i].email != employees[j].email
  }

  lemma BecomesExactly(value: External, fallback: string -> Email, e: Employee)
    ensures Becomes(value, fallback, e) <==> e == Normal(value, fallback)
  {
    if HasEmail(value) { assert Gives(value, Lower(Trim(value.email.value))); }
    hide Trim, Lower;
  }

  ghost predicate AllBecome(values: seq<External>, fallback: string -> Email, employees: seq<Employee>) {
    |employees| == |values| && forall i :: 0 <= i < |values| ==> Becomes(values[i], fallback, employees[i])
  }

  lemma UsableExactly(values: seq<External>, parses: string -> bool, fallback: string -> Email, employees: seq<Employee>)
    requires AllBecome(values, fallback, employees)
    ensures employees == Normals(values, fallback)
    ensures Usable(values, parses, employees) <==> (forall i :: 0 <= i < |values| ==> Acceptable(values[i], parses)) && IsSnapshot(employees)
  {
    forall i | 0 <= i < |values| ensures employees[i] == Normal(values[i], fallback) { BecomesExactly(values[i], fallback, employees[i]); }
    hide Trim, Lower, Becomes;
    forall i | 0 <= i < |values|
      ensures Acceptable(values[i], parses) <==> Trim(values[i].id) != "" && forall a :: Gives(values[i], a) ==> parses(a)
    {
      if HasEmail(values[i]) { assert Gives(values[i], Lower(Trim(values[i].email.value))); }
    }
  }

  lemma NormalsBecome(values: seq<External>, parses: string -> bool, fallback: string -> Email)
    ensures AllBecome(values, fallback, Normals(values, fallback))
    ensures forall employees :: AllBecome(values, fallback, employees) ==> employees == Normals(values, fallback)
    ensures Usable(values, parses, Normals(values, fallback)) <==>
      (forall i :: 0 <= i < |values| ==> Acceptable(values[i], parses)) && IsSnapshot(Normals(values, fallback))
  {
    forall i | 0 <= i < |values| ensures Becomes(values[i], fallback, Normals(values, fallback)[i]) {
      BecomesExactly(values[i], fallback, Normals(values, fallback)[i]);
    }
    UsableExactly(values, parses, fallback, Normals(values, fallback));
    forall employees | AllBecome(values, fallback, employees) ensures employees == Normals(values, fallback) {
      UsableExactly(values, parses, fallback, employees);
    }
  }

  /**
   * normalizeExternalEmployees: the snapshot is refused (None) exactly when an entry is
   * unacceptable or two entries share an id or an e-mail. `parses` says that an address
   * is well-formed and bare.
   */
  method NormalizeExternalEmployees(values: seq<External>, parses: string -> bool, fallback: string -> Email)
    returns (result: Option<seq<Employee>>)
    ensures result.Some? <==> (forall i :: 0 <= i < |values| ==> Acceptable(values[i], parses)) && IsSnapshot(Normals(values, fallback))
    ensures result.Some? ==> result.value == Normals(values, fallback)
    ensures result.Some? ==> AllBecome(values, fallback, result.value)
    ensures result.Some? <==> exists employees :: AllBecome(values, fallback, employees) && Usable(values, parses, employees)
  {
    NormalsBecome(values, parses, fallback);
    hide AllBecome, Usable;
    var list: seq<Employee> := [];
    var ids: set<string>, emails: set<string> := {}, {};
    ghost var all := Normals(values, fallback);
    hide Trim, Lower;
    for i := 0 to |values|
      invariant list == all[..i] && IsSnapshot(list)
      invariant forall k :: 0 <= k < i ==> Acceptable(values[k], parses)
      invariant forall id :: id in ids <==> exists k :: 0 <= k < i && all[k].id == id
      invariant forall email :: email in emails <==> exists k :: 0 <= k < i && all[k].email == email
    {
      var value := values[i];
      var id := Trim(value.id);
      assert all[i] == Normal(value, fallback);
      assert all[i].id == id;
      if id == "" { assert !Acceptable(values[i], parses); return None; }
      if id in ids { return None; }
      ids := ids + {id};
      var email := fallback(id);
      if HasEmail(value) {
        var candidate := Lower(Trim(value.email.value));
        if !parses(candidate) { assert !Acceptable(values[i], parses); return None; }
        email := candidate;
      }
      if email in emails { return None; }
      emails := emails + {email};
      list := list + [Employee(id, email)];
    }
    assert all[..|values|] == all;
    result := Some(list);
  }
}

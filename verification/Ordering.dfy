/**
 * Order columns of sections and lessons.
 *
 * A listing query returns the rows of a table sorted by (order, id); it is passed in as a
 * sequence and characterised by `IsListing`. `Ordered` says that an order column is
 * exactly 0..n-1 along a given sequence.
 */
module Ordering {
  import opened Prelude

  type Id = nat

  datatype Place = Place(section: Id, order: nat)

  // ----- sequences of ids -----

  function Without(s: seq<Id>, id: Id): seq<Id> {
    if s == [] then [] else (if s[0] == id then [] else [s[0]]) + Without(s[1..], id)
  }

  function InsertAt<T>(s: seq<T>, k: nat, x: T): seq<T>
    requires k <= |s|
  {
    s[..k] + [x] + s[k..]
  }

  lemma {:induction false} WithoutMembers(s: seq<Id>, id: Id)
    ensures forall x :: x in Without(s, id) <==> x in s && x != id
    ensures id !in s ==> Without(s, id) == s
    ensures |Without(s, id)| <= |s|
  {
    if s != [] { WithoutMembers(s[1..], id); }
  }

  lemma {:induction false} WithoutDistinct(s: seq<Id>, id: Id)
    requires Distinct(s)
    ensures Distinct(Without(s, id))
    ensures |Without(s, id)| == if id in s then |s| - 1 else |s|
  {
    if s != [] {
      WithoutDistinct(s[1..], id);
      WithoutMembers(s[1..], id);
      var rest := Without(s[1..], id);
      assert s[0] !in s[1..];
      forall i | 0 <= i < |rest| ensures rest[i] != s[0] { assert rest[i] in rest; }
    }
  }

  lemma Regroup(a: seq<Id>, b: seq<Id>, c: seq<Id>)
    ensures (a + b) + c == a + (b + c)
  {
  }

  lemma {:induction false} WithoutAppend(s: seq<Id>, x: Id, id: Id)
    ensures Without(s + [x], id) == Without(s, id) + if x == id then [] else [x]
  {
    if s != [] {
      assert (s + [x])[1..] == s[1..] + [x];
      WithoutAppend(s[1..], x, id);
    }
  }

  lemma {:induction false} WithoutConcat(s: seq<Id>, t: seq<Id>, id: Id)
    ensures Without(s + t, id) == Without(s, id) + Without(t, id)
  {
    if s == [] {
      assert s + t == t;
    } else {
      assert (s + t)[1..] == s[1..] + t;
      WithoutConcat(s[1..], t, id);
    }
  }

  lemma WithoutAbsent(s: seq<Id>, id: Id)
    requires id !in s
    ensures Without(s, id) == s
  {
    WithoutMembers(s, id);
  }

  /** Taking an item out of where it was inserted gives the rest back in the same order. */
  lemma WithoutInsert(s: seq<Id>, k: nat, id: Id)
    requires k <= |s| && id !in s
    ensures Without(InsertAt(s, k, id), id) == s
  {
    var a, b := s[..k], s[k..];
    assert InsertAt(s, k, id) == (a + [id]) + b && a + b == s;
    WithoutAbsent(a, id);
    WithoutAbsent(b, id);
    WithoutAppend(a, id, id);
    hide InsertAt, Without;
    calc {
      Without((a + [id]) + b, id);
      { WithoutConcat(a + [id], b, id); }
      Without(a + [id], id) + Without(b, id);
      (a + []) + b;
      { assert a + [] == a; }
      a + b;
    }
  }

  function MoveTo(s: seq<Id>, id: Id, k: nat): seq<Id>
    requires k <= |Without(s, id)|
  {
    InsertAt(Without(s, id), k, id)
  }

  /** A move is a permutation that puts the item at k and keeps the order of all others. */
  lemma MoveIsPermutation(s: seq<Id>, id: Id, k: nat)
    requires Distinct(s) && id in s && k < |s|
    ensures k <= |Without(s, id)|
    ensures multiset(MoveTo(s, id, k)) == multiset(s)
    ensures MoveTo(s, id, k)[k] == id && Without(MoveTo(s, id, k), id) == Without(s, id)
    ensures Distinct(MoveTo(s, id, k))
  {
    WithoutDistinct(s, id);
    WithoutMembers(s, id);
    WithoutInsert(Without(s, id), k, id);
    WithoutMultiset(s, id);
    InsertFacts(Without(s, id), k, id);
  }

  lemma InsertFacts(s: seq<Id>, k: nat, id: Id)
    requires Distinct(s) && id !in s && k <= |s|
    ensures multiset(InsertAt(s, k, id)) == multiset(s) + multiset{id}
    ensures Distinct(InsertAt(s, k, id))
  {
    InsertBag(s, k, id);
    InsertDistinct(s, k, id);
  }

  lemma InsertBag(s: seq<Id>, k: nat, id: Id)
    requires k <= |s|
    ensures multiset(InsertAt(s, k, id)) == multiset(s) + multiset{id}
  {
    var a, b := s[..k], s[k..];
    assert s == a + b;
  }

  lemma InsertDistinct(s: seq<Id>, k: nat, id: Id)
    requires Distinct(s) && id !in s && k <= |s|
    ensures Distinct(InsertAt(s, k, id))
  {
    InsertPoints(s, k, id);
    hide InsertAt;
  }

  lemma InsertPoints(s: seq<Id>, k: nat, id: Id)
    requires k <= |s|
    ensures |InsertAt(s, k, id)| == |s| + 1
    ensures forall i :: 0 <= i <= |s| ==> InsertAt(s, k, id)[i] == if i < k then s[i] else if i == k then id else s[i - 1]
  {
  }

  lemma {:induction false} WithoutMultiset(s: seq<Id>, id: Id)
    requires Distinct(s) && id in s
    ensures multiset(Without(s, id)) + multiset{id} == multiset(s)
  {
    assert s == [s[0]] + s[1..];
    if s[0] == id {
      WithoutMembers(s[1..], id);
    } else {
      WithoutMultiset(s[1..], id);
    }
  }

  // ----- order columns -----

  /** The column numbers the rows 0..n-1 along s. */
  ghost predicate Ordered(orders: map<Id, nat>, s: seq<Id>) {
    && (forall i :: 0 <= i < |s| ==> s[i] in orders && orders[s[i]] == i)
    && (forall id :: id in orders ==> orders[id] < |s| && s[orders[id]] == id)
  }

  ghost predicate Before(orders: map<Id, nat>, a: Id, b: Id)
    requires a in orders && b in orders
  {
    orders[a] < orders[b] || (orders[a] == orders[b] && a < b)
  }

  /** The answer of SELECT ... ORDER BY "order", id. */
  ghost predicate IsListing(orders: map<Id, nat>, listing: seq<Id>) {
    && (forall id :: id in listing <==> id in orders)
    && (forall i, j :: 0 <= i < j < |listing| ==> Before(orders, listing[i], listing[j]))
  }

  lemma ListingDistinct(orders: map<Id, nat>, listing: seq<Id>)
    requires IsListing(orders, listing)
    ensures Distinct(listing)
  {
    forall i, j | 0 <= i < j < |listing| ensures listing[i] != listing[j] { assert Before(orders, listing[i], listing[j]); }
  }

  lemma ListingMembers(orders: map<Id, nat>, listing: seq<Id>)
    requires IsListing(orders, listing)
    ensures forall id :: id in listing <==> id in orders
  {
  }

  lemma OrderedDistinct(orders: map<Id, nat>, s: seq<Id>)
    requires Ordered(orders, s)
    ensures Distinct(s) && forall id :: id in s <==> id in orders
  {
  }

  /** The sort key is total, so a table has one listing. */
  lemma {:induction false} ListingUnique(orders: map<Id, nat>, a: seq<Id>, b: seq<Id>)
    requires IsListing(orders, a) && IsListing(orders, b)
    ensures a == b
    decreases |a|
  {
    if b != [] { assert b[0] in orders; assert b[0] in a; }
    if a != [] {
      assert a[0] in orders && a[0] in b && b[0] in a;
      assert a[0] == b[0];
      ListingTail(orders, a);
      ListingTail(orders, b);
      ListingUnique(orders - {a[0]}, a[1..], b[1..]);
      assert a == [a[0]] + a[1..] && b == [b[0]] + b[1..];
    }
  }

  lemma ListingTail(orders: map<Id, nat>, listing: seq<Id>)
    requires IsListing(orders, listing) && listing != []
    ensures IsListing(orders - {listing[0]}, listing[1..])
  {
    forall i | 1 <= i < |listing| ensures listing[i] != listing[0] { assert Before(orders, listing[0], listing[i]); }
    forall id ensures id in listing[1..] <==> id in orders - {listing[0]} {
      if id in orders && id != listing[0] { assert id in listing; }
    }
    forall i, j | 0 <= i < j < |listing[1..]| ensures Before(orders - {listing[0]}, listing[1..][i], listing[1..][j]) {
      assert Before(orders, listing[i + 1], listing[j + 1]);
    }
  }

  lemma OrderedIsListing(orders: map<Id, nat>, s: seq<Id>)
    requires Ordered(orders, s)
    ensures IsListing(orders, s)
  {
    OrderedDistinct(orders, s);
  }

  /** A dense column is listed along the sequence it numbers. */
  lemma ListingOfOrdered(orders: map<Id, nat>, s: seq<Id>, listing: seq<Id>)
    requires Ordered(orders, s) && IsListing(orders, listing)
    ensures listing == s
  {
    OrderedIsListing(orders, s);
    ListingUnique(orders, listing, s);
  }

  /** Deleting a row leaves the listing of the others. */
  lemma ListingWithout(orders: map<Id, nat>, listing: seq<Id>, id: Id)
    requires IsListing(orders, listing)
    ensures IsListing(orders - {id}, Without(listing, id))
  {
    hide Before;
    WithoutMembers(listing, id);
    WithoutSorted(orders, listing, id);
    var rest := Without(listing, id);
    forall i, j | 0 <= i < j < |rest| ensures Before(orders - {id}, rest[i], rest[j]) {
      assert rest[i] in rest && rest[j] in rest;
      SameBefore(orders, id, rest[i], rest[j]);
    }
  }

  lemma SameBefore(orders: map<Id, nat>, id: Id, a: Id, b: Id)
    requires a in orders && b in orders && a != id && b != id
    ensures Before(orders - {id}, a, b) <==> Before(orders, a, b)
  {
  }

  lemma {:induction false} WithoutSorted(orders: map<Id, nat>, s: seq<Id>, id: Id)
    requires forall x :: x in s ==> x in orders
    requires forall i, j :: 0 <= i < j < |s| ==> Before(orders, s[i], s[j])
    ensures forall x :: x in Without(s, id) ==> x in s && x in orders && x != id
    ensures forall i, j :: 0 <= i < j < |Without(s, id)| ==> Before(orders, Without(s, id)[i], Without(s, id)[j])
  {
    WithoutMembers(s, id);
    if s != [] {
      WithoutSorted(orders, s[1..], id);
      var rest := Without(s[1..], id);
      forall i, j | 0 <= i < j < |Without(s, id)| ensures Before(orders, Without(s, id)[i], Without(s, id)[j]) {
        if s[0] != id && i == 0 {
          assert rest[j - 1] in s[1..];
          var k :| 0 <= k < |s[1..]| && s[1..][k] == rest[j - 1];
          assert s[k + 1] == rest[j - 1];
        }
      }
    }
  }

  // ----- moving a section -----

  /**
   * The in-place tail of moveVersionSection: the slice has one spare slot at the end; the
   * items from `target` on are copied one up and the moved item goes into the gap.
   */
  method ShiftIn(a: array<Id>, target: nat, moved: Id)
    requires target < a.Length
    modifies a
    ensures a[..] == InsertAt(old(a[..a.Length - 1]), target, moved)
  {
    ghost var was := a[..a.Length - 1];
    var j := a.Length - 1;
    while j > target
      invariant target <= j < a.Length
      invariant forall k :: 0 <= k <= j && k < a.Length - 1 ==> a[k] == was[k]
      invariant forall k :: j < k < a.Length ==> a[k] == was[k - 1]
    {
      a[j] := a[j - 1];
      j := j - 1;
    }
    a[target] := moved;
    InsertPoints(was, target, moved);
    hide InsertAt;
    assert forall k :: 0 <= k < a.Length ==> a[k] == InsertAt(was, target, moved)[k];
  }

  /** moveVersionSection: filter, append a blank, shift, place. */
  method MoveInSlice(rows: seq<Id>, id: Id, target: nat) returns (result: seq<Id>)
    requires target <= |Without(rows, id)|
    ensures result == MoveTo(rows, id, target)
  {
    var kept: seq<Id> := [];
    for i := 0 to |rows|
      invariant kept == Without(rows[..i], id)
    {
      WithoutAppend(rows[..i], rows[i], id);
      assert rows[..i + 1] == rows[..i] + [rows[i]];
      if rows[i] != id { kept := kept + [rows[i]]; }
    }
    assert rows[..|rows|] == rows;
    var a := new Id[|kept| + 1](i => if 0 <= i < |kept| then kept[i] else 0);
    assert a[..|kept|] == kept;
    ShiftIn(a, target, id);
    result := a[..];
  }

  /** Writing each row's index back into its order column. */
  method Renumber(listing: seq<Id>) returns (orders: map<Id, nat>)
    requires Distinct(listing)
    ensures Ordered(orders, listing)
  {
    orders := map[];
    for i := 0 to |listing|
      invariant orders.Keys == set id | id in listing[..i]
      invariant forall k :: 0 <= k < i ==> orders[listing[k]] == k
      invariant forall id :: id in orders ==> orders[id] < i && listing[orders[id]] == id
    {
      orders := orders[listing[i] := i];
      assert listing[..i + 1] == listing[..i] + [listing[i]];
    }
    assert listing[..|listing|] == listing;
  }

  // ----- lessons grouped by section -----

  function InSection(lessons: map<Id, Place>, section: Id): map<Id, nat> {
    map l | l in lessons && lessons[l].section == section :: lessons[l].order
  }

  /** The rows of one section, in the order of the listing. */
  function Group(lessons: map<Id, Place>, rows: seq<Id>, section: Id): seq<Id>
    requires forall l :: l in rows ==> l in lessons
  {
    if rows == [] then [] else (if lessons[rows[0]].section == section then [rows[0]] else []) + Group(lessons, rows[1..], section)
  }

  lemma {:induction false} GroupMembers(lessons: map<Id, Place>, rows: seq<Id>, section: Id)
    requires forall l :: l in rows ==> l in lessons
    ensures forall l :: l in Group(lessons, rows, section) <==> l in rows && lessons[l].section == section
  {
    if rows != [] { GroupMembers(lessons, rows[1..], section); }
  }

  lemma {:induction false} GroupAppend(lessons: map<Id, Place>, rows: seq<Id>, l: Id, section: Id)
    requires forall r :: r in rows + [l] ==> r in lessons
    ensures Group(lessons, rows + [l], section) == Group(lessons, rows, section) + if lessons[l].section == section then [l] else []
  {
    if rows != [] {
      assert (rows + [l])[1..] == rows[1..] + [l];
      GroupAppend(lessons, rows[1..], l, section);
      Regroup(if lessons[rows[0]].section == section then [rows[0]] else [], Group(lessons, rows[1..], section),
              if lessons[l].section == section then [l] else []);
    }
  }

  lemma {:induction false} GroupDistinct(lessons: map<Id, Place>, rows: seq<Id>, section: Id)
    requires Distinct(rows) && forall l :: l in rows ==> l in lessons
    ensures Distinct(Group(lessons, rows, section))
  {
    if rows != [] {
      GroupDistinct(lessons, rows[1..], section);
      GroupMembers(lessons, rows[1..], section);
      var rest := Group(lessons, rows[1..], section);
      assert rows[0] !in rows[1..];
      forall i | 0 <= i < |rest| ensures rest[i] != rows[0] { assert rest[i] in rest; }
    }
  }

  /** The answer of SELECT ... ORDER BY section, "order", id over all lessons of a version. */
  ghost predicate IsLessonListing(lessons: map<Id, Place>, rows: seq<Id>) {
    && (forall l :: l in rows <==> l in lessons) && Distinct(rows)
    && forall c :: IsListing(InSection(lessons, c), Group(lessons, rows, c))
  }

  /** One section's rows without the moved lesson. */
  function Kept(lessons: map<Id, Place>, rows: seq<Id>, moved: Option<Id>, section: Id): seq<Id>
    requires forall l :: l in rows ==> l in lessons
  {
    if moved.Some? then Without(Group(lessons, rows, section), moved.value) else Group(lessons, rows, section)
  }

  lemma KeptAppend(lessons: map<Id, Place>, rows: seq<Id>, row: Id, moved: Option<Id>, section: Id)
    requires forall r :: r in rows + [row] ==> r in lessons
    ensures Kept(lessons, rows + [row], moved, section)
         == Kept(lessons, rows, moved, section) + if lessons[row].section == section && moved != Some(row) then [row] else []
  {
    GroupAppend(lessons, rows, row, section);
    var group := Group(lessons, rows, section);
    assert group + [] == group && Kept(lessons, rows, moved, section) + [] == Kept(lessons, rows, moved, section);
    if moved.Some? && lessons[row].section == section { WithoutAppend(Group(lessons, rows, section), row, moved.value); }
  }

  function ListOf(bySection: map<Id, seq<Id>>, section: Id): seq<Id> {
    if section in bySection then bySection[section] else []
  }

  /** The first loop of normalizeVersionLessonOrdersWithPriority: lists per section, without the moved lesson. */
  method GroupBySection(lessons: map<Id, Place>, rows: seq<Id>, moved: Option<Id>) returns (bySection: map<Id, seq<Id>>)
    requires forall l :: l in rows ==> l in lessons
    ensures forall c :: ListOf(bySection, c) == Kept(lessons, rows, moved, c)
  {
    hide Kept;
    bySection := map[];
    forall c ensures Kept(lessons, [], moved, c) == [] { KeptNone(lessons, moved, c); }
    for i := 0 to |rows|
      invariant forall c :: ListOf(bySection, c) == Kept(lessons, rows[..i], moved, c)
    {
      var row := rows[i];
      var c := lessons[row].section;
      ghost var before := bySection;
      if moved != Some(row) { bySection := bySection[c := ListOf(bySection, c) + [row]]; }
      forall d ensures ListOf(bySection, d) == Kept(lessons, rows[..i + 1], moved, d) {
        assert rows[..i + 1] == rows[..i] + [row];
        KeptAppend(lessons, rows[..i], row, moved, d);
        assert ListOf(before, d) == Kept(lessons, rows[..i], moved, d);
      }
    }
    assert rows[..|rows|] == rows;
  }

  lemma KeptNone(lessons: map<Id, Place>, moved: Option<Id>, section: Id)
    ensures Kept(lessons, [], moved, section) == []
  {
  }

  /** Writing one section's list back. */
  method WriteOrders(places: map<Id, Place>, list: seq<Id>) returns (out: map<Id, Place>)
    requires Distinct(list) && forall l :: l in list ==> l in places
    ensures out.Keys == places.Keys
    ensures forall i :: 0 <= i < |list| ==> out[list[i]] == places[list[i]].(order := i)
    ensures forall l :: l in places && l !in list ==> out[l] == places[l]
  {
    out := places;
    for i := 0 to |list|
      invariant out.Keys == places.Keys
      invariant forall k :: 0 <= k < i ==> out[list[k]] == places[list[k]].(order := k)
      invariant forall k :: i <= k < |list| ==> out[list[k]] == places[list[k]]
      invariant forall l :: l in places && l !in list ==> out[l] == places[l]
    {
      out := out[list[i] := out[list[i]].(order := i)];
    }
  }

  /** The lists cover the table section by section. */
  ghost predicate Partitions(places: map<Id, Place>, lists: map<Id, seq<Id>>) {
    && (forall c :: c in lists ==> Distinct(lists[c]) && forall l :: l in lists[c] ==> l in places && places[l].section == c)
    && (forall l :: l in places ==> places[l].section in lists && l in lists[places[l].section])
  }

  /** The final loop: every section's list is written back, in any order of the sections. */
  method WriteAllOrders(places: map<Id, Place>, lists: map<Id, seq<Id>>) returns (out: map<Id, Place>)
    requires Partitions(places, lists)
    ensures out.Keys == places.Keys && forall l :: l in places ==> out[l].section == places[l].section
    ensures forall c, i :: c in lists && 0 <= i < |lists[c]| ==> out[lists[c][i]].order == i
  {
    out := places;
    var todo := lists.Keys;
    while todo != {}
      invariant todo <= lists.Keys && out.Keys == places.Keys
      invariant forall l :: l in places ==> out[l].section == places[l].section
      invariant forall c, i :: c in lists && c !in todo && 0 <= i < |lists[c]| ==> out[lists[c][i]].order == i
    {
      var c :| c in todo;
      ghost var before := out;
      out := WriteOrders(out, lists[c]);
      forall d, i | d in lists && d !in todo - {c} && 0 <= i < |lists[d]| ensures out[lists[d][i]].order == i {
        if d != c { assert lists[d][i] !in lists[c]; }
      }
      forall l | l in places ensures out[l].section == places[l].section {
        if l in lists[c] {
          var i :| 0 <= i < |lists[c]| && lists[c][i] == l;
          assert out[lists[c][i]] == before[lists[c][i]].(order := i);
        }
      }
      todo := todo - {c};
    }
  }

  /** After the write every section is dense along its list. */
  lemma WrittenIsOrdered(places: map<Id, Place>, lists: map<Id, seq<Id>>, out: map<Id, Place>, c: Id)
    requires Partitions(places, lists) && out.Keys == places.Keys
    requires forall l :: l in places ==> out[l].section == places[l].section
    requires forall d, i :: d in lists && 0 <= i < |lists[d]| ==> out[lists[d][i]].order == i
    ensures Ordered(InSection(out, c), ListOf(lists, c))
  {
    var orders, list := InSection(out, c), ListOf(lists, c);
    forall l | l in orders ensures orders[l] < |list| && list[orders[l]] == l {
      assert l in list;
      var i :| 0 <= i < |list| && list[i] == l;
      assert out[lists[c][i]].order == i;
    }
    forall i | 0 <= i < |list| ensures list[i] in orders && orders[list[i]] == i {
      assert list[i] in list;
    }
  }

  lemma KeptMembers(lessons: map<Id, Place>, rows: seq<Id>, moved: Option<Id>, c: Id)
    requires Distinct(rows) && forall l :: l in rows ==> l in lessons
    ensures Distinct(Kept(lessons, rows, moved, c))
    ensures forall l :: l in Kept(lessons, rows, moved, c) <==> l in rows && lessons[l].section == c && moved != Some(l)
  {
    GroupMembers(lessons, rows, c);
    GroupDistinct(lessons, rows, c);
    if moved.Some? {
      WithoutMembers(Group(lessons, rows, c), moved.value);
      WithoutDistinct(Group(lessons, rows, c), moved.value);
    }
  }

  lemma PlacedPartitions(lessons: map<Id, Place>, rows: seq<Id>, moved: Option<Id>, target: Id, k: nat, lists: map<Id, seq<Id>>)
    requires Distinct(rows) && forall l :: l in rows <==> l in lessons
    requires moved.Some? ==> moved.value in lessons && lessons[moved.value].section == target && target in lists
    requires moved.Some? ==> k <= |Kept(lessons, rows, moved, target)|
    requires forall c :: ListOf(lists, c) ==
                         (if moved.Some? && c == target then InsertAt(Kept(lessons, rows, moved, c), k, moved.value) else Kept(lessons, rows, moved, c))
    ensures Partitions(lessons, lists)
  {
    forall c ensures Distinct(ListOf(lists, c)) && forall l :: l in ListOf(lists, c) <==> l in lessons && lessons[l].section == c {
      KeptMembers(lessons, rows, moved, c);
      if moved.Some? && c == target {
        InsertMembers(Kept(lessons, rows, moved, c), k, moved.value);
      }
    }
    forall l | l in lessons ensures lessons[l].section in lists && l in lists[lessons[l].section] {
      assert l in ListOf(lists, lessons[l].section);
    }
    forall c | c in lists ensures Distinct(lists[c]) && forall l :: l in lists[c] ==> l in lessons && lessons[l].section == c {
      assert lists[c] == ListOf(lists, c);
    }
  }

  lemma InsertMembers(s: seq<Id>, k: nat, id: Id)
    requires Distinct(s) && id !in s && k <= |s|
    ensures Distinct(InsertAt(s, k, id)) && forall x :: x in InsertAt(s, k, id) <==> x in s || x == id
  {
    InsertFacts(s, k, id);
    assert forall x :: x in InsertAt(s, k, id) <==> x in multiset(InsertAt(s, k, id));
    assert forall x :: x in s <==> x in multiset(s);
  }

  /**
   * normalizeVersionLessonOrdersWithPriority: group, give the moved lesson its slot, write
   * every order back. Each section ends dense along the expected sequence, whatever gaps
   * or ties the columns had before.
   */
  method NormalizeLessons(lessons: map<Id, Place>, rows: seq<Id>, moved: Option<Id>, target: Id, k: nat)
    returns (out: map<Id, Place>)
    requires Distinct(rows) && forall l :: l in rows <==> l in lessons
    requires moved.Some? ==> moved.value in lessons && lessons[moved.value].section == target
    requires moved.Some? ==> k <= |Kept(lessons, rows, moved, target)|
    ensures out.Keys == lessons.Keys && forall l :: l in lessons ==> out[l].section == lessons[l].section
    ensures forall c :: c != target || moved.None? ==> Ordered(InSection(out, c), Kept(lessons, rows, moved, c))
    ensures moved.Some? ==> Ordered(InSection(out, target), InsertAt(Kept(lessons, rows, moved, target), k, moved.value))
  {
    hide Kept, Ordered, Distinct;
    var lists := GroupBySection(lessons, rows, moved);
    if moved.Some? {
      var list := ListOf(lists, target);
      var a := new Id[|list| + 1](i => if 0 <= i < |list| then list[i] else 0);
      assert a[..|list|] == list;
      ShiftIn(a, k, moved.value);
      lists := lists[target := a[..]];
    }
    PlacedPartitions(lessons, rows, moved, target, k, lists);
    out := WriteAllOrders(lessons, lists);
    forall c ensures Ordered(InSection(out, c), ListOf(lists, c)) { WrittenIsOrdered(lessons, lists, out, c); }
  }

  // ----- density -----

  /** The column is exactly 0..n-1. */
  ghost predicate IsDense(orders: map<Id, nat>) { exists s :: Ordered(orders, s) }

  lemma {:induction false} SameMembersSameLength(a: seq<Id>, b: seq<Id>)
    requires Distinct(a) && Distinct(b) && forall x :: x in a <==> x in b
    ensures |a| == |b|
    decreases |a|
  {
    if b != [] { assert b[0] in a; }
    if a != [] {
      assert a[0] in b;
      WithoutDistinct(b, a[0]);
      WithoutMembers(b, a[0]);
      assert a[0] !in a[1..];
      SameMembersSameLength(a[1..], Without(b, a[0]));
    }
  }

  lemma AppendOrdered(orders: map<Id, nat>, s: seq<Id>, id: Id)
    requires Ordered(orders, s) && id !in orders
    ensures Ordered(orders[id := |s|], s + [id])
  {
  }

  lemma DropLastOrdered(orders: map<Id, nat>, s: seq<Id>, id: Id)
    requires id !in orders && s != [] && Ordered(orders[id := |s| - 1], s)
    ensures Ordered(orders, s[..|s| - 1])
  {
    var orders', n := orders[id := |s| - 1], |s| - 1;
    assert id in orders' && orders'[id] == n;
    assert s[n] == id;
    forall x | x in orders ensures orders[x] < n && s[orders[x]] == x { assert x in orders'; }
    forall i | 0 <= i < n ensures s[i] in orders && orders[s[i]] == i { assert s[i] in orders'; }
  }

  /** A new row numbered with the count of the others keeps its column dense exactly when it was. */
  lemma AppendKeepsDensityExactly(orders: map<Id, nat>, listing: seq<Id>, id: Id)
    requires IsListing(orders, listing) && id !in orders
    ensures IsDense(orders[id := |listing|]) <==> IsDense(orders)
  {
    var after := orders[id := |listing|];
    if IsDense(orders) {
      var s :| Ordered(orders, s);
      ListingOfOrdered(orders, s, listing);
      AppendOrdered(orders, s, id);
    }
    if IsDense(after) {
      var s :| Ordered(after, s);
      OrderedDistinct(after, s);
      ListingDistinct(orders, listing);
      assert Distinct(listing + [id]);
      assert forall x :: x in listing + [id] <==> x in s;
      SameMembersSameLength(listing + [id], s);
      DropLastOrdered(orders, s, id);
    }
  }

  /** On a column with a gap the count is taken: two rows then share an order. */
  lemma GapMakesTie()
    ensures
      var orders: map<Id, nat> := map[10 := 0, 11 := 2];
      IsListing(orders, [10, 11]) && orders[12 := |[10, 11]|][12] == orders[11] && !IsDense(orders[12 := |[10, 11]|])
  {
    var orders: map<Id, nat> := map[10 := 0, 11 := 2];
    var after := orders[12 := 2];
    assert Before(orders, 10, 11);
    assert after[11] == after[12];
    forall s ensures !Ordered(after, s) {}
  }

  /** A copy of a column under new ids: `from` gives each new id its source. */
  ghost predicate IsCopy(orders: map<Id, nat>, copy: map<Id, nat>, from: map<Id, Id>) {
    && copy.Keys == from.Keys && from.Values == orders.Keys
    && (forall a, b :: a in from && b in from && from[a] == from[b] ==> a == b)
    && forall n :: n in copy ==> from[n] in orders && copy[n] == orders[from[n]]
  }

  /** A copied column is dense exactly when its source is. */
  lemma CopyKeepsDensityExactly(orders: map<Id, nat>, copy: map<Id, nat>, from: map<Id, Id>)
    requires IsCopy(orders, copy, from)
    ensures IsDense(copy) <==> IsDense(orders)
  {
    if IsDense(copy) {
      var s :| Ordered(copy, s);
      CopiedBack(orders, copy, from, s);
    }
    if IsDense(orders) {
      var s :| Ordered(orders, s);
      var to := map o | o in orders :: SourceOf(orders, copy, from, o);
      CopiedForth(orders, copy, from, to, s);
    }
  }

  ghost function SourceOf(orders: map<Id, nat>, copy: map<Id, nat>, from: map<Id, Id>, o: Id): (n: Id)
    requires IsCopy(orders, copy, from) && o in orders
    ensures n in from && from[n] == o
  {
    assert o in from.Values;
    var n :| n in from && from[n] == o;
    n
  }

  lemma CopiedBack(orders: map<Id, nat>, copy: map<Id, nat>, from: map<Id, Id>, s: seq<Id>)
    requires IsCopy(orders, copy, from) && Ordered(copy, s)
    ensures IsDense(orders)
  {
    var r := seq(|s|, i requires 0 <= i < |s| => from[s[i]]);
    forall o | o in orders ensures orders[o] < |r| && r[orders[o]] == o {
      var n := SourceOf(orders, copy, from, o);
      assert copy[n] == orders[o];
    }
    assert Ordered(orders, r);
  }

  lemma CopiedForth(orders: map<Id, nat>, copy: map<Id, nat>, from: map<Id, Id>, to: map<Id, Id>, s: seq<Id>)
    requires IsCopy(orders, copy, from) && Ordered(orders, s)
    requires to.Keys == orders.Keys && forall o :: o in orders ==> to[o] in from && from[to[o]] == o
    ensures IsDense(copy)
  {
    var r := seq(|s|, i requires 0 <= i < |s| => to[s[i]]);
    forall n | n in copy ensures copy[n] < |r| && r[copy[n]] == n { assert orders[from[n]] == copy[n]; }
    forall i | 0 <= i < |r| ensures r[i] in copy && copy[r[i]] == i { assert s[i] in orders; }
    assert Ordered(copy, r);
  }

  // ----- what a move or a removal does to a column, row by row -----

  /** The numbers 0, 1, 2, ... are used, each once. */
  ghost predicate Compact(orders: map<Id, nat>) {
    && (forall a, n: nat :: a in orders && n < orders[a] ==> n in orders.Values)
    && forall a, b :: a in orders && b in orders && orders[a] == orders[b] ==> a == b
  }

  /** Rows other than id stand to each other as they did, ties in the order of their ids. */
  ghost predicate SameOrder(before: map<Id, nat>, after: map<Id, nat>, id: Id) {
    forall a, b :: a in before && b in before && a in after && b in after && a != id && b != id ==>
      (after[a] < after[b] <==> before[a] < before[b] || (before[a] == before[b] && a < b))
  }

  /** The column with id at position k. */
  ghost predicate Moved(before: map<Id, nat>, after: map<Id, nat>, id: Id, k: int) {
    && after.Keys == before.Keys + {id} && id in after && after[id] == k
    && Compact(after) && SameOrder(before, after, id)
  }

  /** The column without id. */
  ghost predicate Removed(before: map<Id, nat>, after: map<Id, nat>, id: Id) {
    after.Keys == before.Keys - {id} && Compact(after) && SameOrder(before, after, id)
  }

  lemma OrderedIsCompact(orders: map<Id, nat>, s: seq<Id>)
    requires Ordered(orders, s)
    ensures Compact(orders)
  {
    forall a, n: nat | a in orders && n < orders[a] ensures n in orders.Values { assert s[n] in orders && orders[s[n]] == n; }
  }

  /** A column along a sequence sorts its rows as the sequence does. */
  lemma OrderedSorts(before: map<Id, nat>, after: map<Id, nat>, s: seq<Id>, id: Id)
    requires Ordered(after, s) && IsListing(before - {id}, Without(s, id))
    ensures SameOrder(before, after, id)
  {
    var rest := Without(s, id);
    forall a, b | a in before && b in before && a in after && b in after && a != id && b != id && a != b
      ensures after[a] < after[b] <==> Before(before, a, b)
    {
      if after[a] < after[b] {
        WithoutKeepsOrder(s, id, after[a], after[b]);
        assert InOrder(rest, a, b);
        var i, j :| 0 <= i < j < |rest| && rest[i] == a && rest[j] == b;
        assert Before(before - {id}, rest[i], rest[j]);
      } else {
        assert after[a] != after[b] by { assert s[after[a]] == a && s[after[b]] == b; }
        WithoutKeepsOrder(s, id, after[b], after[a]);
        assert InOrder(rest, b, a);
        var i, j :| 0 <= i < j < |rest| && rest[i] == b && rest[j] == a;
        assert Before(before - {id}, rest[i], rest[j]);
      }
    }
  }

  ghost predicate InOrder(s: seq<Id>, a: Id, b: Id) { exists i, j :: 0 <= i < j < |s| && s[i] == a && s[j] == b }

  lemma InOrderTail(s: seq<Id>, x: Id, a: Id, b: Id)
    requires InOrder(s, a, b)
    ensures InOrder([x] + s, a, b)
  {
    var i, j :| 0 <= i < j < |s| && s[i] == a && s[j] == b;
    assert ([x] + s)[i + 1] == a && ([x] + s)[j + 1] == b;
  }

  lemma InOrderHead(s: seq<Id>, a: Id, b: Id)
    requires b in s
    ensures InOrder([a] + s, a, b)
  {
    var j :| 0 <= j < |s| && s[j] == b;
    assert ([a] + s)[0] == a && ([a] + s)[j + 1] == b;
  }

  lemma {:induction false} WithoutKeepsOrder(s: seq<Id>, id: Id, p: nat, q: nat)
    requires p < q < |s| && s[p] != id && s[q] != id
    ensures InOrder(Without(s, id), s[p], s[q])
  {
    var tail := Without(s[1..], id);
    assert s[1..][q - 1] == s[q];
    hide InOrder;
    if p > 0 {
      WithoutKeepsOrder(s[1..], id, p - 1, q - 1);
      if s[0] == id { assert [] + tail == tail; } else { InOrderTail(tail, s[0], s[p], s[q]); }
    } else {
      WithoutMembers(s[1..], id);
      InOrderHead(tail, s[p], s[q]);
    }
  }

  function Members(s: seq<Id>): set<Id> { set x | x in s }

  lemma OrderedKeys(orders: map<Id, nat>, s: seq<Id>)
    requires Ordered(orders, s)
    ensures orders.Keys == Members(s)
  {
    OrderedDistinct(orders, s);
  }

  lemma ListedWithout(orders: map<Id, nat>, listing: seq<Id>, id: Id)
    requires IsListing(orders, listing)
    ensures id !in Without(listing, id) && Members(Without(listing, id)) == orders.Keys - {id}
    ensures IsListing(orders - {id}, Without(listing, id))
  {
    WithoutMembers(listing, id);
    ListingMembers(orders, listing);
    ListingWithout(orders, listing, id);
    hide IsListing, Without;
    assert Members(Without(listing, id)) == orders.Keys - {id};
  }

  lemma InsertedAt(rest: seq<Id>, k: nat, id: Id)
    requires k <= |rest| && id !in rest
    ensures var s := InsertAt(rest, k, id); k < |s| && s[k] == id && Without(s, id) == rest && Members(s) == Members(rest) + {id}
  {
    WithoutInsert(rest, k, id);
    InsertPoints(rest, k, id);
    assert rest == rest[..k] + rest[k..];
  }

  lemma MovedExactly(before: map<Id, nat>, listing: seq<Id>, after: map<Id, nat>, id: Id, k: nat)
    requires IsListing(before, listing) && k <= |Without(listing, id)| && Ordered(after, InsertAt(Without(listing, id), k, id))
    ensures Moved(before, after, id, k)
  {
    hide Without, IsListing, Ordered, Members, Compact, SameOrder, InsertAt;
    var rest := Without(listing, id);
    var s := InsertAt(rest, k, id);
    ListedWithout(before, listing, id);
    InsertedAt(rest, k, id);
    OrderedIsCompact(after, s);
    OrderedKeys(after, s);
    OrderedSorts(before, after, s, id);
    OrderedAt(after, s, k);
    assert after.Keys == before.Keys + {id};
  }

  lemma RemovedExactly(before: map<Id, nat>, listing: seq<Id>, after: map<Id, nat>, id: Id)
    requires IsListing(before, listing) && Ordered(after, Without(listing, id))
    ensures Removed(before, after, id)
  {
    hide Without, IsListing, Ordered, Members, Compact, SameOrder;
    var rest := Without(listing, id);
    ListedWithout(before, listing, id);
    NothingToRemove(rest, id);
    OrderedIsCompact(after, rest);
    OrderedKeys(after, rest);
    OrderedSorts(before, after, rest, id);
  }

  lemma OrderedAt(orders: map<Id, nat>, s: seq<Id>, k: nat)
    requires Ordered(orders, s) && k < |s|
    ensures s[k] in orders && orders[s[k]] == k
  {
  }

  lemma NothingToRemove(s: seq<Id>, id: Id)
    requires id !in s
    ensures Without(s, id) == s
  {
    WithoutMembers(s, id);
  }

  // ----- a draft under all its operations -----

  ghost predicate DenseThroughout(sections: map<Id, nat>, lessons: map<Id, Place>) {
    IsDense(sections) && forall c :: c in sections ==> IsDense(InSection(lessons, c))
  }

  ghost predicate LessonsPlaced(sections: map<Id, nat>, lessons: map<Id, Place>) {
    forall l :: l in lessons ==> lessons[l].section in sections
  }

  lemma SectionAdded(sections: map<Id, nat>, lessons: map<Id, Place>, id: Id, listing: seq<Id>)
    requires LessonsPlaced(sections, lessons) && id !in sections && IsListing(sections, listing)
    ensures DenseThroughout(sections[id := |listing|], lessons) <==> DenseThroughout(sections, lessons)
  {
    AppendKeepsDensityExactly(sections, listing, id);
    assert InSection(lessons, id) == map[];
    assert Ordered(map[], []);
    hide InSection, IsDense;
    assert IsDense(map[]) by { EmptyIsDense(); }
  }

  lemma EmptyIsDense()
    ensures IsDense(map[])
  {
    assert Ordered(map[], []);
  }

  /** The rows that remain after a deletion are listed as before. */
  lemma RemainingSections(sections: map<Id, nat>, was: seq<Id>, id: Id, listing: seq<Id>)
    requires IsListing(sections, was) && IsListing(sections - {id}, listing)
    ensures listing == Without(was, id) && Distinct(listing)
  {
    hide IsListing, Without, Distinct;
    ListingWithout(sections, was, id);
    ListingUnique(sections - {id}, listing, Without(was, id));
    ListingDistinct(sections - {id}, listing);
  }

  /** After a move or a deletion the sections are those of the new column, and the lessons' columns are as they were. */
  lemma SectionsRenumbered(sections: map<Id, nat>, lessons: map<Id, Place>, sections': map<Id, nat>, lessons': map<Id, Place>, s: seq<Id>)
    requires Ordered(sections', s) && sections'.Keys <= sections.Keys
    requires forall c :: c in sections' ==> InSection(lessons', c) == InSection(lessons, c)
    ensures IsDense(sections') && (DenseThroughout(sections, lessons) ==> DenseThroughout(sections', lessons'))
  {
    hide InSection;
  }

  lemma LessonAdded(sections: map<Id, nat>, lessons: map<Id, Place>, id: Id, section: Id, rows: seq<Id>)
    requires id !in lessons && section in sections && IsLessonListing(lessons, rows)
    ensures
      var after := lessons[id := Place(section, |Group(lessons, rows, section)|)];
      && (forall c :: c != section ==> InSection(after, c) == InSection(lessons, c))
      && (IsDense(InSection(after, section)) <==> IsDense(InSection(lessons, section)))
      && (DenseThroughout(sections, after) <==> DenseThroughout(sections, lessons))
  {
    hide IsDense, IsListing, Distinct, Group, InSection;
    var count := |Group(lessons, rows, section)|;
    var after := lessons[id := Place(section, count)];
    AddedColumns(lessons, id, section, count);
    AppendKeepsDensityExactly(InSection(lessons, section), Group(lessons, rows, section), id);
  }

  lemma AddedColumns(lessons: map<Id, Place>, id: Id, section: Id, count: nat)
    requires id !in lessons
    ensures
      var after := lessons[id := Place(section, count)];
      && id !in InSection(lessons, section) && InSection(after, section) == InSection(lessons, section)[id := count]
      && forall c :: c != section ==> InSection(after, c) == InSection(lessons, c)
  {
    var after := lessons[id := Place(section, count)];
    assert InSection(after, section) == InSection(lessons, section)[id := count];
    forall c | c != section ensures InSection(after, c) == InSection(lessons, c) {}
  }

  /** A listing read after one lesson was deleted or re-placed lists the others as before. */
  lemma OthersListed(lessons: map<Id, Place>, rows: seq<Id>, lessons': map<Id, Place>, rows': seq<Id>, id: Id, c: Id)
    requires IsLessonListing(lessons, rows) && IsLessonListing(lessons', rows') && lessons' - {id} == lessons - {id}
    ensures Kept(lessons', rows', Some(id), c) == Without(Group(lessons, rows, c), id)
    ensures id !in lessons' ==> Kept(lessons', rows', None, c) == Without(Group(lessons, rows, c), id)
  {
    hide IsListing, Distinct;
    SameElsewhere(lessons, lessons', id, c);
    RemoveListed(lessons, lessons', rows', c, id, Group(lessons, rows, c));
    GroupMembers(lessons', rows', c);
    WithoutMembers(Group(lessons', rows', c), id);
  }

  lemma SameElsewhere(lessons: map<Id, Place>, lessons': map<Id, Place>, id: Id, c: Id)
    requires lessons' - {id} == lessons - {id}
    ensures InSection(lessons', c) - {id} == InSection(lessons, c) - {id}
  {
    forall l | l != id ensures l in lessons' <==> l in lessons {
      assert l in lessons' - {id} <==> l in lessons - {id};
    }
    forall l | l != id && l in lessons ensures lessons'[l] == lessons[l] {
      assert (lessons' - {id})[l] == (lessons - {id})[l];
    }
  }

  lemma RemoveListed(lessons: map<Id, Place>, lessons': map<Id, Place>, rows': seq<Id>, c: Id, id: Id, s: seq<Id>)
    requires IsListing(InSection(lessons, c), s) && IsLessonListing(lessons', rows')
    requires InSection(lessons', c) - {id} == InSection(lessons, c) - {id}
    ensures Without(Group(lessons', rows', c), id) == Without(s, id)
  {
    hide IsListing, Distinct;
    ListingWithout(InSection(lessons, c), s, id);
    ListingWithout(InSection(lessons', c), Group(lessons', rows', c), id);
    ListingUnique(InSection(lessons, c) - {id}, Without(s, id), Without(Group(lessons', rows', c), id));
  }

  lemma OtherSectionsKept(lessons: map<Id, Place>, id: Id)
    ensures var kept := map l | l in lessons && lessons[l].section != id :: lessons[l];
      forall c :: c != id ==> InSection(kept, c) == InSection(lessons, c)
  {
  }

  /**
   * The sections and lessons of one draft. Nothing is assumed of their order columns:
   * migrated and copied drafts may have gaps and ties.
   */
  class Draft {
    var sections: map<Id, nat>
    var lessons: map<Id, Place>

    /** Every lesson belongs to a section of the draft. */
    ghost predicate Valid()
      reads this
    {
      LessonsPlaced(sections, lessons)
    }

    ghost predicate Dense()
      reads this
    {
      DenseThroughout(sections, lessons)
    }

    constructor ()
      ensures Valid() && Dense() && sections == map[] && lessons == map[]
    {
      sections, lessons := map[], map[];
      EmptyIsDense();
    }

    /**
     * CreateCourseDraft: rows are copied under new ids with their orders. The copy is dense
     * exactly when its source is.
     */
    constructor Copy(sections0: map<Id, nat>, lessons0: map<Id, Place>, ids: Renaming)
      requires LessonsPlaced(sections0, lessons0) && Renames(sections0, lessons0, ids)
      ensures Valid() && IsCopy(sections0, sections, ids.fromSection)
      ensures lessons == CopiedLessons(sections0, lessons0, ids)
      ensures Dense() <==> DenseThroughout(sections0, lessons0)
    {
      CopyIsAsDense(sections0, lessons0, ids);
      sections, lessons := CopiedSections(sections0, lessons0, ids), CopiedLessons(sections0, lessons0, ids);
    }

    /** The new section is numbered with the count of the others: the draft is dense exactly when it was. */
    method CreateSection(id: Id, listing: seq<Id>)
      requires Valid() && id !in sections && IsListing(sections, listing)
      modifies this
      ensures Valid() && lessons == old(lessons) && sections == old(sections)[id := |listing|]
      ensures IsDense(sections) <==> IsDense(old(sections))
      ensures Dense() <==> old(Dense())
    {
      SectionAdded(sections, lessons, id, listing);
      AppendKeepsDensityExactly(sections, listing, id);
      hide IsListing, IsDense, InSection;
      sections := sections[id := |listing|];
    }

    /** A move out of range or of an unknown section is refused; any other leaves the sections dense, gaps or not. */
    method MoveSection(id: Id, target: int, listing: seq<Id>) returns (ok: bool)
      requires Valid() && IsListing(sections, listing)
      modifies this
      ensures Valid() && lessons == old(lessons)
      ensures ok <==> id in old(sections) && 0 <= target < |listing|
      ensures !ok ==> sections == old(sections)
      ensures ok ==> target <= |Without(listing, id)| && Ordered(sections, MoveTo(listing, id, target)) && IsDense(sections)
      ensures ok ==> Moved(old(sections), sections, id, target)
      ensures old(Dense()) ==> Dense()
    {
      hide IsListing, Ordered, Without, InSection, Distinct, IsDense, InsertAt, Moved;
      ListingDistinct(sections, listing);
      ListingMembers(sections, listing);
      if id !in sections || target < 0 || target >= |listing| { return false; }
      MoveIsPermutation(listing, id, target);
      var moved := MoveInSlice(listing, id, target);
      var renumbered := Renumber(moved);
      SameMembers(listing, moved);
      OrderedDistinct(renumbered, moved);
      assert renumbered.Keys == sections.Keys;
      SectionsRenumbered(sections, lessons, renumbered, lessons, moved);
      MovedExactly(sections, listing, renumbered, id, target);
      sections := renumbered;
      ok := true;
    }

    /** Deleting a section takes its lessons with it and leaves the sections dense; `was` lists them before. */
    method DeleteSection(id: Id, listing: seq<Id>, ghost was: seq<Id>)
      requires Valid() && id in sections && IsListing(sections, was) && IsListing(sections - {id}, listing)
      modifies this
      ensures Valid() && Ordered(sections, Without(was, id)) && IsDense(sections) && sections.Keys == old(sections.Keys) - {id}
      ensures Removed(old(sections), sections, id)
      ensures lessons == map l | l in old(lessons) && old(lessons)[l].section != id :: old(lessons)[l]
      ensures old(Dense()) ==> Dense()
    {
      hide IsListing, Ordered, Without, Distinct, IsDense, Removed, InSection;
      RemainingSections(sections, was, id, listing);
      ListingMembers(sections - {id}, listing);
      var renumbered := Renumber(listing);
      OrderedDistinct(renumbered, listing);
      assert renumbered.Keys == sections.Keys - {id};
      var kept := map l | l in lessons && lessons[l].section != id :: lessons[l];
      OtherSectionsKept(lessons, id);
      SectionsRenumbered(sections, lessons, renumbered, kept, listing);
      RemovedExactly(sections, was, renumbered, id);
      sections, lessons := renumbered, kept;
    }

    /** The new lesson is numbered with the count of its section's: that section is dense exactly when it was, the others are untouched. */
    method CreateLesson(id: Id, section: Id, rows: seq<Id>)
      requires Valid() && id !in lessons && section in sections && IsLessonListing(lessons, rows)
      modifies this
      ensures Valid() && sections == old(sections)
      ensures lessons == old(lessons)[id := Place(section, |Group(old(lessons), rows, section)|)]
      ensures IsDense(InSection(lessons, section)) <==> IsDense(InSection(old(lessons), section))
      ensures Dense() <==> old(Dense())
    {
      LessonAdded(sections, lessons, id, section, rows);
      hide IsListing, Distinct, InSection, IsDense, Group;
      var count := CountInSection(lessons, rows, section);
      lessons := lessons[id := Place(section, count)];
    }

    /** Deleting a lesson leaves every section's lessons dense, gaps or not; `was` lists them before. */
    method DeleteLesson(id: Id, rows: seq<Id>, ghost was: seq<Id>)
      requires Valid() && id in lessons && IsLessonListing(lessons, was) && IsLessonListing(lessons - {id}, rows)
      modifies this
      ensures Valid() && sections == old(sections) && lessons.Keys == old(lessons.Keys) - {id}
      ensures forall c :: Ordered(InSection(lessons, c), Without(Group(old(lessons), was, c), id))
      ensures forall c :: Removed(InSection(old(lessons), c), InSection(lessons, c), id)
      ensures forall c :: IsDense(InSection(lessons, c))
      ensures old(Dense()) ==> Dense()
    {
      hide IsListing, Ordered, Distinct, Without, Group, Kept, InSection;
      var remaining := lessons - {id};
      ghost var before := lessons;
      forall c ensures Kept(remaining, rows, None, c) == Without(Group(before, was, c), id) {
        OthersListed(before, was, remaining, rows, id, c);
      }
      lessons := NormalizeLessons(remaining, rows, None, 0, 0);
      forall c ensures Ordered(InSection(lessons, c), Without(Group(before, was, c), id))
        ensures Removed(InSection(before, c), InSection(lessons, c), id)
      {
        RemovedExactly(InSection(before, c), Group(before, was, c), InSection(lessons, c), id);
      }
    }

    /**
     * A move is refused if lesson or section is unknown or the position is past the end;
     * any other leaves every section's lessons dense, gaps or not, with the lesson at its
     * position and all others in the order in which they were listed.
     */
    method MoveLesson(id: Id, target: Id, position: int, rows: seq<Id>, rowsAfter: seq<Id>) returns (ok: bool)
      requires Valid() && IsLessonListing(lessons, rows)
      requires position >= 0 && id in lessons ==> IsLessonListing(lessons[id := Place(target, position)], rowsAfter)
      modifies this
      ensures Valid() && sections == old(sections)
      ensures ok <==> id in old(lessons) && target in sections && 0 <= position <= |Without(Group(old(lessons), rows, target), id)|
      ensures !ok ==> lessons == old(lessons)
      ensures ok ==> (forall c :: Ordered(InSection(lessons, c), Placed(Without(Group(old(lessons), rows, c), id), id, c == target, position)))
      ensures ok ==> Moved(InSection(old(lessons), target), InSection(lessons, target), id, position)
      ensures ok ==> forall c :: c != target ==> Removed(InSection(old(lessons), c), InSection(lessons, c), id)
      ensures ok ==> forall c :: IsDense(InSection(lessons, c))
      ensures old(Dense()) ==> Dense()
    {
      hide IsListing, Ordered, Distinct, Without, Group, Kept, InSection, InsertAt;
      if position < 0 || id !in lessons || target !in sections { return false; }
      var count := CountOthers(lessons, rows, target, id);
      if position > count { return false; }
      ghost var before := lessons;
      var placed := lessons[id := Place(target, position)];
      assert placed - {id} == lessons - {id};
      forall c ensures Kept(placed, rowsAfter, Some(id), c) == Without(Group(before, rows, c), id) {
        OthersListed(before, rows, placed, rowsAfter, id, c);
      }
      lessons := NormalizeLessons(placed, rowsAfter, Some(id), target, position);
      forall c ensures Ordered(InSection(lessons, c), Placed(Without(Group(before, rows, c), id), id, c == target, position)) {}
      MovedExactly(InSection(before, target), Group(before, rows, target), InSection(lessons, target), id, position);
      forall c | c != target ensures Removed(InSection(before, c), InSection(lessons, c), id) {
        RemovedExactly(InSection(before, c), Group(before, rows, c), InSection(lessons, c), id);
      }
      ok := true;
    }
  }

  /** One section's list after a move: with the lesson at its position if it is the target. */
  function Placed(rest: seq<Id>, id: Id, target: bool, position: int): seq<Id> {
    if target && 0 <= position <= |rest| then InsertAt(rest, position, id) else rest
  }

  /** The new ids of a copied draft: `fromSection` and `fromLesson` give each its source, `toSection` undoes the former. */
  datatype Renaming = Renaming(fromSection: map<Id, Id>, toSection: map<Id, Id>, fromLesson: map<Id, Id>)

  ghost predicate Renames(sections: map<Id, nat>, lessons: map<Id, Place>, ids: Renaming) {
    && ids.fromSection.Values == sections.Keys && ids.toSection.Keys == sections.Keys && ids.fromLesson.Values == lessons.Keys
    && (forall c :: c in ids.fromSection ==> ids.fromSection[c] in ids.toSection && ids.toSection[ids.fromSection[c]] == c)
    && (forall c :: c in ids.toSection ==> ids.toSection[c] in ids.fromSection && ids.fromSection[ids.toSection[c]] == c)
    && forall a, b :: a in ids.fromLesson && b in ids.fromLesson && ids.fromLesson[a] == ids.fromLesson[b] ==> a == b
  }

  function CopiedSections(sections: map<Id, nat>, lessons: map<Id, Place>, ids: Renaming): map<Id, nat>
    requires Renames(sections, lessons, ids)
  {
    map c | c in ids.fromSection :: sections[ids.fromSection[c]]
  }

  function CopiedLessons(sections: map<Id, nat>, lessons: map<Id, Place>, ids: Renaming): map<Id, Place>
    requires LessonsPlaced(sections, lessons) && Renames(sections, lessons, ids)
  {
    map l | l in ids.fromLesson :: Place(ids.toSection[lessons[ids.fromLesson[l]].section], lessons[ids.fromLesson[l]].order)
  }

  lemma CopyIsAsDense(sections: map<Id, nat>, lessons: map<Id, Place>, ids: Renaming)
    requires LessonsPlaced(sections, lessons) && Renames(sections, lessons, ids)
    ensures
      var sections', lessons' := CopiedSections(sections, lessons, ids), CopiedLessons(sections, lessons, ids);
      && IsCopy(sections, sections', ids.fromSection) && LessonsPlaced(sections', lessons')
      && (DenseThroughout(sections', lessons') <==> DenseThroughout(sections, lessons))
  {
    var sections', lessons' := CopiedSections(sections, lessons, ids), CopiedLessons(sections, lessons, ids);
    LessonsFollow(sections, lessons, ids);
    SectionsCopied(sections, lessons, ids);
    hide IsDense, InSection, CopiedLessons, CopiedSections, IsCopy;
    CopyKeepsDensityExactly(sections, sections', ids.fromSection);
    forall c | c in sections' ensures IsDense(InSection(lessons', c)) <==> IsDense(InSection(lessons, ids.fromSection[c])) {
      LessonColumnCopied(sections, lessons, ids, c);
    }
    SameColumnwise(sections, lessons, ids);
  }

  lemma SectionsCopied(sections: map<Id, nat>, lessons: map<Id, Place>, ids: Renaming)
    requires Renames(sections, lessons, ids)
    ensures IsCopy(sections, CopiedSections(sections, lessons, ids), ids.fromSection)
    ensures CopiedSections(sections, lessons, ids).Keys == ids.fromSection.Keys
  {
  }

  /** Column by column as dense means throughout as dense. */
  lemma SameColumnwise(sections: map<Id, nat>, lessons: map<Id, Place>, ids: Renaming)
    requires LessonsPlaced(sections, lessons) && Renames(sections, lessons, ids)
    requires IsDense(CopiedSections(sections, lessons, ids)) <==> IsDense(sections)
    requires forall c :: c in ids.fromSection ==>
      (IsDense(InSection(CopiedLessons(sections, lessons, ids), c)) <==> IsDense(InSection(lessons, ids.fromSection[c])))
    ensures DenseThroughout(CopiedSections(sections, lessons, ids), CopiedLessons(sections, lessons, ids)) <==> DenseThroughout(sections, lessons)
  {
    hide IsDense, InSection, CopiedLessons;
    var sections', lessons' := CopiedSections(sections, lessons, ids), CopiedLessons(sections, lessons, ids);
    if DenseThroughout(sections', lessons') {
      forall c | c in sections ensures IsDense(InSection(lessons, c)) {
        var n := ids.toSection[c];
        assert n in sections' && IsDense(InSection(lessons', n));
      }
    }
    if DenseThroughout(sections, lessons) {
      forall n | n in sections' ensures IsDense(InSection(lessons', n)) {
        assert IsDense(InSection(lessons, ids.fromSection[n]));
      }
    }
  }

  lemma LessonsFollow(sections: map<Id, nat>, lessons: map<Id, Place>, ids: Renaming)
    requires LessonsPlaced(sections, lessons) && Renames(sections, lessons, ids)
    ensures LessonsPlaced(CopiedSections(sections, lessons, ids), CopiedLessons(sections, lessons, ids))
  {
  }

  /** Which copied lessons are in a section, and with what order. */
  lemma CopiedInSection(sections: map<Id, nat>, lessons: map<Id, Place>, ids: Renaming, c: Id, n: Id)
    requires LessonsPlaced(sections, lessons) && Renames(sections, lessons, ids) && c in ids.fromSection
    ensures n in InSection(CopiedLessons(sections, lessons, ids), c) <==>
      n in ids.fromLesson && ids.fromLesson[n] in InSection(lessons, ids.fromSection[c])
    ensures n in InSection(CopiedLessons(sections, lessons, ids), c) ==>
      InSection(CopiedLessons(sections, lessons, ids), c)[n] == InSection(lessons, ids.fromSection[c])[ids.fromLesson[n]]
  {
    if n in ids.fromLesson { assert ids.fromLesson[n] in ids.fromLesson.Values; }
  }

  lemma LessonColumnCopied(sections: map<Id, nat>, lessons: map<Id, Place>, ids: Renaming, c: Id)
    requires LessonsPlaced(sections, lessons) && Renames(sections, lessons, ids) && c in ids.fromSection
    ensures IsDense(InSection(CopiedLessons(sections, lessons, ids), c)) <==> IsDense(InSection(lessons, ids.fromSection[c]))
  {
    var orders, copy := InSection(lessons, ids.fromSection[c]), InSection(CopiedLessons(sections, lessons, ids), c);
    assert orders.Keys <= lessons.Keys;
    hide InSection, CopiedLessons, IsDense, LessonsPlaced;
    forall n ensures n in copy <==> n in ids.fromLesson && ids.fromLesson[n] in orders
      ensures n in copy ==> copy[n] == orders[ids.fromLesson[n]]
    {
      CopiedInSection(sections, lessons, ids, c, n);
    }
    RestrictedCopy(orders, copy, ids.fromLesson);
  }

  lemma RestrictedCopy(orders: map<Id, nat>, copy: map<Id, nat>, f: map<Id, Id>)
    requires orders.Keys <= f.Values && forall a, b :: a in f && b in f && f[a] == f[b] ==> a == b
    requires forall n :: n in copy <==> n in f && f[n] in orders
    requires forall n :: n in copy ==> copy[n] == orders[f[n]]
    ensures IsDense(copy) <==> IsDense(orders)
  {
    hide IsDense;
    var from := map l | l in copy :: f[l];
    forall o | o in orders ensures o in from.Values {
      assert o in f.Values;
      var n :| n in f && f[n] == o;
      assert n in copy && from[n] == o;
    }
    assert from.Values == orders.Keys;
    CopyKeepsDensityExactly(orders, copy, from);
  }

  lemma SameMembers(a: seq<Id>, b: seq<Id>)
    requires multiset(a) == multiset(b)
    ensures forall x :: x in a <==> x in b
  {
    assert forall x :: x in a <==> x in multiset(a);
    assert forall x :: x in b <==> x in multiset(b);
  }

  method CountInSection(lessons: map<Id, Place>, rows: seq<Id>, section: Id) returns (count: nat)
    requires forall l :: l in rows ==> l in lessons
    ensures count == |Group(lessons, rows, section)|
  {
    count := 0;
    for i := 0 to |rows|
      invariant count == |Group(lessons, rows[..i], section)|
    {
      assert rows[..i + 1] == rows[..i] + [rows[i]];
      GroupAppend(lessons, rows[..i], rows[i], section);
      if lessons[rows[i]].section == section { count := count + 1; }
    }
    assert rows[..|rows|] == rows;
  }

  method CountOthers(lessons: map<Id, Place>, rows: seq<Id>, section: Id, id: Id) returns (count: nat)
    requires forall l :: l in rows ==> l in lessons
    ensures count == |Without(Group(lessons, rows, section), id)|
  {
    count := 0;
    for i := 0 to |rows|
      invariant count == |Kept(lessons, rows[..i], Some(id), section)|
    {
      assert rows[..i + 1] == rows[..i] + [rows[i]];
      KeptAppend(lessons, rows[..i], rows[i], Some(id), section);
      if lessons[rows[i]].section == section && rows[i] != id { count := count + 1; }
    }
    assert rows[..|rows|] == rows;
  }

  // ----- the legacy path: sparse renumbering -----

  /** Where MoveLesson puts the lesson: any position past the end means the end. */
  function LegacySequence(siblings: seq<Id>, id: Id, position: nat): seq<Id> {
    InsertAt(Without(siblings, id), Min(position, |Without(siblings, id)|), id)
  }

  /**
   * MoveLesson within its target section. `siblings` is the section's listing before the
   * move. Only orders that differ are written, and still the section ends dense along
   * LegacySequence, whatever gaps its column had; `written` lists the rows touched.
   */
  method MoveLegacyLesson(lessons: map<Id, Place>, id: Id, target: Id, position: nat, siblings: seq<Id>)
    returns (out: map<Id, Place>, written: set<Id>)
    requires id in lessons && IsListing(InSection(lessons, target), siblings)
    ensures out.Keys == lessons.Keys && out[id].section == target
    ensures Ordered(InSection(out, target), LegacySequence(siblings, id, position))
    ensures MovedAtMost(InSection(lessons, target), InSection(out, target), id, position)
    ensures forall l :: l in lessons && l !in written ==> out[l] == lessons[l]
    ensures forall l :: l in written && l != id ==> l in lessons && lessons[l].section == target == out[l].section && out[l].order != lessons[l].order
  {
    hide Ordered, Distinct, Without, InsertAt, MovedAtMost;
    assert forall l :: l in siblings <==> l in lessons && lessons[l].section == target;
    ListingDistinct(InSection(lessons, target), siblings);
    WithoutDistinct(siblings, id);
    WithoutMembers(siblings, id);
    hide IsListing, InSection;
    var maxOrder := |siblings|;
    if lessons[id].section == target && maxOrder > 0 { maxOrder := maxOrder - 1; }
    var slot := if position > maxOrder then maxOrder else position;
    var rows;
    rows, written := ShiftSiblings(lessons[id := Place(target, slot)], id, target, slot, siblings);
    out, written := rows, written + {id};
    SlotsAreOrdered(lessons, out, id, target, Without(siblings, id), slot);
    hide Shifted;
    assert Ordered(InSection(out, target), LegacySequence(siblings, id, position));
    MovedAtMostExactly(InSection(lessons, target), siblings, InSection(out, target), id, position);
  }

  /** The column with id at the position, or last if that is past the end. */
  ghost predicate MovedAtMost(before: map<Id, nat>, after: map<Id, nat>, id: Id, position: nat) {
    var others := |before.Keys - {id}|;
    Moved(before, after, id, if position <= others then position else others)
  }

  lemma {:induction false} DistinctCount(s: seq<Id>)
    requires Distinct(s)
    ensures |Members(s)| == |s|
  {
    if s != [] {
      DistinctCount(s[1..]);
      assert Members(s) == {s[0]} + Members(s[1..]);
    }
  }

  lemma MovedAtMostExactly(before: map<Id, nat>, listing: seq<Id>, after: map<Id, nat>, id: Id, position: nat)
    requires IsListing(before, listing) && Ordered(after, LegacySequence(listing, id, position))
    ensures MovedAtMost(before, after, id, position)
  {
    hide IsListing, Ordered, Without, InsertAt, Members, Distinct;
    ListingDistinct(before, listing);
    WithoutDistinct(listing, id);
    ListedWithout(before, listing, id);
    DistinctCount(Without(listing, id));
    MovedExactly(before, listing, after, id, Min(position, |Without(listing, id)|));
  }

  /** The first `done` siblings have been given their orders; `written` are those that changed. */
  ghost predicate Shifted(lessons: map<Id, Place>, out: map<Id, Place>, written: set<Id>, rest: seq<Id>, done: nat, target: Id, slot: nat) {
    && done <= |rest| && out.Keys == lessons.Keys && (forall k :: 0 <= k < |rest| ==> rest[k] in lessons)
    && (forall k :: 0 <= k < done ==> out[rest[k]] == Place(target, if k < slot then k else k + 1))
    && (forall k :: done <= k < |rest| ==> out[rest[k]] == lessons[rest[k]])
    && (forall l :: l in lessons && l !in written ==> out[l] == lessons[l])
    && forall l :: l in written ==> l in rest && l in lessons && out[l].order != lessons[l].order
  }

  lemma ShiftStep(lessons: map<Id, Place>, out: map<Id, Place>, written: set<Id>, rest: seq<Id>, done: nat, target: Id, slot: nat)
    requires Shifted(lessons, out, written, rest, done, target, slot) && Distinct(rest) && done < |rest|
    requires lessons[rest[done]].section == target
    ensures rest[done] in out && out[rest[done]] == lessons[rest[done]]
    ensures
      var order := if done >= slot then done + 1 else done;
      if order == lessons[rest[done]].order then Shifted(lessons, out, written, rest, done + 1, target, slot)
      else Shifted(lessons, out[rest[done] := Place(target, order)], written + {rest[done]}, rest, done + 1, target, slot)
  {
  }

  /** The loop over the siblings: a running index that skips the slot, written only where it differs. */
  method ShiftSiblings(lessons: map<Id, Place>, id: Id, target: Id, slot: nat, siblings: seq<Id>)
    returns (out: map<Id, Place>, written: set<Id>)
    requires Distinct(Without(siblings, id)) && forall l :: l in siblings && l != id ==> l in lessons && lessons[l].section == target
    ensures Shifted(lessons, out, written, Without(siblings, id), |Without(siblings, id)|, target, slot)
  {
    ghost var rest := Without(siblings, id);
    out, written := lessons, {};
    var index := 0;
    ShiftStart(lessons, siblings, id, target, slot);
    hide Without, Distinct, Shifted;
    for i := 0 to |siblings|
      invariant Passed(siblings, i, id, rest, index) && Shifted(lessons, out, written, rest, index, target, slot)
    {
      var sibling := siblings[i];
      PassedStep(siblings, i, id, rest, index);
      if sibling != id {
        var nextOrder := if index >= slot then index + 1 else index;
        ShiftStep(lessons, out, written, rest, index, target, slot);
        if nextOrder != out[sibling].order {
          out := out[sibling := out[sibling].(order := nextOrder)];
          written := written + {sibling};
        }
        index := index + 1;
      }
    }
    assert siblings[..|siblings|] == siblings;
  }

  /** The first i siblings are the moved lesson or the first `index` of the rest. */
  ghost predicate Passed(siblings: seq<Id>, i: nat, id: Id, rest: seq<Id>, index: nat) {
    i <= |siblings| && index <= |rest| && Without(siblings[..i], id) == rest[..index]
  }

  lemma PassedStep(siblings: seq<Id>, i: nat, id: Id, rest: seq<Id>, index: nat)
    requires Passed(siblings, i, id, rest, index) && i < |siblings| && rest == Without(siblings, id)
    ensures if siblings[i] == id then Passed(siblings, i + 1, id, rest, index)
            else index < |rest| && rest[index] == siblings[i] && Passed(siblings, i + 1, id, rest, index + 1)
  {
    hide Without;
    NextKept(siblings, i, id);
  }

  lemma ShiftStart(lessons: map<Id, Place>, siblings: seq<Id>, id: Id, target: Id, slot: nat)
    requires forall l :: l in siblings && l != id ==> l in lessons && lessons[l].section == target
    ensures
      var rest := Without(siblings, id);
      && Passed(siblings, 0, id, rest, 0) && Shifted(lessons, lessons, {}, rest, 0, target, slot)
      && forall k :: 0 <= k < |rest| ==> rest[k] in lessons && lessons[rest[k]].section == target
  {
    WithoutMembers(siblings, id);
    var rest := Without(siblings, id);
    assert forall k :: 0 <= k < |rest| ==> rest[k] in rest;
    assert siblings[..0] == [] && Without([], id) == rest[..0];
  }

  lemma NextKept(s: seq<Id>, i: nat, id: Id)
    requires i < |s|
    ensures
      var done := |Without(s[..i], id)|;
      if s[i] == id then Without(s[..i + 1], id) == Without(s[..i], id)
      else
        && done < |Without(s, id)| && Without(s, id)[done] == s[i] && Without(s, id)[..done] == Without(s[..i], id)
        && Without(s[..i + 1], id) == Without(s, id)[..done + 1]
  {
    WithoutAppend(s[..i], s[i], id);
    assert s[..i + 1] == s[..i] + [s[i]];
    assert s == s[..i + 1] + s[i + 1..];
    WithoutConcat(s[..i + 1], s[i + 1..], id);
  }

  lemma SlotsAreOrdered(lessons: map<Id, Place>, out: map<Id, Place>, id: Id, target: Id, rest: seq<Id>, slot: nat)
    requires out.Keys == lessons.Keys && id in lessons && id !in rest && slot <= |rest| && Distinct(rest)
    requires forall l :: l in rest <==> l in lessons && lessons[l].section == target && l != id
    requires out[id] == Place(target, slot)
    requires forall k :: 0 <= k < |rest| ==> out[rest[k]] == Place(target, if k < slot then k else k + 1)
    requires forall l :: l in lessons && l !in rest && l != id ==> out[l] == lessons[l]
    ensures Ordered(InSection(out, target), InsertAt(rest, slot, id))
  {
    InsertPoints(rest, slot, id);
    var orders, s := InSection(out, target), InsertAt(rest, slot, id);
    forall i | 0 <= i < |s| ensures s[i] in orders && orders[s[i]] == i {
      if i != slot { assert rest[if i < slot then i else i - 1] in rest; }
    }
    forall l | l in orders ensures orders[l] < |s| && s[orders[l]] == l {
      if l != id {
        assert l in rest;
        var k :| 0 <= k < |rest| && rest[k] == l;
        assert out[rest[k]] == Place(target, if k < slot then k else k + 1);
      }
    }
  }

  /** NormalizeSectionLessonOrder on the section the lesson left: row_number over what is left. */
  method NormalizeOldSection(lessons: map<Id, Place>, section: Id, listing: seq<Id>) returns (out: map<Id, Place>)
    requires IsListing(InSection(lessons, section), listing)
    ensures out.Keys == lessons.Keys && Ordered(InSection(out, section), listing)
    ensures forall l :: l in lessons && lessons[l].section != section ==> out[l] == lessons[l]
    ensures forall l :: l in lessons ==> out[l].section == lessons[l].section
  {
    ListingDistinct(InSection(lessons, section), listing);
    assert forall l :: l in listing ==> l in lessons && lessons[l].section == section;
    out := WriteOrders(lessons, listing);
    forall l | l in lessons ensures out[l].section == lessons[l].section {
      if l in listing {
        var i :| 0 <= i < |listing| && listing[i] == l;
        assert out[listing[i]] == lessons[listing[i]].(order := i);
      }
    }
    var orders := InSection(out, section);
    forall l | l in orders ensures orders[l] < |listing| && listing[orders[l]] == l {
      assert l in InSection(lessons, section);
      var i :| 0 <= i < |listing| && listing[i] == l;
      assert out[listing[i]] == lessons[listing[i]].(order := i);
    }
    forall i | 0 <= i < |listing| ensures listing[i] in orders && orders[listing[i]] == i { assert listing[i] in listing; }
  }

  /** A dense column is determined by the sequence it numbers. */
  lemma OrderedUnique(a: map<Id, nat>, b: map<Id, nat>, s: seq<Id>)
    requires Ordered(a, s) && Ordered(b, s)
    ensures a == b
  {
    OrderedDistinct(a, s);
    OrderedDistinct(b, s);
    forall id | id in a ensures a[id] == b[id] { assert b[s[a[id]]] == a[id]; }
  }

  /**
   * MoveLesson as a whole: the target section, then, when the lesson left another section,
   * that one. `oldRows` is the listing of what is left there. Other sections are untouched.
   */
  method MoveLegacy(lessons: map<Id, Place>, id: Id, target: Id, position: nat, siblings: seq<Id>, oldRows: seq<Id>)
    returns (out: map<Id, Place>)
    requires id in lessons && IsListing(InSection(lessons, target), siblings)
    requires IsListing(InSection(lessons, lessons[id].section) - {id}, oldRows)
    ensures out.Keys == lessons.Keys && Ordered(InSection(out, target), LegacySequence(siblings, id, position))
    ensures MovedAtMost(InSection(lessons, target), InSection(out, target), id, position)
    ensures lessons[id].section != target ==> Ordered(InSection(out, lessons[id].section), oldRows)
    ensures lessons[id].section != target ==> Removed(InSection(lessons, lessons[id].section), InSection(out, lessons[id].section), id)
    ensures forall l :: l in lessons && lessons[l].section !in {target, lessons[id].section} ==> out[l] == lessons[l]
  {
    hide Ordered, IsListing, LegacySequence, MovedAtMost, Removed;
    var written;
    out, written := MoveLegacyLesson(lessons, id, target, position, siblings);
    var source := lessons[id].section;
    if source != target {
      ghost var mid := out;
      assert InSection(mid, source) == InSection(lessons, source) - {id};
      out := NormalizeOldSection(out, source, oldRows);
      assert InSection(out, target) == InSection(mid, target);
      hide InSection;
      LeftExactly(InSection(lessons, source), oldRows, InSection(out, source), id);
    }
  }

  lemma LeftExactly(before: map<Id, nat>, listing: seq<Id>, after: map<Id, nat>, id: Id)
    requires IsListing(before - {id}, listing) && Ordered(after, listing)
    ensures Removed(before, after, id)
  {
    hide IsListing, Ordered, Without;
    ListingMembers(before - {id}, listing);
    NothingToRemove(listing, id);
    RemovedExactly(before - {id}, listing, after, id);
  }

  /**
   * The sparse path and the full rewrite agree, on the section the lesson goes to and on
   * the one it leaves, for every position the full rewrite accepts and whatever gaps or
   * ties the columns had. `sparse` and `full` are described by what MoveLegacy and
   * NormalizeLessons promise.
   */
  lemma SparseEqualsFull(lessons: map<Id, Place>, id: Id, target: Id, position: nat,
                         siblings: seq<Id>, oldRows: seq<Id>, rowsAfter: seq<Id>,
                         sparse: map<Id, Place>, full: map<Id, Place>)
    requires id in lessons && IsListing(InSection(lessons, target), siblings)
    requires IsListing(InSection(lessons, lessons[id].section) - {id}, oldRows)
    requires IsLessonListing(lessons[id := Place(target, position)], rowsAfter)
    requires position <= |Kept(lessons[id := Place(target, position)], rowsAfter, Some(id), target)|
    requires Ordered(InSection(sparse, target), LegacySequence(siblings, id, position))
    requires lessons[id].section != target ==> Ordered(InSection(sparse, lessons[id].section), oldRows)
    requires Ordered(InSection(full, target), InsertAt(Kept(lessons[id := Place(target, position)], rowsAfter, Some(id), target), position, id))
    requires forall c :: c != target ==> Ordered(InSection(full, c), Kept(lessons[id := Place(target, position)], rowsAfter, Some(id), c))
    ensures InSection(sparse, target) == InSection(full, target)
    ensures InSection(sparse, lessons[id].section) == InSection(full, lessons[id].section)
  {
    hide Ordered, IsListing, InSection, Without, Group, Distinct;
    var placed, source := lessons[id := Place(target, position)], lessons[id].section;
    assert placed - {id} == lessons - {id};
    SameElsewhere(lessons, placed, id, target);
    RemoveListed(lessons, placed, rowsAfter, target, id, siblings);
    OrderedUnique(InSection(sparse, target), InSection(full, target), LegacySequence(siblings, id, position));
    if source != target {
      LeftBehind(lessons, placed, rowsAfter, source, id, oldRows);
      OrderedUnique(InSection(sparse, source), InSection(full, source), oldRows);
    }
  }

  lemma LeftBehind(lessons: map<Id, Place>, placed: map<Id, Place>, rows: seq<Id>, c: Id, id: Id, oldRows: seq<Id>)
    requires placed - {id} == lessons - {id} && id in placed && placed[id].section != c
    requires IsLessonListing(placed, rows) && IsListing(InSection(lessons, c) - {id}, oldRows)
    ensures Kept(placed, rows, Some(id), c) == oldRows
  {
    hide IsListing, Distinct;
    SameElsewhere(lessons, placed, id, c);
    GroupMembers(placed, rows, c);
    WithoutMembers(Group(placed, rows, c), id);
    assert InSection(placed, c) - {id} == InSection(placed, c);
    ListingUnique(InSection(placed, c), Group(placed, rows, c), oldRows);
  }

  /** A position past the end means the end. */
  lemma PastTheEndMeansLast(orders: map<Id, nat>, siblings: seq<Id>, id: Id, position: nat)
    requires Ordered(orders, LegacySequence(siblings, id, position)) && position >= |Without(siblings, id)|
    ensures id in orders && orders[id] == |Without(siblings, id)| && forall l :: l in orders && l != id ==> orders[l] < orders[id]
  {
    var s := LegacySequence(siblings, id, position);
    assert s == Without(siblings, id) + [id];
    assert s[|Without(siblings, id)|] == id;
  }
}

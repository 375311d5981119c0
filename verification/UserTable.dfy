/** The controller's user table (src/app.rs): a vector sorted by user id, updated by the panel's
    deltas in one of two ways, with an incremental count of the device-limited users. */
module UserTable {
  import opened Common

  /** A user row; everything but the id and the device limit is one opaque profile. */
  datatype User = User(id: nat, deviceLimit: Option<nat>, profile: string)

  const IN_PLACE_CHANGE_LIMIT := 32

  /** The table a list of rows describes: for each id, the last row with it. */
  function Rows(users: seq<User>): map<nat, User> {
    if users == [] then map[]
    else
      var n := |users| - 1;
      Rows(users[..n])[users[n].id := users[n]]
  }

  ghost predicate Sorted(users: seq<User>) {
    forall i, j :: 0 <= i < j < |users| ==> users[i].id <= users[j].id
  }

  /** Sorted by id, each id once. */
  ghost predicate Ascending(users: seq<User>) {
    forall i, j :: 0 <= i < j < |users| ==> users[i].id < users[j].id
  }

  ghost predicate DistinctIds(users: seq<User>) {
    forall i, j :: 0 <= i < j < |users| ==> users[i].id != users[j].id
  }

  /** The vector `users` is the table `m`. */
  ghost predicate IsTable(users: seq<User>, m: map<nat, User>) {
    Ascending(users) && Rows(users) == m
  }

  /** What a delta makes of a table: updates in order, the last one for an id counting, and
      removals winning over updates. */
  function Merged(base: map<nat, User>, updates: seq<User>, removed: seq<nat>): map<nat, User> {
    (base + Rows(updates)) - Elems(removed)
  }

  // ----- facts about tables

  lemma {:induction false} RowsAbsent(users: seq<User>, id: nat)
    requires forall i :: 0 <= i < |users| ==> users[i].id != id
    ensures id !in Rows(users)
  {
    if users != [] {
      RowsAbsent(users[..|users| - 1], id);
    }
  }

  /** A row of the table is the last row of the list with its id. */
  lemma {:induction false} RowsFrom(users: seq<User>, id: nat) returns (i: nat)
    requires id in Rows(users)
    ensures i < |users| && users[i].id == id && Rows(users)[id] == users[i]
    ensures forall j :: i < j < |users| ==> users[j].id != id
  {
    var n := |users| - 1;
    if users[n].id == id {
      return n;
    }
    i := RowsFrom(users[..n], id);
  }

  /** With distinct ids every row of the list is in the table. */
  lemma {:induction false} RowsAt(users: seq<User>, i: nat)
    requires DistinctIds(users) && i < |users|
    ensures users[i].id in Rows(users) && Rows(users)[users[i].id] == users[i]
  {
    var n := |users| - 1;
    if i < n {
      RowsAt(users[..n], i);
    }
  }

  lemma {:induction false} RowsAppend(users: seq<User>, more: seq<User>)
    ensures Rows(users + more) == Rows(users) + Rows(more)
  {
    if more == [] {
      assert users + more == users;
    } else {
      var n := |more| - 1;
      RowsAppend(users, more[..n]);
      assert (users + more)[..|users| + n] == users + more[..n];
    }
  }

  /** Row `i` is the last with its id. */
  ghost predicate LastOf(users: seq<User>, i: nat) {
    i < |users| && forall j :: i < j < |users| ==> users[j].id != users[i].id
  }

  /** `u` is the last row for this id. */
  ghost predicate LastRow(users: seq<User>, id: nat, u: User) {
    exists i: nat :: LastOf(users, i) && users[i].id == id && users[i] == u
  }

  ghost predicate NoRow(users: seq<User>, id: nat) {
    forall i :: 0 <= i < |users| ==> users[i].id != id
  }

  /** The table after a delta has `u` exactly if its id is not removed, and it is the last update for
      that id, or there is none and it was in the table before. */
  lemma MergedMeans(base: map<nat, User>, updates: seq<User>, removed: seq<nat>, id: nat, u: User)
    ensures var m := Merged(base, updates, removed);
            id in m && m[id] == u <==>
              && id !in removed
              && (LastRow(updates, id, u) || (NoRow(updates, id) && id in base && base[id] == u))
  {
    RowsMeans(updates, id, u);
    hide Rows, LastRow, NoRow;
  }

  lemma RowsMeans(users: seq<User>, id: nat, u: User)
    ensures id in Rows(users) <==> !NoRow(users, id)
    ensures id in Rows(users) && Rows(users)[id] == u <==> LastRow(users, id, u)
  {
    hide Rows;
    if id in Rows(users) {
      var i := RowsFrom(users, id);
      assert LastOf(users, i) && users[i].id == id;
    } else {
      forall i | 0 <= i < |users| ensures users[i].id != id {
        RowsHas(users, i);
      }
    }
    if LastRow(users, id, u) {
      var i: nat :| LastOf(users, i) && users[i].id == id && users[i] == u;
      RowsHas(users, i);
    }
  }

  lemma {:induction false} RowsHas(users: seq<User>, i: nat)
    requires i < |users|
    ensures users[i].id in Rows(users)
    ensures LastOf(users, i) ==> Rows(users)[users[i].id] == users[i]
  {
    var n := |users| - 1;
    if i < n {
      RowsHas(users[..n], i);
    }
  }

  lemma RowsOne(u: User)
    ensures Rows([u]) == map[u.id := u]
  {
    assert [u][..0] == [];
  }

  /** A row between others whose ids it does not share. */
  lemma RowsSplit(head: seq<User>, u: User, tail: seq<User>)
    requires forall i :: 0 <= i < |tail| ==> tail[i].id != u.id
    ensures Rows(head + [u] + tail) == Rows(head + tail)[u.id := u]
  {
    RowsAppend(head + [u], tail);
    RowsAppend(head, [u]);
    RowsAppend(head, tail);
    RowsOne(u);
    RowsAbsent(tail, u.id);
    hide Rows;
    PutMiddle(Rows(head), Rows(tail), u.id, u);
  }

  lemma PutMiddle(a: map<nat, User>, b: map<nat, User>, id: nat, u: User)
    requires id !in b
    ensures (a + map[id := u]) + b == (a + b)[id := u]
  {
  }

  /** A table has only one sorted form. */
  lemma {:induction false} TableUnique(a: seq<User>, b: seq<User>)
    requires Ascending(a) && Ascending(b) && Rows(a) == Rows(b)
    ensures a == b
  {
    if a == [] || b == [] {
      if a != [] {
        RowsAt(a, 0);
      }
      if b != [] {
        RowsAt(b, 0);
      }
    } else {
      SameLast(a, b);
      RowsInit(a);
      RowsInit(b);
      TableUnique(a[..|a| - 1], b[..|b| - 1]);
      assert a == a[..|a| - 1] + [a[|a| - 1]] && b == b[..|b| - 1] + [b[|b| - 1]];
    }
  }

  lemma SameLast(a: seq<User>, b: seq<User>)
    requires Ascending(a) && Ascending(b) && Rows(a) == Rows(b) && a != [] && b != []
    ensures a[|a| - 1] == b[|b| - 1]
  {
    hide Rows;
    var m, n := |a| - 1, |b| - 1;
    RowsAt(a, m);
    RowsAt(b, n);
    var i := RowsFrom(b, a[m].id);
    var j := RowsFrom(a, b[n].id);
  }

  lemma RowsInit(users: seq<User>)
    requires Ascending(users) && users != []
    ensures Rows(users[..|users| - 1]) == Rows(users) - {users[|users| - 1].id}
  {
    hide Rows;
    var n := |users| - 1;
    RemoveRow(users, n);
    assert users[..n] + users[n + 1..] == users[..n];
  }

  // ----- looking up, replacing, inserting, removing

  /** Binary search by id. */
  method Search(users: seq<User>, id: nat) returns (found: bool, index: nat)
    requires Ascending(users)
    ensures Located(users, id, found, index)
  {
    var lo, hi := 0, |users|;
    while lo < hi
      invariant 0 <= lo <= hi <= |users|
      invariant forall i :: 0 <= i < lo ==> users[i].id < id
      invariant forall i :: hi <= i < |users| ==> id < users[i].id
    {
      var mid := lo + (hi - lo) / 2;
      if users[mid].id == id {
        return true, mid;
      } else if users[mid].id < id {
        lo := mid + 1;
      } else {
        hi := mid;
      }
    }
    return false, lo;
  }

  /** The outcome of a search. */
  ghost predicate Located(users: seq<User>, id: nat, found: bool, index: nat) {
    if found then index < |users| && users[index].id == id
    else
      && index <= |users|
      && (forall i :: 0 <= i < index ==> users[i].id < id)
      && (forall i :: index <= i < |users| ==> id < users[i].id)
  }

  lemma LocatedRow(users: seq<User>, id: nat, found: bool, index: nat)
    requires Ascending(users) && Located(users, id, found, index)
    ensures found <==> id in Rows(users)
    ensures found ==> Rows(users)[id] == users[index]
  {
    if found {
      RowsAt(users, index);
    } else {
      RowsAbsent(users, id);
    }
  }

  lemma ReplaceRow(users: seq<User>, index: nat, u: User)
    requires Ascending(users) && index < |users| && users[index].id == u.id
    ensures Ascending(users[index := u])
    ensures Rows(users[index := u]) == Rows(users)[u.id := u]
  {
    hide Rows;
    var head, tail := users[..index], users[index + 1..];
    assert users == head + [users[index]] + tail;
    assert users[index := u] == head + [u] + tail;
    RowsSplit(head, users[index], tail);
    RowsSplit(head, u, tail);
  }

  lemma InsertRow(users: seq<User>, index: nat, u: User)
    requires Ascending(users) && Located(users, u.id, false, index)
    ensures Ascending(users[..index] + [u] + users[index..])
    ensures Rows(users[..index] + [u] + users[index..]) == Rows(users)[u.id := u]
  {
    hide Rows;
    assert users == users[..index] + users[index..];
    RowsSplit(users[..index], u, users[index..]);
  }

  lemma RemoveRow(users: seq<User>, index: nat)
    requires Ascending(users) && index < |users|
    ensures Ascending(users[..index] + users[index + 1..])
    ensures Rows(users[..index] + users[index + 1..]) == Rows(users) - {users[index].id}
  {
    hide Rows;
    var head, u, tail := users[..index], users[index], users[index + 1..];
    assert users == head + [u] + tail;
    RowsSplit(head, u, tail);
    RowsAbsent(head + tail, u.id);
    TakeBack(Rows(head + tail), u.id, u);
  }

  lemma TakeBack(a: map<nat, User>, id: nat, u: User)
    requires id !in a
    ensures a[id := u] - {id} == a
  {
  }
}

/** Applying a panel delta to the user table (src/app.rs, merge_user_delta): a small delta is applied
    in place, a large one in one batch.  Both give the same table. */
module UserMerge {
  import opened Common
  import opened UserTable

  // ----- sorting by id

  /** Insertion behind the rows with the same id, as a stable sort does. */
  function InsertById(users: seq<User>, u: User): seq<User> {
    if users == [] || users[|users| - 1].id <= u.id then users + [u]
    else InsertById(users[..|users| - 1], u) + [users[|users| - 1]]
  }

  function SortById(users: seq<User>): seq<User> {
    if users == [] then [] else InsertById(SortById(users[..|users| - 1]), users[|users| - 1])
  }

  lemma {:induction false} InsertKeeps(users: seq<User>, u: User)
    requires Sorted(users)
    ensures Sorted(InsertById(users, u))
    ensures forall x :: x in InsertById(users, u) <==> x in users || x == u
    ensures Rows(InsertById(users, u)) == Rows(users)[u.id := u]
  {
    hide Rows;
    var n := |users| - 1;
    if users == [] || users[n].id <= u.id {
      RowsAppend(users, [u]);
      RowsOne(u);
    } else {
      InsertKeeps(users[..n], u);
      var inner := InsertById(users[..n], u);
      RowsAppend(inner, [users[n]]);
      RowsAppend(users[..n], [users[n]]);
      RowsOne(users[n]);
      assert users == users[..n] + [users[n]];
      assert forall x :: x in inner ==> x.id <= users[n].id;
      PutTwice(Rows(users[..n]), u, users[n]);
    }
  }

  lemma PutTwice(a: map<nat, User>, u: User, v: User)
    requires u.id != v.id
    ensures a[u.id := u] + map[v.id := v] == (a + map[v.id := v])[u.id := u]
  {
  }

  /** A stable sort keeps the table, duplicates included: the last row of an id stays the last. */
  lemma {:induction false} SortKeeps(users: seq<User>)
    ensures Sorted(SortById(users))
    ensures forall x :: x in SortById(users) <==> x in users
    ensures Rows(SortById(users)) == Rows(users)
  {
    hide InsertById;
    if users != [] {
      var n := |users| - 1;
      SortKeeps(users[..n]);
      InsertKeeps(SortById(users[..n]), users[n]);
      assert users == users[..n] + [users[n]];
    }
  }

  lemma AppendAscending(users: seq<User>, u: User)
    requires Ascending(users) && forall x :: x in users ==> x.id < u.id
    ensures Ascending(users + [u])
  {
  }

  lemma {:induction false} InsertNew(users: seq<User>, u: User)
    requires Ascending(users) && forall x :: x in users ==> x.id != u.id
    ensures Ascending(InsertById(users, u))
  {
    hide Rows, Ascending;
    var n := |users| - 1;
    LastIsGreatest(users);
    if users == [] || users[n].id < u.id {
      AppendAscending(users, u);
    } else {
      assert users == users[..n] + [users[n]];
      InsertNew(users[..n], u);
      InsertKeeps(users[..n], u);
      AppendAscending(InsertById(users[..n], u), users[n]);
    }
  }

  lemma LastIsGreatest(users: seq<User>)
    requires Ascending(users)
    ensures Sorted(users)
    ensures users != [] ==> Ascending(users[..|users| - 1]) && Sorted(users[..|users| - 1])
    ensures users != [] ==> forall x :: x in users[..|users| - 1] ==> x.id < users[|users| - 1].id
  {
  }

  lemma FreshLast(users: seq<User>)
    requires DistinctIds(users) && users != []
    ensures DistinctIds(users[..|users| - 1])
    ensures forall x :: x in users[..|users| - 1] ==> x.id != users[|users| - 1].id
  {
  }

  lemma {:induction false} SortDistinct(users: seq<User>)
    requires DistinctIds(users)
    ensures IsTable(SortById(users), Rows(users))
  {
    hide Rows, DistinctIds, Ascending;
    SortKeeps(users);
    if users == [] {
      NothingAscending();
    } else {
      var n := |users| - 1;
      FreshLast(users);
      SortDistinct(users[..n]);
      SortKeeps(users[..n]);
      InsertNew(SortById(users[..n]), users[n]);
    }
  }

  lemma NothingAscending()
    ensures Ascending([])
  {
  }

  /** Sorts a table that an older build left in panel order. */
  method Normalize(users: seq<User>) returns (out: seq<User>)
    requires DistinctIds(users)
    ensures IsTable(out, Rows(users))
  {
    var i := 0;
    while i + 1 < |users|
      invariant 0 <= i
      invariant forall j, k :: 0 <= j < k <= i && k < |users| ==> users[j].id < users[k].id
    {
      if users[i].id > users[i + 1].id {
        SortDistinct(users);
        return SortById(users);
      }
      assert users[i].id != users[i + 1].id;
      i := i + 1;
    }
    return users;
  }

  // ----- the small, in-place path

  /** The table already has exactly this row. */
  predicate Holds(m: map<nat, User>, u: User) {
    u.id in m && m[u.id] == u
  }

  ghost predicate SomeUpdateDiffers(m: map<nat, User>, updates: seq<User>) {
    exists j :: 0 <= j < |updates| && !Holds(m, updates[j])
  }

  ghost predicate SomeRemovedPresent(m: map<nat, User>, removed: seq<nat>) {
    exists j :: 0 <= j < |removed| && removed[j] in m
  }

  lemma RowsNext(updates: seq<User>, i: nat)
    requires i < |updates|
    ensures Rows(updates[..i + 1]) == Rows(updates[..i])[updates[i].id := updates[i]]
  {
    assert updates[..i + 1][..i] == updates[..i];
  }

  /** Putting one more update on top. */
  lemma UpdateNext(base: map<nat, User>, updates: seq<User>, i: nat)
    requires i < |updates|
    ensures base + Rows(updates[..i + 1]) == (base + Rows(updates[..i]))[updates[i].id := updates[i]]
  {
    RowsNext(updates, i);
  }

  lemma SameRow(m: map<nat, User>, u: User)
    requires Holds(m, u)
    ensures m[u.id := u] == m
  {
  }

  method UpdateInPlace(base: seq<User>, updates: seq<User>) returns (users: seq<User>, changed: bool)
    requires Ascending(base)
    ensures IsTable(users, Rows(base) + Rows(updates))
    ensures changed <==> SomeUpdateDiffers(Rows(base), updates)
    ensures !changed ==> users == base
  {
    hide Rows;
    users, changed := base, false;
    var i := 0;
    EmptyRows(Rows(base), updates);
    while i < |updates|
      invariant 0 <= i <= |updates|
      invariant Ascending(users) && Rows(users) == Rows(base) + Rows(updates[..i])
      invariant changed <==> SomeUpdateDiffers(Rows(base), updates[..i])
      invariant !changed ==> users == base
    {
      var user := updates[i];
      var found, index := Search(users, user.id);
      LocatedRow(users, user.id, found, index);
      UpdateNext(Rows(base), updates, i);
      DiffersNext(Rows(base), updates, i);
      if found {
        if users[index] != user {
          ReplaceRow(users, index, user);
          users, changed := users[index := user], true;
        } else {
          SameRow(Rows(users), user);
        }
      } else {
        InsertRow(users, index, user);
        users, changed := users[..index] + [user] + users[index..], true;
      }
      i := i + 1;
    }
    assert updates[..i] == updates;
  }

  lemma EmptyRows(base: map<nat, User>, updates: seq<User>)
    ensures base + Rows(updates[..0]) == base
  {
  }

  lemma DiffersNext(m: map<nat, User>, updates: seq<User>, i: nat)
    requires i < |updates|
    ensures SomeUpdateDiffers(m, updates[..i + 1]) <==> SomeUpdateDiffers(m, updates[..i]) || !Holds(m, updates[i])
  {
    var more := updates[..i + 1];
    if SomeUpdateDiffers(m, updates[..i]) {
      var j :| 0 <= j < i && !Holds(m, updates[..i][j]);
      assert !Holds(m, more[j]);
    }
    if !Holds(m, updates[i]) {
      assert !Holds(m, more[i]);
    }
    if SomeUpdateDiffers(m, more) {
      var j :| 0 <= j < i + 1 && !Holds(m, more[j]);
      if j < i {
        assert !Holds(m, updates[..i][j]);
      }
    }
  }

  lemma PresentNext(m: map<nat, User>, removed: seq<nat>, i: nat)
    requires i < |removed|
    ensures SomeRemovedPresent(m, removed[..i + 1]) <==> SomeRemovedPresent(m, removed[..i]) || removed[i] in m
    ensures Elems(removed[..i + 1]) == Elems(removed[..i]) + {removed[i]}
  {
    var more := removed[..i + 1];
    assert more == removed[..i] + [removed[i]];
    if SomeRemovedPresent(m, removed[..i]) {
      var j :| 0 <= j < i && removed[..i][j] in m;
      assert more[j] in m;
    }
    if removed[i] in m {
      assert more[i] in m;
    }
    if SomeRemovedPresent(m, more) {
      var j :| 0 <= j < i + 1 && more[j] in m;
      if j < i {
        assert removed[..i][j] in m;
      }
    }
  }

  method RemoveInPlace(base: seq<User>, removed: seq<nat>) returns (users: seq<User>, changed: bool)
    requires Ascending(base)
    ensures IsTable(users, Rows(base) - Elems(removed))
    ensures changed <==> SomeRemovedPresent(Rows(base), removed)
    ensures !changed ==> users == base
  {
    hide Rows;
    users, changed := base, false;
    var i := 0;
    assert Rows(base) - Elems(removed[..0]) == Rows(base);
    while i < |removed|
      invariant 0 <= i <= |removed|
      invariant Ascending(users) && Rows(users) == Rows(base) - Elems(removed[..i])
      invariant changed <==> SomeRemovedPresent(Rows(base), removed[..i])
      invariant !changed ==> users == base
    {
      var id := removed[i];
      var found, index := Search(users, id);
      LocatedRow(users, id, found, index);
      PresentNext(Rows(base), removed, i);
      MinusNext(Rows(base), Elems(removed[..i]), id);
      if found {
        RemoveRow(users, index);
        users, changed := users[..index] + users[index + 1..], true;
      }
      i := i + 1;
    }
    assert removed[..i] == removed;
  }

  lemma MinusNext(m: map<nat, User>, gone: set<nat>, id: nat)
    ensures m - (gone + {id}) == (m - gone) - {id}
    ensures id !in m - gone ==> m - (gone + {id}) == m - gone
  {
  }

  /** At most IN_PLACE_CHANGE_LIMIT changes.  The flag says that some update differed from the row
      it met in the old table, or that some removed id was there. */
  method MergeInPlace(base: seq<User>, updates: seq<User>, removed: seq<nat>) returns (users: seq<User>, changed: bool)
    requires Ascending(base)
    ensures IsTable(users, Merged(Rows(base), updates, removed))
    ensures changed <==> SomeUpdateDiffers(Rows(base), updates) || SomeRemovedPresent(Rows(base), removed)
    ensures !changed ==> users == base
  {
    hide Rows;
    var updated, updateChanged := UpdateInPlace(base, updates);
    var removeChanged;
    users, removeChanged := RemoveInPlace(updated, removed);
    changed := updateChanged || removeChanged;
  }
}

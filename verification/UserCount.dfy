/** The incremental count of device-limited users, and full user lists (src/app.rs,
    device_limit_count_after_delta, count_device_limited_users and prepare_full_user_list). */
module UserCount {
  import opened Common
  import opened UserTable
  import opened UserMerge

  predicate Limited(u: User) {
    u.deviceLimit.Some? && u.deviceLimit.value > 0
  }

  function CountLimited(users: seq<User>): nat {
    if users == [] then 0
    else CountLimited(users[..|users| - 1]) + if Limited(users[|users| - 1]) then 1 else 0
  }

  /** The ids of the limited users of a table. */
  function LimitedIds(m: map<nat, User>): set<nat> {
    set id | id in m && Limited(m[id])
  }

  /** Counting the vector counts the table. */
  lemma {:induction false} CountsTable(users: seq<User>)
    requires DistinctIds(users)
    ensures CountLimited(users) == |LimitedIds(Rows(users))|
  {
    if users != [] {
      var n := |users| - 1;
      CountsTable(users[..n]);
      FreshLast(users);
      RowsAbsent(users[..n], users[n].id);
      PutOne(Rows(users[..n]), users[n].id, Some(users[n]));
    } else {
      assert LimitedIds(map[]) == {};
    }
  }

  /** The table with the row of `id` replaced, or removed. */
  function With(m: map<nat, User>, id: nat, row: Option<User>): map<nat, User> {
    if row.Some? then m[id := row.value] else m - {id}
  }

  predicate IsLimited(m: map<nat, User>, id: nat) {
    id in m && Limited(m[id])
  }

  /** Changing one row changes the count by that row alone. */
  lemma PutOne(m: map<nat, User>, id: nat, row: Option<User>)
    ensures |LimitedIds(With(m, id, row))| + (if IsLimited(m, id) then 1 else 0)
         == |LimitedIds(m)| + (if row.Some? && Limited(row.value) then 1 else 0)
  {
    ToggleCard(LimitedIds(m), LimitedIds(With(m, id, row)), id);
  }

  lemma ToggleCard(before: set<nat>, after: set<nat>, id: nat)
    requires after - {id} == before - {id}
    ensures |after| + (if id in before then 1 else 0) == |before| + (if id in after then 1 else 0)
  {
    assert |before| == |before - {id}| + if id in before then 1 else 0;
    assert |after| == |after - {id}| + if id in after then 1 else 0;
  }

  function RowOf(m: map<nat, User>, id: nat): Option<User> {
    if id in m then Some(m[id]) else None
  }

  /** The rows of `done` as in `after`, the others as in `before`. */
  function Partly(before: map<nat, User>, after: map<nat, User>, done: set<nat>): map<nat, User> {
    map id | id in before.Keys + after.Keys && (if id in done then id in after else id in before)
      :: if id in done then after[id] else before[id]
  }

  lemma PartlyNext(before: map<nat, User>, after: map<nat, User>, done: set<nat>, id: nat)
    requires id !in done
    ensures Partly(before, after, done + {id}) == With(Partly(before, after, done), id, RowOf(after, id))
    ensures IsLimited(Partly(before, after, done), id) == IsLimited(before, id)
  {
  }

  /** Moving one id from the old table to the new one changes the count by that row alone. */
  lemma CountStep(before: map<nat, User>, after: map<nat, User>, done: set<nat>, id: nat)
    requires id !in done
    ensures |LimitedIds(Partly(before, after, done + {id}))| + (if IsLimited(before, id) then 1 else 0)
         == |LimitedIds(Partly(before, after, done))| + (if IsLimited(after, id) then 1 else 0)
    ensures IsLimited(before, id) ==> |LimitedIds(Partly(before, after, done))| > 0
  {
    PartlyNext(before, after, done, id);
    hide Partly;
    PutOne(Partly(before, after, done), id, RowOf(after, id));
    if IsLimited(before, id) {
      assert id in LimitedIds(Partly(before, after, done));
    }
  }

  lemma PartlyAll(before: map<nat, User>, after: map<nat, User>, touched: set<nat>)
    requires forall id :: id !in touched ==> RowOf(before, id) == RowOf(after, id)
    ensures Partly(before, after, {}) == before && Partly(before, after, touched) == after
  {
    forall id | id in before || id in after
      ensures id in Partly(before, after, touched) <==> id in after
    {
      assert id !in touched ==> RowOf(before, id) == RowOf(after, id);
    }
    assert Partly(before, after, touched).Keys == after.Keys;
    forall id | id in after ensures Partly(before, after, touched)[id] == after[id] {
      assert id !in touched ==> RowOf(before, id) == RowOf(after, id);
    }
  }

  lemma UntouchedRows(base: map<nat, User>, updates: seq<User>, removed: seq<nat>)
    ensures forall id :: id !in Elems(removed) + Rows(updates).Keys ==>
      RowOf(base, id) == RowOf(Merged(base, updates, removed), id)
  {
  }

  function SaturatingSub(a: nat, b: nat): nat {
    if a < b then 0 else a - b
  }

  /** The new count from the old one and the touched ids alone, in whatever order the hash set
      yields them: exactly the recount of the merged table.  The subtraction never saturates. */
  method CountAfterDelta(currentCount: nat, users: seq<User>, updates: seq<User>, removed: seq<nat>)
    returns (count: nat)
    requires Ascending(users) && currentCount == CountLimited(users)
    ensures count == |LimitedIds(Merged(Rows(users), updates, removed))|
  {
    hide Rows, Partly, LimitedIds, Merged, CountLimited;
    var gone := Elems(removed);
    var latest := Rows(updates);
    var affected := gone + latest.Keys;
    ghost var before, after := Rows(users), Merged(Rows(users), updates, removed);
    ghost var done: set<nat> := {};
    CountsTable(users);
    UntouchedRows(before, updates, removed);
    PartlyAll(before, after, affected);
    count := currentCount;
    ghost var all := affected;
    while affected != {}
      invariant affected + done == all && affected !! done
      invariant count == |LimitedIds(Partly(before, after, done))|
      decreases |affected|
    {
      var uid :| uid in affected;
      var found, index := Search(users, uid);
      LocatedRow(users, uid, found, index);
      var previous := found && Limited(users[index]);
      var next := uid !in gone && uid in latest && Limited(latest[uid]);
      CountStep(before, after, done, uid);
      TouchedRow(before, updates, removed, uid);
      if previous && !next {
        assert count > 0;
        count := SaturatingSub(count, 1);
      } else if !previous && next {
        count := count + 1;
      }
      affected, done := affected - {uid}, done + {uid};
    }
    assert done == all;
  }

  lemma TouchedRow(base: map<nat, User>, updates: seq<User>, removed: seq<nat>, id: nat)
    requires id in Elems(removed) + Rows(updates).Keys
    ensures IsLimited(Merged(base, updates, removed), id)
       <==> id !in Elems(removed) && id in Rows(updates) && Limited(Rows(updates)[id])
  {
  }

  /** The maintained count equals a recount of the merged vector. */
  lemma DeltaCountIsRecount(base: map<nat, User>, updates: seq<User>, removed: seq<nat>, merged: seq<User>)
    requires IsTable(merged, Merged(base, updates, removed))
    ensures CountLimited(merged) == |LimitedIds(Merged(base, updates, removed))|
  {
    CountsTable(merged);
  }

  /** A full response, in id order, and whether it differs from the current table. */
  method PrepareFull(current: Option<seq<User>>, users: seq<User>) returns (out: seq<User>, changed: bool)
    requires DistinctIds(users)
    ensures IsTable(out, Rows(users))
    ensures changed <==> current != Some(out)
    ensures current.Some? && Ascending(current.value) ==> (changed <==> Rows(current.value) != Rows(users))
  {
    SortDistinct(users);
    out := SortById(users);
    changed := current != Some(out);
    if current.Some? && Ascending(current.value) && Rows(current.value) == Rows(users) {
      TableUnique(current.value, out);
    }
  }
}

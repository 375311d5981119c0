/** The batch path of merge_user_delta (src/app.rs), and the choice between the two paths. */
module UserBatch {
  import opened Common
  import opened UserTable
  import opened UserMerge

  // ----- preparing the delta

  /** Keeps the last row of each id of a sorted list. */
  method Dedup(sorted: seq<User>) returns (out: seq<User>)
    requires Sorted(sorted)
    ensures IsTable(out, Rows(sorted))
  {
    hide Rows;
    out := [];
    var i := 0;
    NoRows(sorted);
    while i < |sorted|
      invariant 0 <= i <= |sorted|
      invariant Ascending(out) && Rows(out) == Rows(sorted[..i])
      invariant i == 0 ==> out == []
      invariant i > 0 ==> out != [] && out[|out| - 1].id == sorted[i - 1].id
    {
      var current := sorted[i];
      RowsNext(sorted, i);
      if out != [] && out[|out| - 1].id == current.id {
        ReplaceRow(out, |out| - 1, current);
        out := out[|out| - 1 := current];
      } else {
        assert i > 0 ==> sorted[i - 1].id <= sorted[i].id;
        InsertRow(out, |out|, current);
        assert out[..|out|] + [current] + out[|out|..] == out + [current];
        out := out + [current];
      }
      i := i + 1;
    }
    assert sorted[..i] == sorted;
  }

  lemma NoRows(users: seq<User>)
    ensures Rows([]) == map[] && Rows(users[..0]) == map[]
  {
  }

  ghost predicate AscendingIds(ids: seq<nat>) {
    forall i, j :: 0 <= i < j < |ids| ==> ids[i] < ids[j]
  }

  /** Sorting and deduplicating ids. */
  function InsertId(ids: seq<nat>, id: nat): seq<nat> {
    if ids == [] || ids[|ids| - 1] < id then ids + [id]
    else if ids[|ids| - 1] == id then ids
    else InsertId(ids[..|ids| - 1], id) + [ids[|ids| - 1]]
  }

  function UniqueIds(ids: seq<nat>): seq<nat> {
    if ids == [] then [] else InsertId(UniqueIds(ids[..|ids| - 1]), ids[|ids| - 1])
  }

  lemma {:induction false} InsertIdKeeps(ids: seq<nat>, id: nat)
    requires AscendingIds(ids)
    ensures AscendingIds(InsertId(ids, id))
    ensures forall x :: x in InsertId(ids, id) <==> x in ids || x == id
  {
    var n := |ids| - 1;
    if ids != [] && ids[n] > id {
      InsertIdKeeps(ids[..n], id);
      assert ids == ids[..n] + [ids[n]];
      AppendId(InsertId(ids[..n], id), ids[n]);
    } else if ids == [] || ids[n] < id {
      AppendId(ids, id);
    }
  }

  lemma AppendId(ids: seq<nat>, id: nat)
    requires AscendingIds(ids) && forall x :: x in ids ==> x < id
    ensures AscendingIds(ids + [id])
  {
    forall i | 0 <= i < |ids| ensures ids[i] < id {
      assert ids[i] in ids;
    }
  }

  lemma {:induction false} UniqueIdsKeeps(ids: seq<nat>)
    ensures AscendingIds(UniqueIds(ids)) && Elems(UniqueIds(ids)) == Elems(ids)
  {
    hide InsertId;
    if ids != [] {
      var n := |ids| - 1;
      UniqueIdsKeeps(ids[..n]);
      InsertIdKeeps(UniqueIds(ids[..n]), ids[n]);
      assert ids == ids[..n] + [ids[n]];
      assert forall x :: x in UniqueIds(ids[..n]) <==> x in Elems(UniqueIds(ids[..n]));
      assert forall x :: x in ids[..n] <==> x in Elems(ids[..n]);
    }
  }

  method ContainsId(ids: seq<nat>, id: nat) returns (found: bool)
    requires AscendingIds(ids)
    ensures found <==> id in ids
  {
    var lo, hi := 0, |ids|;
    while lo < hi
      invariant 0 <= lo <= hi <= |ids|
      invariant forall i :: 0 <= i < lo ==> ids[i] < id
      invariant forall i :: hi <= i < |ids| ==> id < ids[i]
    {
      var mid := lo + (hi - lo) / 2;
      if ids[mid] == id {
        return true;
      } else if ids[mid] < id {
        lo := mid + 1;
      } else {
        hi := mid;
      }
    }
    return false;
  }

  // ----- does the delta change anything?

  /** With removals winning, update `u` makes a difference to table `m`. */
  predicate Matters(m: map<nat, User>, u: User, gone: set<nat>) {
    if u.id in m then u.id in gone || m[u.id] != u else u.id !in gone
  }

  ghost predicate SomeMatters(m: map<nat, User>, updates: seq<User>, gone: set<nat>) {
    exists j :: 0 <= j < |updates| && Matters(m, updates[j], gone)
  }

  lemma MattersNext(m: map<nat, User>, updates: seq<User>, gone: set<nat>, i: nat)
    requires i < |updates|
    ensures SomeMatters(m, updates[..i + 1], gone) <==>
      SomeMatters(m, updates[..i], gone) || Matters(m, updates[i], gone)
  {
    var more := updates[..i + 1];
    if SomeMatters(m, updates[..i], gone) {
      var j :| 0 <= j < i && Matters(m, updates[..i][j], gone);
      assert Matters(m, more[j], gone);
    }
    if Matters(m, updates[i], gone) {
      assert Matters(m, more[i], gone);
    }
    if SomeMatters(m, more, gone) {
      var j :| 0 <= j < i + 1 && Matters(m, more[j], gone);
      if j < i {
        assert Matters(m, updates[..i][j], gone);
      }
    }
  }

  /** Looking at the delta alone tells exactly whether the table will change. */
  lemma ChangeExact(m: map<nat, User>, updates: seq<User>, removed: seq<nat>)
    requires Ascending(updates)
    ensures Merged(m, updates, removed) != m
       <==> SomeMatters(m, updates, Elems(removed)) || SomeRemovedPresent(m, removed)
  {
    hide Rows;
    var merged := Merged(m, updates, removed);
    if SomeMatters(m, updates, Elems(removed)) {
      var j :| 0 <= j < |updates| && Matters(m, updates[j], Elems(removed));
      RowsAt(updates, j);
      assert updates[j].id in merged <==> updates[j].id !in Elems(removed);
    }
    if SomeRemovedPresent(m, removed) {
      var j :| 0 <= j < |removed| && removed[j] in m;
      assert removed[j] in Elems(removed);
      assert removed[j] !in merged;
    }
    if !SomeMatters(m, updates, Elems(removed)) && !SomeRemovedPresent(m, removed) {
      NothingMatters(m, updates, removed);
    }
  }

  lemma NothingMatters(m: map<nat, User>, updates: seq<User>, removed: seq<nat>)
    requires !SomeMatters(m, updates, Elems(removed)) && !SomeRemovedPresent(m, removed)
    ensures Merged(m, updates, removed) == m
  {
    hide Rows;
    var rows := Rows(updates);
    forall id | id in rows && id !in Elems(removed) ensures id in m && m[id] == rows[id] {
      var j := RowsFrom(updates, id);
      assert !Matters(m, updates[j], Elems(removed));
    }
    assert forall id :: id in m ==> id !in removed;
  }

  method DetectChange(users: seq<User>, updates: seq<User>, removed: seq<nat>) returns (changed: bool)
    requires Ascending(users) && Ascending(updates) && AscendingIds(removed)
    ensures changed <==> Merged(Rows(users), updates, removed) != Rows(users)
  {
    hide Rows;
    ghost var m, gone := Rows(users), Elems(removed);
    changed := false;
    var i := 0;
    while i < |updates|
      invariant 0 <= i <= |updates|
      invariant changed <==> SomeMatters(m, updates[..i], gone)
    {
      var user := updates[i];
      var removedByDelta := ContainsId(removed, user.id);
      var found, index := Search(users, user.id);
      LocatedRow(users, user.id, found, index);
      MattersNext(m, updates, gone, i);
      if found {
        if removedByDelta || users[index] != user {
          changed := true;
        }
      } else if !removedByDelta {
        changed := true;
      }
      i := i + 1;
    }
    assert updates[..i] == updates;
    var k := 0;
    while k < |removed|
      invariant 0 <= k <= |removed|
      invariant changed <==> SomeMatters(m, updates, gone) || SomeRemovedPresent(m, removed[..k])
    {
      var found, index := Search(users, removed[k]);
      LocatedRow(users, removed[k], found, index);
      PresentNext(m, removed, k);
      if found {
        changed := true;
      }
      k := k + 1;
    }
    assert removed[..k] == removed;
    ChangeExact(m, updates, removed);
  }

  // ----- building the new table

  /** Everything before `at` is below `id`, and nothing from `at` on is: whether `id` is there is
      seen at `at`. */
  lemma PointedRow(updates: seq<User>, at: nat, id: nat)
    requires Ascending(updates) && at <= |updates|
    requires forall j :: 0 <= j < at ==> updates[j].id < id
    requires at < |updates| ==> updates[at].id >= id
    ensures (at < |updates| && updates[at].id == id) <==> id in Rows(updates)
  {
    if at < |updates| && updates[at].id == id {
      RowsAt(updates, at);
    } else {
      RowsAbsent(updates, id);
    }
  }

  lemma PointedId(removed: seq<nat>, at: nat, id: nat)
    requires AscendingIds(removed) && at <= |removed|
    requires forall j :: 0 <= j < at ==> removed[j] < id
    requires at < |removed| ==> removed[at] >= id
    ensures (at < |removed| && removed[at] == id) <==> id in removed
  {
  }

  /** Moves a cursor over the updates up to the first one not below `id`. */
  method AdvanceRows(updates: seq<User>, from: nat, id: nat) returns (at: nat)
    requires Ascending(updates) && from <= |updates| && forall j :: 0 <= j < from ==> updates[j].id < id
    ensures from <= at <= |updates|
    ensures forall j :: 0 <= j < at ==> updates[j].id < id
    ensures (at < |updates| && updates[at].id == id) <==> id in Rows(updates)
  {
    at := from;
    while at < |updates| && updates[at].id < id
      invariant from <= at <= |updates|
      invariant forall j :: 0 <= j < at ==> updates[j].id < id
    {
      at := at + 1;
    }
    PointedRow(updates, at, id);
  }

  method AdvanceIds(removed: seq<nat>, from: nat, id: nat) returns (at: nat)
    requires AscendingIds(removed) && from <= |removed| && forall j :: 0 <= j < from ==> removed[j] < id
    ensures from <= at <= |removed|
    ensures forall j :: 0 <= j < at ==> removed[j] < id
    ensures (at < |removed| && removed[at] == id) <==> id in removed
  {
    at := from;
    while at < |removed| && removed[at] < id
      invariant from <= at <= |removed|
      invariant forall j :: 0 <= j < at ==> removed[j] < id
    {
      at := at + 1;
    }
    PointedId(removed, at, id);
  }

  /** Adding a row with a fresh id at the end, or skipping it. */
  lemma KeepNext(users: seq<User>, i: nat, kept: seq<User>, gone: set<nat>)
    requires Ascending(users) && i < |users|
    requires Ascending(kept) && Rows(kept) == Rows(users[..i]) - gone
    requires forall x :: x in kept ==> x in users[..i]
    ensures users[i].id !in gone ==>
      && Ascending(kept + [users[i]]) && Rows(kept + [users[i]]) == Rows(users[..i + 1]) - gone
      && forall x :: x in kept + [users[i]] ==> x in users[..i + 1]
    ensures users[i].id in gone ==>
      && Rows(kept) == Rows(users[..i + 1]) - gone
      && forall x :: x in kept ==> x in users[..i + 1]
  {
    RowsNext(users, i);
    RowsAppend(kept, [users[i]]);
    RowsOne(users[i]);
    hide Rows;
    assert users[..i + 1] == users[..i] + [users[i]];
    if users[i].id !in gone {
      forall x | x in kept ensures x.id < users[i].id {
        assert x in users[..i];
      }
      AppendAscending(kept, users[i]);
      PutKept(Rows(users[..i]), gone, users[i]);
    } else {
      SkipGone(Rows(users[..i]), gone, users[i]);
    }
  }

  lemma PutKept(m: map<nat, User>, gone: set<nat>, u: User)
    requires u.id !in gone
    ensures (m - gone) + map[u.id := u] == m[u.id := u] - gone
  {
  }

  lemma SkipGone(m: map<nat, User>, gone: set<nat>, u: User)
    requires u.id in gone
    ensures m[u.id := u] - gone == m - gone
  {
  }

  /** One walk over the table drops the rows the delta replaces or removes. */
  method Retain(users: seq<User>, updates: seq<User>, removed: seq<nat>) returns (kept: seq<User>)
    requires Ascending(users) && Ascending(updates) && AscendingIds(removed)
    ensures IsTable(kept, Rows(users) - (Rows(updates).Keys + Elems(removed)))
  {
    hide Rows;
    ghost var gone := Rows(updates).Keys + Elems(removed);
    kept := [];
    NoRows(users);
    var i, updateIndex, removedIndex := 0, 0, 0;
    while i < |users|
      invariant 0 <= i <= |users| && updateIndex <= |updates| && removedIndex <= |removed|
      invariant Ascending(kept) && Rows(kept) == Rows(users[..i]) - gone
      invariant forall x :: x in kept ==> x in users[..i]
      invariant forall j, k :: 0 <= j < updateIndex && i <= k < |users| ==> updates[j].id < users[k].id
      invariant forall j, k :: 0 <= j < removedIndex && i <= k < |users| ==> removed[j] < users[k].id
    {
      var id := users[i].id;
      updateIndex := AdvanceRows(updates, updateIndex, id);
      removedIndex := AdvanceIds(removed, removedIndex, id);
      var updated := updateIndex < |updates| && updates[updateIndex].id == id;
      var deleted := removedIndex < |removed| && removed[removedIndex] == id;
      KeepNext(users, i, kept, gone);
      assert updated || deleted <==> id in gone;
      if !(updated || deleted) {
        kept := kept + [users[i]];
      }
      i := i + 1;
    }
    assert users[..i] == users;
  }

  /** The updates that are not removed by the same delta. */
  method Survivors(updates: seq<User>, removed: seq<nat>) returns (extra: seq<User>)
    requires Ascending(updates) && AscendingIds(removed)
    ensures IsTable(extra, Rows(updates) - Elems(removed))
  {
    hide Rows;
    extra := [];
    NoRows(updates);
    var i, removedIndex := 0, 0;
    while i < |updates|
      invariant 0 <= i <= |updates| && removedIndex <= |removed|
      invariant Ascending(extra) && Rows(extra) == Rows(updates[..i]) - Elems(removed)
      invariant forall x :: x in extra ==> x in updates[..i]
      invariant forall j, k :: 0 <= j < removedIndex && i <= k < |updates| ==> removed[j] < updates[k].id
    {
      removedIndex := AdvanceIds(removed, removedIndex, updates[i].id);
      KeepNext(updates, i, extra, Elems(removed));
      if !(removedIndex < |removed| && removed[removedIndex] == updates[i].id) {
        extra := extra + [updates[i]];
      }
      i := i + 1;
    }
    assert updates[..i] == updates;
  }

  lemma DistinctTogether(a: seq<User>, b: seq<User>)
    requires Ascending(a) && Ascending(b) && Rows(a).Keys !! Rows(b).Keys
    ensures DistinctIds(a + b)
  {
    hide Rows;
    forall i, j | 0 <= i < |a| && 0 <= j < |b| ensures a[i].id != b[j].id {
      RowsAt(a, i);
      RowsAt(b, j);
    }
  }

  lemma MergedParts(base: map<nat, User>, rows: map<nat, User>, gone: set<nat>)
    ensures (base - (rows.Keys + gone)) + (rows - gone) == (base + rows) - gone
    ensures (base - (rows.Keys + gone)).Keys !! (rows - gone).Keys
  {
  }

  /** More than IN_PLACE_CHANGE_LIMIT changes.  The flag is exact. */
  method MergeBatch(base: seq<User>, updates: seq<User>, removed: seq<nat>) returns (users: seq<User>, changed: bool)
    requires Ascending(base)
    ensures IsTable(users, Merged(Rows(base), updates, removed))
    ensures changed <==> Merged(Rows(base), updates, removed) != Rows(base)
  {
    hide Rows, DistinctIds;
    SortKeeps(updates);
    var latest := Dedup(SortById(updates));
    UniqueIdsKeeps(removed);
    var gone := UniqueIds(removed);
    changed := DetectChange(base, latest, gone);
    var kept := Retain(base, latest, gone);
    var extra := Survivors(latest, gone);
    MergedParts(Rows(base), Rows(updates), Elems(removed));
    RowsAppend(kept, extra);
    users := kept + extra;
    if extra != [] {
      DistinctTogether(kept, extra);
      SortDistinct(users);
      users := SortById(users);
    } else {
      assert kept + [] == kept;
    }
  }

  /** What the flag says: on the small path that some update differed from the row it met in the old
      table or some removed id was there, on the large path that the table changes. */
  ghost predicate MergeFlag(base: map<nat, User>, updates: seq<User>, removed: seq<nat>) {
    if |updates| + |removed| <= IN_PLACE_CHANGE_LIMIT then
      SomeUpdateDiffers(base, updates) || SomeRemovedPresent(base, removed)
    else
      Merged(base, updates, removed) != base
  }

  /** The new table, whichever path is taken, for users in any order and any delta; when the flag
      is false the table is the old one. */
  method MergeUserDelta(users: seq<User>, updates: seq<User>, removed: seq<nat>)
    returns (out: seq<User>, changed: bool)
    requires DistinctIds(users)
    ensures IsTable(out, Merged(Rows(users), updates, removed))
    ensures !changed ==> Merged(Rows(users), updates, removed) == Rows(users)
    ensures changed <==> MergeFlag(Rows(users), updates, removed)
  {
    hide Rows;
    var base := Normalize(users);
    if |updates| + |removed| <= IN_PLACE_CHANGE_LIMIT {
      out, changed := MergeInPlace(base, updates, removed);
    } else {
      out, changed := MergeBatch(base, updates, removed);
    }
  }

  /** The delta takes back whatever it does to `base`: nothing present is removed, every removed
      update is of an absent user, and every other user's last update is the row already there. */
  ghost predicate TakesBack(base: map<nat, User>, updates: seq<User>, removed: seq<nat>) {
    && !SomeRemovedPresent(base, removed)
    && forall id :: id in Rows(updates) ==> if id in removed then id !in base else Holds(base, Rows(updates)[id])
  }

  /** The small path's flag is wrong exactly for the deltas that take back an update that differed
      from the old row; then it reports a change although the table stays the same. */
  lemma InPlaceFlagExact(base: map<nat, User>, updates: seq<User>, removed: seq<nat>)
    ensures var flag := SomeUpdateDiffers(base, updates) || SomeRemovedPresent(base, removed);
            var changed := Merged(base, updates, removed) != base;
            && (changed ==> flag)
            && (flag != changed <==> SomeUpdateDiffers(base, updates) && TakesBack(base, updates, removed))
  {
    hide Rows;
    if !SomeUpdateDiffers(base, updates) && !SomeRemovedPresent(base, removed) {
      forall j | 0 <= j < |updates| ensures !Matters(base, updates[j], Elems(removed)) {
        assert Holds(base, updates[j]);
        assert updates[j].id !in removed;
      }
      NothingMatters(base, updates, removed);
    }
    TakenBack(base, updates, removed);
  }

  lemma TakenBack(base: map<nat, User>, updates: seq<User>, removed: seq<nat>)
    ensures TakesBack(base, updates, removed) <==> Merged(base, updates, removed) == base
  {
    hide Rows;
    var rows, merged := Rows(updates), Merged(base, updates, removed);
    if SomeRemovedPresent(base, removed) {
      var j :| 0 <= j < |removed| && removed[j] in base;
      assert removed[j] in Elems(removed);
    }
    if merged == base {
      forall id | id in rows
        ensures if id in removed then id !in base else Holds(base, rows[id])
      {
        var j := RowsFrom(updates, id);
        assert id in removed <==> id !in merged;
      }
    }
    if TakesBack(base, updates, removed) {
      assert forall id :: id in base ==> id !in removed;
      forall id | id in merged ensures id in base && base[id] == merged[id] {
        if id in rows {
          var j := RowsFrom(updates, id);
        }
      }
    }
  }

  /** Adding a user and removing it in the same small delta raises the flag for an unchanged table. */
  lemma InPlaceFlagOvershoots()
    ensures var u := User(7, None, "");
            && Merged(map[], [u], [7]) == map[]
            && SomeUpdateDiffers(map[], [u])
  {
    var u := User(7, None, "");
    RowsOne(u);
    assert !Holds(map[], [u][0]);
    assert 7 in Elems([7]);
  }
}

/** The last-known-good store of a node (src/v2board/lkg.rs): a base snapshot and a journal of user
    deltas that is replayed over it when the node starts. */
module Lkg {
  import opened Common
  import opened UserTable

  datatype Server = Server(text: string)

  /** A plugin configuration; two are interchangeable at run time when their manifests agree. */
  datatype Plugin = Plugin(etag: string, manifest: string)

  predicate SamePlugin(a: Option<Plugin>, b: Option<Plugin>) {
    match (a, b)
    case (Some(p), Some(q)) => p.manifest == q.manifest
    case (None, None) => true
    case _ => false
  }

  /** The validators are those the panel gave with the server configuration and with the users. */
  datatype Snapshot = Snapshot(server: Server, table: map<nat, User>, revision: Option<nat>, plugin: Option<Plugin>,
    serverEtag: Option<string>, userEtag: Option<string>)

  datatype Record = Record(userEtag: Option<string>, revision: nat, updated: seq<User>, removed: seq<nat>)

  datatype Disk = Disk(base: Option<Snapshot>, journal: seq<Record>)

  /** A record no newer than the snapshot is passed over. */
  predicate Newer(s: Snapshot, r: Record) {
    s.revision.Some? ==> s.revision.value < r.revision
  }

  function ReplayOne(s: Snapshot, r: Record): Snapshot {
    if Newer(s, r) then
      s.(table := Merged(s.table, r.updated, r.removed), revision := Some(r.revision), userEtag := r.userEtag)
    else s
  }

  function Replayed(s: Snapshot, journal: seq<Record>): Snapshot {
    if journal == [] then s
    else ReplayOne(Replayed(s, journal[..|journal| - 1]), journal[|journal| - 1])
  }

  /** What a restart would find. */
  function Load(d: Disk): Option<Snapshot> {
    match d.base
    case None => None
    case Some(s) => Some(Replayed(s, d.journal))
  }

  function Append(d: Disk, r: Record): Disk {
    d.(journal := d.journal + [r])
  }

  function Persist(s: Snapshot): Disk {
    Disk(Some(s), [])
  }

  lemma AppendReplays(d: Disk, r: Record)
    requires d.base.Some?
    ensures Load(Append(d, r)) == Some(ReplayOne(Load(d).value, r))
  {
    assert (d.journal + [r])[..|d.journal|] == d.journal;
  }

  /** An appended delta survives a restart exactly when its revision is newer than the one on disk,
      or it changes nothing. */
  lemma AppendSurvives(d: Disk, r: Record)
    requires d.base.Some?
    ensures var before, merged := Load(d).value, Merged(Load(d).value.table, r.updated, r.removed);
            Load(Append(d, r)).value.table == merged <==>
              before.revision.None? || before.revision.value < r.revision || merged == before.table
  {
    AppendReplays(d, r);
  }

  /** The table after all deltas of a journal, whatever their revisions. */
  function MergedAll(m: map<nat, User>, journal: seq<Record>): map<nat, User> {
    if journal == [] then m
    else
      var last := journal[|journal| - 1];
      Merged(MergedAll(m, journal[..|journal| - 1]), last.updated, last.removed)
  }

  /** Each record is newer than the snapshot and than the records before it. */
  ghost predicate Advances(s: Snapshot, journal: seq<Record>) {
    && (forall k :: 0 <= k < |journal| ==> Newer(s, journal[k]))
    && (forall j, k :: 0 <= j < k < |journal| ==> journal[j].revision < journal[k].revision)
  }

  /** A journal of advancing revisions loses nothing: a restart finds the base with every delta
      applied, and the last revision and validator. */
  lemma {:induction false} JournalSurvives(s: Snapshot, journal: seq<Record>)
    requires Advances(s, journal)
    ensures Replayed(s, journal) == if journal == [] then s else
      var last := journal[|journal| - 1];
      s.(table := MergedAll(s.table, journal), revision := Some(last.revision), userEtag := last.userEtag)
  {
    if journal != [] {
      JournalSurvives(s, journal[..|journal| - 1]);
    }
  }
}

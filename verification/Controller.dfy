/** The node controller (src/app.rs, NodeController): one `Sync` pulls the panel's answers, applies
    them to the running generation, commits them to memory and makes them durable.  Panel
    answers and the outcomes of the runtime and the disk are inputs. */
module Controller {
  import opened Common
  import opened UserTable
  import opened UserMerge
  import opened UserBatch
  import opened UserCount
  import opened Lkg

  // ----- what a sync meets

  datatype ServerFetch = ServerFailed | ServerNotModified | ServerUpdated(etag: Option<string>, server: Server)

  datatype PluginFetch = PluginFailed | PluginNotModified | PluginCandidate(plugin: Plugin)

  datatype UserList = UserList(revision: Option<nat>, full: bool, users: seq<User>, removed: seq<nat>)

  datatype UserFetch =
    | UsersFailed | UsersNotModified
    | UsersUnchanged(etag: Option<string>)
    | UsersUpdated(etag: Option<string>, list: UserList, bodyHash: nat)

  /** Publishing users into the running listeners. */
  datatype Refresh = RefreshFailed | Unsupported | Refreshed

  /** Starting a new generation: a failed start either leaves the old generation running or, if
      that cannot be restarted either, leaves none. */
  datatype Replace = NotPrepared | Replaced | KeptOld | LostBoth

  /** After a failed write the disk may hold anything. */
  datatype AppendResult = Appended(compact: bool) | TooLarge | AppendFailed(left: Disk)

  datatype PersistResult = Persisted | PersistFailed(left: Disk)

  datatype Inputs = Inputs(gateOpen: bool, server: ServerFetch, plugin: PluginFetch, users: UserFetch, aliveOk: bool,
    published: bool, deltaRefresh: Refresh, fullRefresh: Refresh, replace: Replace,
    append: AppendResult, persist: PersistResult)

  /** The panel lists each user once in a full response. */
  ghost predicate InputsOk(i: Inputs) {
    i.users.UsersUpdated? && i.users.list.full ==> DistinctIds(i.users.list.users)
  }

  // ----- what a controller holds

  datatype Memory = Memory(serverEtag: Option<string>, userEtag: Option<string>, userRevision: Option<nat>,
    userBodyHash: Option<nat>, server: Option<Server>, users: Option<seq<User>>, limitedCount: nat,
    plugin: Option<Plugin>, forcePluginRefresh: bool, persistPending: bool)

  /** What the running generation serves. */
  datatype Served = Served(server: Server, table: map<nat, User>, plugin: Option<Plugin>)

  datatype Delta = Delta(updated: seq<User>, removed: seq<nat>)

  /** The memory a sync is about to commit, and what it knows about the difference. */
  datatype Candidate = Candidate(next: Memory, delta: Option<Delta>, usersChanged: bool, nonUserChanged: bool)

  datatype SyncResult = NotCommitted | Committed | CommittedNotPersisted

  /** Users are sorted and counted; without users there is no user validator and no server to serve. */
  ghost predicate MemoryOk(m: Memory, shadowsocks: bool) {
    && (m.users.Some? ==> m.server.Some? && Ascending(m.users.value) && m.limitedCount == CountLimited(m.users.value))
    && (m.users.None? ==> m.userEtag.None? && m.userRevision.None? && m.userBodyHash.None? && m.limitedCount == 0)
    && (!shadowsocks ==> m.plugin.None?)
  }

  /** The running generation serves exactly what is cached. */
  ghost predicate ServesMemory(m: Memory, served: Option<Served>) {
    served.Some? ==>
      && m.users.Some?
      && m.server == Some(served.value.server)
      && Rows(m.users.value) == served.value.table
      && SamePlugin(m.plugin, served.value.plugin)
  }

  /** A restart would find what is cached. */
  ghost predicate DiskHolds(m: Memory, d: Disk) {
    && m.users.Some? && Load(d).Some?
    && m.server == Some(Load(d).value.server)
    && Rows(m.users.value) == Load(d).value.table
    && SamePlugin(m.plugin, Load(d).value.plugin)
  }

  ghost predicate Durable(m: Memory, d: Disk) {
    m.users.Some? && !m.persistPending ==> DiskHolds(m, d)
  }

  /** The revision on disk is not ahead of the one in memory. */
  ghost predicate DiskBehind(m: Memory, d: Disk) {
    m.users.Some? && !m.persistPending && Load(d).Some? && Load(d).value.revision.Some? ==>
      m.userRevision.Some? && Load(d).value.revision.value <= m.userRevision.value
  }

  /** The panel's revision counter never goes back, and a delta with content advances it. */
  ghost predicate PanelAdvances(m: Memory, i: Inputs) {
    i.users.UsersUpdated? && m.userRevision.Some? ==>
      var list := i.users.list;
      && list.revision.Some? && m.userRevision.value <= list.revision.value
      && (!list.full && (list.users != [] || list.removed != []) ==> m.userRevision.value < list.revision.value)
  }

  /** The user table the panel's answer makes of the cached one. */
  function TableAfter(m: Memory, i: Inputs): Option<map<nat, User>> {
    if !i.users.UsersUpdated? then
      if m.users.Some? then Some(Rows(m.users.value)) else None
    else if i.users.list.full then Some(Rows(i.users.list.users))
    else if m.users.Some? then Some(Merged(Rows(m.users.value), i.users.list.users, i.users.list.removed))
    else None
  }

  /** The user part of `n` is what the panel's answer makes of `m`. */
  ghost predicate UsersFollow(m: Memory, n: Memory, i: Inputs) {
    && n.userEtag == (match i.users
                      case UsersUnchanged(etag) => etag
                      case UsersUpdated(etag, _, _) => etag
                      case _ => m.userEtag)
    && n.userRevision == (if i.users.UsersUpdated? then i.users.list.revision else m.userRevision)
    && n.userBodyHash == (if i.users.UsersUpdated? then Some(i.users.bodyHash) else m.userBodyHash)
    && TableAfter(m, i) == if n.users.Some? then Some(Rows(n.users.value)) else None
  }

  /** `n` is what the panel's answers make of `m`. */
  ghost predicate Follows(m: Memory, n: Memory, i: Inputs, shadowsocks: bool) {
    && n.serverEtag == (if i.server.ServerUpdated? then i.server.etag else m.serverEtag)
    && n.server == (if i.server.ServerUpdated? then Some(i.server.server) else m.server)
    && n.plugin == (if shadowsocks && i.plugin.PluginCandidate? then Some(i.plugin.plugin) else m.plugin)
    && n.forcePluginRefresh == (!shadowsocks && m.forcePluginRefresh)
    && UsersFollow(m, n, i)
  }

  predicate IsDelta(i: Inputs) {
    i.users.UsersUpdated? && !i.users.list.full && (i.users.list.users != [] || i.users.list.removed != [])
  }

  /** The panel's answer counts as a change of the users. */
  ghost predicate UsersFlagged(m: Memory, i: Inputs) {
    && i.users.UsersUpdated?
    && var list := i.users.list;
    if list.full then m.users.None? || Rows(m.users.value) != Rows(list.users)
    else IsDelta(i) && m.users.Some? && MergeFlag(Rows(m.users.value), list.users, list.removed)
  }

  /** The panel's answers change the server configuration or, at run time, the plugin. */
  predicate OthersFlagged(m: Memory, i: Inputs, shadowsocks: bool) {
    || (i.server.ServerUpdated? && m.server != Some(i.server.server))
    || (shadowsocks && i.plugin.PluginCandidate? &&
        (m.plugin.None? || m.plugin.value.manifest != i.plugin.plugin.manifest))
  }

  /** Everything a sync has to have before it applies anything. */
  ghost predicate Gathers(m: Memory, i: Inputs, shadowsocks: bool) {
    && i.gateOpen && !i.server.ServerFailed? && (shadowsocks ==> !i.plugin.PluginFailed?) && !i.users.UsersFailed?
    && (i.server.ServerUpdated? || m.server.Some?)
    && TableAfter(m, i).Some?
    && (i.aliveOk || |LimitedIds(TableAfter(m, i).value)| == 0)
  }

  ghost predicate Applies(m: Memory, served: Option<Served>, i: Inputs, shadowsocks: bool) {
    UsersFlagged(m, i) || OthersFlagged(m, i, shadowsocks) || served.None?
  }

  /** How publishing the users into the running listeners ends; a sync that changes more, or runs
      without listeners that take users, does not try. */
  ghost function Publishing(m: Memory, served: Option<Served>, i: Inputs, shadowsocks: bool): Refresh {
    if !(UsersFlagged(m, i) && !OthersFlagged(m, i, shadowsocks) && served.Some? && i.published) then Unsupported
    else if IsDelta(i) && !i.deltaRefresh.Unsupported? then i.deltaRefresh
    else i.fullRefresh
  }

  /** A Shadowsocks node cannot start without a plugin. */
  predicate PluginReady(m: Memory, i: Inputs, shadowsocks: bool) {
    shadowsocks ==> i.plugin.PluginCandidate? || m.plugin.Some?
  }

  /** The sync gets to replacing the running generation. */
  ghost predicate Replaces(m: Memory, served: Option<Served>, i: Inputs, shadowsocks: bool) {
    && Gathers(m, i, shadowsocks) && Applies(m, served, i, shadowsocks)
    && Publishing(m, served, i, shadowsocks).Unsupported? && PluginReady(m, i, shadowsocks)
  }

  /** The sync commits. */
  ghost predicate Commits(m: Memory, served: Option<Served>, i: Inputs, shadowsocks: bool) {
    && Gathers(m, i, shadowsocks)
    && (|| !Applies(m, served, i, shadowsocks)
        || Publishing(m, served, i, shadowsocks).Refreshed?
        || (Replaces(m, served, i, shadowsocks) && i.replace.Replaced?))
  }

  /** Nothing but a user delta with a revision is to be written. */
  ghost predicate ForJournal(m: Memory, i: Inputs, shadowsocks: bool) {
    && !m.persistPending && !OthersFlagged(m, i, shadowsocks) && UsersFlagged(m, i)
    && IsDelta(i) && i.users.list.revision.Some?
  }

  /** Whether the write succeeds.  A delta goes to the journal; one that is too large for it, or fills
      it, and everything else, goes to a whole snapshot. */
  predicate WriteOk(forJournal: bool, i: Inputs) {
    if forJournal && !(i.append.Appended? && i.append.compact) && !i.append.TooLarge? then i.append.Appended?
    else i.persist.Persisted?
  }

  /** The sync commits a user delta and journals it. */
  ghost predicate Journals(m: Memory, served: Option<Served>, i: Inputs, shadowsocks: bool) {
    Commits(m, served, i, shadowsocks) && i.append == Appended(false) && ForJournal(m, i, shadowsocks)
  }

  /** There is something to write, and the write fails. */
  ghost predicate WriteFails(m: Memory, served: Option<Served>, i: Inputs, shadowsocks: bool) {
    && (Applies(m, served, i, shadowsocks) || m.persistPending)
    && !WriteOk(ForJournal(m, i, shadowsocks), i)
  }

  /** It journals a delta that changes users under a revision that is not newer than the one on disk. */
  ghost predicate LosesDelta(m: Memory, served: Option<Served>, d: Disk, i: Inputs, shadowsocks: bool) {
    && Journals(m, served, i, shadowsocks) && m.users.Some? && Load(d).Some?
    && Load(d).value.revision.Some? && i.users.list.revision.value <= Load(d).value.revision.value
    && Merged(Rows(m.users.value), i.users.list.users, i.users.list.removed) != Rows(m.users.value)
  }

  /** What runs after a sync that does not commit. */
  ghost function LeftRunning(m: Memory, served: Option<Served>, i: Inputs, shadowsocks: bool): Option<Served> {
    if Replaces(m, served, i, shadowsocks) && i.replace.LostBoth? then None else served
  }

  /** The users moved, or a small delta undid itself. */
  ghost predicate UserFlagOk(m: Memory, c: Candidate, i: Inputs) {
    && (c.usersChanged <==> UsersFlagged(m, i))
    && (!c.usersChanged ==> c.next.users == m.users)
    && (c.usersChanged && c.next.users == m.users ==> IsDelta(i))
    && (c.usersChanged ==> c.next.users.Some?)
    && (c.delta.Some? <==> c.usersChanged && IsDelta(i))
    && (c.delta.Some? ==> m.users.Some? && c.delta.value == Delta(i.users.list.users, i.users.list.removed))
  }

  /** What holds of a candidate built on memory `m`. */
  ghost predicate CandidateOk(m: Memory, c: Candidate, i: Inputs, shadowsocks: bool) {
    && MemoryOk(c.next, shadowsocks) && c.next.users.Some? && c.next.persistPending == m.persistPending
    && Follows(m, c.next, i, shadowsocks)
    && UserFlagOk(m, c, i)
    && (c.nonUserChanged <==> c.next.server != m.server || !SamePlugin(c.next.plugin, m.plugin))
    && (c.nonUserChanged <==> OthersFlagged(m, i, shadowsocks))
  }

  /** Nothing the sync asks for fails, and what the panel does not send is cached. */
  ghost predicate AllWell(m: Memory, i: Inputs, shadowsocks: bool) {
    && i.gateOpen && !i.server.ServerFailed? && !i.plugin.PluginFailed? && !i.users.UsersFailed? && i.aliveOk
    && (i.server.ServerUpdated? || m.server.Some?)
    && (shadowsocks ==> i.plugin.PluginCandidate? || m.plugin.Some?)
    && TableAfter(m, i).Some?
    && !i.deltaRefresh.RefreshFailed? && !i.fullRefresh.RefreshFailed? && i.replace.Replaced?
  }

  /** What a sync wrote. */
  datatype Written = Nothing | Journal | Whole

  class NodeController {
    const shadowsocks: bool
    var memory: Memory
    var served: Option<Served>
    var disk: Disk

    ghost predicate Valid()
      reads this
    {
      && MemoryOk(memory, shadowsocks) && ServesMemory(memory, served)
      && (shadowsocks && memory.users.Some? ==> memory.plugin.Some?)
    }

    constructor (shadowsocks: bool, disk: Disk)
      ensures Valid() && this.shadowsocks == shadowsocks && this.disk == disk
      ensures memory.users.None? && !memory.persistPending
    {
      this.shadowsocks, this.disk, served := shadowsocks, disk, None;
      memory := Memory(None, None, None, None, None, None, 0, None, false, false);
    }

    /** Forgets the user cache.  In every state where the program calls it there is nothing to forget. */
    method InvalidateUserCache()
      modifies this`memory
      ensures memory == old(memory).(userEtag := None, userRevision := None, userBodyHash := None, users := None)
      ensures old(Valid() && memory.users.None?) ==> memory == old(memory)
    {
      memory := memory.(userEtag := None, userRevision := None, userBodyHash := None, users := None);
    }

    /** A full response: sorted, compared with the cached table, and counted if it differs. */
    method PullFull(next: Memory, list: UserList) returns (c: Candidate)
      requires Valid() && list.full && DistinctIds(list.users)
      requires next.users == memory.users && next.limitedCount == memory.limitedCount
      ensures c.next == next.(users := c.next.users, limitedCount := c.next.limitedCount)
      ensures c.delta.None? && !c.nonUserChanged
      ensures c.next.users.Some? && IsTable(c.next.users.value, Rows(list.users))
      ensures c.next.limitedCount == CountLimited(c.next.users.value)
      ensures c.usersChanged <==> c.next.users != memory.users
      ensures c.usersChanged <==> memory.users.None? || Rows(memory.users.value) != Rows(list.users)
    {
      hide Rows;
      var users, changed := PrepareFull(memory.users, list.users);
      if !changed {
        c := Candidate(next, None, false, false);
      } else {
        c := Candidate(next.(users := Some(users), limitedCount := CountLimited(users)), None, true, false);
      }
    }

    /** A delta on the cached table; the count is maintained from the touched users alone. */
    method PullDelta(next: Memory, list: UserList) returns (r: Option<Candidate>)
      requires Valid()
      modifies this`memory
      ensures memory == old(memory)
      ensures r.Some? <==> memory.users.Some?
      ensures r.Some? ==>
        var c := r.value;
        && c.next == next.(users := c.next.users, limitedCount := c.next.limitedCount) && !c.nonUserChanged
        && c.next.users.Some? && IsTable(c.next.users.value, Merged(Rows(memory.users.value), list.users, list.removed))
        && c.next.limitedCount == CountLimited(c.next.users.value)
        && (!c.usersChanged ==> c.next.users == memory.users)
        && (c.usersChanged <==> MergeFlag(Rows(memory.users.value), list.users, list.removed))
        && c.delta == if c.usersChanged then Some(Delta(list.users, list.removed)) else None
    {
      hide Rows, Merged, MergeFlag;
      var current := if memory.users.Some? then memory.users.value else [];
      var count := CountAfterDelta(memory.limitedCount, current, list.users, list.removed);
      if memory.users.None? {
        InvalidateUserCache();
        return None;
      }
      var merged, changed := MergeUserDelta(current, list.users, list.removed);
      DeltaCountIsRecount(Rows(current), list.users, list.removed, merged);
      if !changed {
        TableUnique(merged, current);
      }
      return Some(Candidate(next.(users := Some(merged), limitedCount := count),
        if changed then Some(Delta(list.users, list.removed)) else None, changed, false));
    }

    /** The new user list, if the fetch gave one, and whether and how it differs. */
    method PullUsers(i: Inputs) returns (r: Option<Candidate>)
      requires Valid() && InputsOk(i) && !i.users.UsersFailed?
      modifies this`memory
      ensures memory == old(memory)
      ensures r.Some? ==> UsersPulled(memory, r.value, i)
      ensures TableAfter(memory, i).Some? ==> r.Some?
    {
      hide Rows, Merged, MergeFlag, Ascending, DistinctIds, CountLimited;
      var c := Candidate(memory, None, false, false);
      if i.users.UsersUnchanged? {
        c := c.(next := memory.(userEtag := i.users.etag));
      } else if i.users.UsersUpdated? {
        var list := i.users.list;
        var next := memory.(userEtag := i.users.etag, userRevision := list.revision,
          userBodyHash := Some(i.users.bodyHash));
        if !list.full && list.users == [] && list.removed == [] {
          if memory.users.None? {
            InvalidateUserCache();
            return None;
          }
          EmptyDelta(Rows(memory.users.value));
          c := c.(next := next);
        } else if list.full {
          c := PullFull(next, list);
        } else {
          r := PullDelta(next, list);
          return;
        }
      }
      return Some(c);
    }

    /** Everything a sync pulls, before anything is applied.  Whatever fails, memory is as before. */
    method Gather(i: Inputs) returns (r: Option<Candidate>)
      requires Valid() && InputsOk(i)
      modifies this`memory
      ensures memory == old(memory)
      ensures r.Some? ==> CandidateOk(memory, r.value, i, shadowsocks)
      ensures r.Some? <==> Gathers(memory, i, shadowsocks)
    {
      hide Rows, Merged, Ascending, CountLimited, LimitedIds, UsersFlagged;
      if !i.gateOpen || i.server.ServerFailed? {
        return None;
      }
      var serverEtag, server, nonUserChanged := memory.serverEtag, memory.server, false;
      if i.server.ServerUpdated? {
        nonUserChanged := memory.server != Some(i.server.server);
        serverEtag, server := i.server.etag, Some(i.server.server);
      }
      var plugin, force := memory.plugin, memory.forcePluginRefresh;
      if shadowsocks {
        if i.plugin.PluginFailed? {
          return None;
        }
        if i.plugin.PluginCandidate? {
          var runtimeChanged := memory.plugin.None? || memory.plugin.value.manifest != i.plugin.plugin.manifest;
          plugin := Some(i.plugin.plugin);
          nonUserChanged := nonUserChanged || runtimeChanged;
        }
        force := false;
      }
      if i.users.UsersFailed? {
        return None;
      }
      var pulled := PullUsers(i);
      if pulled.None? {
        return None;
      }
      var c := pulled.value;
      if c.next.users.Some? {
        CountsRows(c.next.users.value);
      }
      if c.next.limitedCount > 0 && !i.aliveOk {
        if c.next.users.Some? && memory.users.None? {
          InvalidateUserCache();
        }
        return None;
      }
      if server.None? || c.next.users.None? {
        return None;
      }
      var next := c.next.(serverEtag := serverEtag, server := server, plugin := plugin, forcePluginRefresh := force);
      return Some(Candidate(next, c.delta, c.usersChanged, nonUserChanged));
    }

    /** Publishes the users into the running listeners, by the delta if the protocol has a delta path. */
    method RefreshUsers(c: Candidate, i: Inputs) returns (r: Refresh)
      requires Valid() && CandidateOk(memory, c, i, shadowsocks) && served.Some?
      modifies this`served
      ensures r.Refreshed? ==> served == Some(old(served).value.(table := Rows(c.next.users.value)))
      ensures !r.Refreshed? ==> served == old(served)
      ensures r == if c.delta.Some? && !i.deltaRefresh.Unsupported? then i.deltaRefresh else i.fullRefresh
    {
      hide Rows, Ascending, CountLimited, UsersFlagged;
      if c.delta.Some? {
        match i.deltaRefresh {
          case RefreshFailed => return RefreshFailed;
          case Unsupported =>
          case Refreshed =>
            var table := Merged(served.value.table, c.delta.value.updated, c.delta.value.removed);
            served := Some(served.value.(table := table));
            return Refreshed;
        }
      }
      if i.fullRefresh.Refreshed? {
        served := Some(served.value.(table := Rows(c.next.users.value)));
      }
      return i.fullRefresh;
    }

    /** Replaces the running generation. */
    method ApplyRuntime(server: Server, users: seq<User>, plugin: Option<Plugin>, outcome: Replace) returns (ok: bool)
      requires !shadowsocks ==> plugin.None?
      modifies this`served
      ensures ok <==> outcome.Replaced? && (shadowsocks ==> plugin.Some?)
      ensures ok ==> served == Some(Served(server, Rows(users), plugin))
      ensures !ok ==> served == if outcome.LostBoth? && (shadowsocks ==> plugin.Some?) then None else old(served)
    {
      if shadowsocks && plugin.None? {
        return false;
      }
      match outcome {
        case NotPrepared => return false;
        case KeptOld => return false;
        case LostBoth =>
          served := None;
          return false;
        case Replaced =>
          served := Some(Served(server, Rows(users), plugin));
          return true;
      }
    }

    /** Makes the running generation serve the candidate: users alone are published in place where
        possible, anything else replaces the generation. */
    method Apply(c: Candidate, i: Inputs) returns (ok: bool)
      requires Valid() && CandidateOk(memory, c, i, shadowsocks)
      requires Gathers(memory, i, shadowsocks) && Applies(memory, served, i, shadowsocks)
      modifies this`served
      ensures ok <==> Commits(memory, old(served), i, shadowsocks)
      ensures ok ==> served.Some? && ServesMemory(c.next, served) && (shadowsocks ==> c.next.plugin.Some?)
      ensures !ok ==> served == LeftRunning(memory, old(served), i, shadowsocks)
    {
      hide Rows, Ascending, CountLimited, UsersFlagged, Gathers;
      var usersOnly := c.usersChanged && !c.nonUserChanged && served.Some? && i.published;
      if usersOnly {
        var refreshed := RefreshUsers(c, i);
        if refreshed.RefreshFailed? {
          return false;
        }
        if refreshed.Refreshed? {
          SamePluginVia(c.next.plugin, memory.plugin, served.value.plugin);
          return true;
        }
      }
      ok := ApplyRuntime(c.next.server.value, c.next.users.value, c.next.plugin, i.replace);
    }

    method PersistLkg(outcome: PersistResult) returns (ok: bool)
      requires memory.users.Some? && memory.server.Some?
      modifies this`disk
      ensures ok <==> outcome.Persisted?
      ensures !ok ==> disk == outcome.left
      ensures ok ==> DiskHolds(memory, disk) && Load(disk).value.revision == memory.userRevision
      ensures ok ==> Load(disk).value.serverEtag == memory.serverEtag && Load(disk).value.userEtag == memory.userEtag
    {
      hide Rows;
      match outcome {
        case Persisted =>
          disk := Persist(Snapshot(memory.server.value, Rows(memory.users.value), memory.userRevision, memory.plugin,
            memory.serverEtag, memory.userEtag));
          return true;
        case PersistFailed(left) =>
          disk := left;
          return false;
      }
    }

    /** Writes the committed state: a journal record for a user delta, a whole snapshot otherwise. */
    method Save(c: Candidate, i: Inputs) returns (ok: bool, ghost written: Written)
      requires memory == c.next && memory.users.Some? && memory.server.Some?
      modifies this`disk
      ensures ok ==> !written.Nothing?
      ensures written.Whole? ==> ok && DiskHolds(memory, disk) && Load(disk).value.revision == memory.userRevision
      ensures written.Journal? ==>
        && ok && !memory.persistPending && !c.nonUserChanged && c.delta.Some? && memory.userRevision.Some?
        && i.append == Appended(false)
        && disk == Append(old(disk),
              Record(memory.userEtag, memory.userRevision.value, c.delta.value.updated, c.delta.value.removed))
      ensures !memory.persistPending && !c.nonUserChanged && c.delta.Some? && memory.userRevision.Some? ==>
        (i.append == Appended(false) ==> written.Journal?)
      ensures var forJournal :=
                !memory.persistPending && !c.nonUserChanged && c.delta.Some? && memory.userRevision.Some?;
              && (ok <==> WriteOk(forJournal, i))
              && (!ok ==> disk == if forJournal && i.append.AppendFailed? then i.append.left else i.persist.left)
    {
      if !memory.persistPending && !c.nonUserChanged && c.delta.Some? && memory.userRevision.Some? {
        var record := Record(memory.userEtag, memory.userRevision.value, c.delta.value.updated, c.delta.value.removed);
        match i.append {
          case Appended(compact) =>
            disk := Append(disk, record);
            if !compact {
              return true, Journal;
            }
          case TooLarge =>
          case AppendFailed(left) =>
            disk := left;
            return false, Nothing;
        }
      }
      ok := PersistLkg(i.persist);
      written := if ok then Whole else Nothing;
    }

    /** Commits a candidate that is served, and saves it if anything was applied or a write is due. */
    method Commit(c: Candidate, i: Inputs, applied: bool) returns (r: SyncResult, ghost written: Written)
      requires MemoryOk(memory, shadowsocks) && CandidateOk(memory, c, i, shadowsocks)
      requires served.Some? && ServesMemory(c.next, served) && (shadowsocks ==> c.next.plugin.Some?)
      requires c.usersChanged || c.nonUserChanged ==> applied
      modifies this`memory, this`disk
      ensures Valid() && !r.NotCommitted? && memory == c.next.(persistPending := r.CommittedNotPersisted?)
      ensures Follows(old(memory), memory, i, shadowsocks)
      ensures r.CommittedNotPersisted? <==>
        && (applied || old(memory.persistPending))
        && !WriteOk(old(!memory.persistPending) && !c.nonUserChanged && c.delta.Some? && c.next.userRevision.Some?, i)
      ensures old(Durable(memory, disk) && DiskBehind(memory, disk)) && PanelAdvances(old(memory), i) ==>
        Durable(memory, disk) && DiskBehind(memory, disk)
      ensures r.Committed? && old(memory.persistPending) ==> written.Whole?
      ensures written.Whole? ==> DiskHolds(memory, disk) && Load(disk).value.revision == memory.userRevision
      ensures written.Journal? && old(Durable(memory, disk)) ==>
        && memory.userRevision.Some? && old(Load(disk)).Some?
        && (DiskHolds(memory, disk) <==>
              || old(Load(disk)).value.revision.None?
              || old(Load(disk)).value.revision.value < memory.userRevision.value
              || memory.users == old(memory.users))
      ensures r.Committed? && written.Nothing? ==> disk == old(disk)
      ensures r.Committed? ==> (written.Nothing? <==> !applied && !old(memory.persistPending))
      ensures !applied && !old(memory.persistPending) ==> written.Nothing?
      ensures written.Journal? <==>
        && old(!memory.persistPending) && applied && !c.nonUserChanged && c.delta.Some?
        && memory.userRevision.Some? && i.append == Appended(false)
      ensures !written.Nothing? ==> r.Committed?
      // What is not journalled is durable if it was.
      ensures old(Durable(memory, disk)) && !written.Journal? && (old(memory.users.Some?) || applied) ==>
        Durable(memory, disk)
    {
      hide Rows, Ascending, CountLimited, UsersFollow, DiskHolds, DiskBehind, PanelAdvances,
        UsersFlagged, OthersFlagged;
      written := Nothing;
      ghost var before := memory;
      memory := c.next;
      if applied || memory.persistPending {
        var saved;
        saved, written := Save(c, i);
        if written.Journal? {
          AppendedOutcome(before, c, old(disk), disk, i, shadowsocks);
        } else if written.Whole? {
          WholeOutcome(memory, disk);
        }
        memory := memory.(persistPending := !saved);
        PendingOnly(c.next, memory, disk);
        PendingFollows(before, c.next, memory, i, shadowsocks);
        r := if saved then Committed else CommittedNotPersisted;
      } else {
        StillHeld(before, c, disk, i, shadowsocks);
        r := Committed;
      }
    }

    /** One synchronisation.  A sync that does not commit leaves memory and disk alone; one that
        commits caches exactly what the panel said; the running generation, if there is one,
        always serves what is cached; and what is not marked as pending is on disk, as long as
        the panel's revisions advance. */
    method Sync(i: Inputs) returns (r: SyncResult, ghost written: Written)
      requires Valid() && InputsOk(i)
      modifies this
      ensures Valid()
      // When it commits, and what is left if it does not.
      ensures !r.NotCommitted? <==> Commits(old(memory), old(served), i, shadowsocks)
      ensures r.NotCommitted? ==>
        && memory == old(memory) && disk == old(disk)
        && served == LeftRunning(old(memory), old(served), i, shadowsocks)
      ensures !r.NotCommitted? ==> served.Some? && Follows(old(memory), memory, i, shadowsocks)
      ensures r.Committed? ==> !memory.persistPending
      ensures r.CommittedNotPersisted? ==> memory.persistPending
      ensures r.CommittedNotPersisted? <==>
        Commits(old(memory), old(served), i, shadowsocks) && WriteFails(old(memory), old(served), i, shadowsocks)
      // Durability, in every run of a panel whose revisions advance.
      ensures old(Durable(memory, disk) && DiskBehind(memory, disk)) && PanelAdvances(old(memory), i) ==>
        Durable(memory, disk) && DiskBehind(memory, disk)
      // A failed write is repaired by the next one that succeeds, whatever is on disk.
      ensures r.Committed? && old(memory.persistPending) ==> written.Whole?
      ensures written.Whole? ==> DiskHolds(memory, disk) && Load(disk).value.revision == memory.userRevision
      // Exactly when what was durable no longer is.
      ensures old(Durable(memory, disk)) ==>
        (Durable(memory, disk) <==> !LosesDelta(old(memory), old(served), old(disk), i, shadowsocks))
      // A journal append is durable exactly if its revision is newer than the one on disk.
      ensures written.Journal? <==> Journals(old(memory), old(served), i, shadowsocks)
      ensures written.Journal? && old(Durable(memory, disk)) ==>
        && memory.userRevision.Some? && old(Load(disk)).Some?
        && (DiskHolds(memory, disk) <==>
              || old(Load(disk)).value.revision.None?
              || old(Load(disk)).value.revision.value < memory.userRevision.value
              || memory.users == old(memory.users))
      // What is written, when.
      ensures r.Committed? && written.Nothing? ==> disk == old(disk)
      ensures old(memory.persistPending || served.None?) && r.Committed? ==> !written.Nothing?
      ensures r.Committed? && Moved(old(memory), memory) ==> !written.Nothing?
      ensures old(!memory.persistPending && served.Some?) && !Moved(old(memory), memory) && !IsDelta(i) ==>
        written.Nothing?
      ensures r.Committed? && OnlyUsersMoved(old(memory), memory) && old(!memory.persistPending) && IsDelta(i) ==>
        (memory.userRevision.Some? && i.append == Appended(false) ==> written.Journal?)
    {
      hide Rows, MemoryOk, UsersFollow, Follows, DiskHolds, DiskBehind, PanelAdvances, UsersFlagged, OthersFlagged,
        Gathers, Publishing, PluginReady, Applies, CandidateOk;
      written := Nothing;
      var gathered := Gather(i);
      if gathered.None? {
        return NotCommitted, Nothing;
      }
      var c := gathered.value;
      FlagsTell(memory, served, c, i, shadowsocks);
      var applied := c.usersChanged || c.nonUserChanged || served.None?;
      if applied {
        var ok := Apply(c, i);
        if !ok {
          if memory.users.None? {
            InvalidateUserCache();
          }
          return NotCommitted, Nothing;
        }
      } else {
        QuietlyServed(memory, served, c, i, shadowsocks);
      }
      CommittedMoves(memory, c);
      r, written := Commit(c, i, applied);
      JournalTells(old(memory), old(served), c, i, shadowsocks);
      if written.Journal? {
        LossTells(old(memory), old(served), memory, old(disk), i, shadowsocks);
      }
    }

    /** Starting from the last-known-good store.  `stored` is the user vector in the snapshot, after
        the journal has been replayed; older builds left it unsorted. */
    method RestoreLkg(stored: seq<User>, outcome: Replace) returns (restored: bool)
      requires Valid() && memory.users.None? && served.None?
      requires Load(disk).Some? ==> DistinctIds(stored) && Rows(stored) == Load(disk).value.table
      modifies this`memory, this`served
      ensures Valid()
      ensures !restored ==> memory == old(memory) && served.None?
      ensures restored ==>
        && served.Some? && DiskHolds(memory, disk) && DiskBehind(memory, disk)
        && memory.persistPending == old(memory.persistPending) && memory.plugin == Load(disk).value.plugin
        && memory.serverEtag == Load(disk).value.serverEtag && memory.userEtag == Load(disk).value.userEtag
        && memory.userRevision == Load(disk).value.revision
      ensures restored <==>
        Load(disk).Some? && (shadowsocks <==> Load(disk).value.plugin.Some?) && outcome.Replaced?
    {
      hide Rows, Ascending;
      var loaded := Load(disk);
      if loaded.None? || (shadowsocks && loaded.value.plugin.None?) || (!shadowsocks && loaded.value.plugin.Some?) {
        return false;
      }
      var s := loaded.value;
      var users := Normalize(stored);
      restored := ApplyRuntime(s.server, users, s.plugin, outcome);
      if restored {
        memory := memory.(serverEtag := s.serverEtag, userEtag := s.userEtag, userRevision := s.revision,
          server := Some(s.server), users := Some(users), limitedCount := CountLimited(users), plugin := s.plugin);
      }
    }
  }

  /** After a crash, a node whose state was durable comes back with the very same user vector. */
  lemma RestartRecovers(m: Memory, d: Disk, restored: Memory)
    requires DiskHolds(m, d) && DiskHolds(restored, d)
    requires Ascending(m.users.value) && Ascending(restored.users.value)
    ensures restored.users == m.users && restored.server == m.server && SamePlugin(restored.plugin, m.plugin)
  {
    TableUnique(m.users.value, restored.users.value);
  }

  /** A crash and a restart: a new controller on the disk of one whose state was durable comes back
      with the very same user vector, server and equivalent plugin, and serves them. */
  method Restart(c: NodeController, stored: seq<User>, outcome: Replace) returns (next: NodeController, restored: bool)
    requires c.Valid() && Durable(c.memory, c.disk) && c.memory.users.Some? && !c.memory.persistPending
    requires DistinctIds(stored) && Load(c.disk).Some? && Rows(stored) == Load(c.disk).value.table
    ensures fresh(next) && next.Valid() && next.disk == c.disk
    ensures restored <==> outcome.Replaced?
    ensures restored ==>
      && next.memory.users == c.memory.users && next.memory.server == c.memory.server
      && SamePlugin(next.memory.plugin, c.memory.plugin) && next.memory.limitedCount == c.memory.limitedCount
      && next.served.Some? && Durable(next.memory, next.disk) && DiskBehind(next.memory, next.disk)
  {
    hide Rows, Ascending, DistinctIds, CountLimited;
    next := new NodeController(c.shadowsocks, c.disk);
    restored := next.RestoreLkg(stored, outcome);
    if restored {
      RestartRecovers(c.memory, c.disk, next.memory);
    }
  }

  // ----- runs

  /** What a controller holds at one moment of a run. */
  datatype Moment = Moment(memory: Memory, served: Option<Served>, disk: Disk)

  /** What one sync makes of one moment. */
  ghost predicate Follow(before: Moment, i: Inputs, r: SyncResult, after: Moment, shadowsocks: bool) {
    && (!r.NotCommitted? <==> Commits(before.memory, before.served, i, shadowsocks))
    && (r.NotCommitted? ==> after == before.(served := LeftRunning(before.memory, before.served, i, shadowsocks)))
    && (!r.NotCommitted? ==> after.served.Some? && Follows(before.memory, after.memory, i, shadowsocks))
    && (r.CommittedNotPersisted? <==>
          && Commits(before.memory, before.served, i, shadowsocks)
          && WriteFails(before.memory, before.served, i, shadowsocks))
    && (r.Committed? ==> !after.memory.persistPending && after.memory.users.Some?)
    && (r.Committed? && before.memory.persistPending ==> DiskHolds(after.memory, after.disk))
    && (Durable(before.memory, before.disk) ==>
          (Durable(after.memory, after.disk) <==>
             !LosesDelta(before.memory, before.served, before.disk, i, shadowsocks)))
    && (Durable(before.memory, before.disk) && DiskBehind(before.memory, before.disk)
        && PanelAdvances(before.memory, i) ==>
          Durable(after.memory, after.disk) && DiskBehind(after.memory, after.disk))
  }

  /** A run: the moments before, between and after its syncs. */
  ghost predicate IsRun(trace: seq<Moment>, inputs: seq<Inputs>, results: seq<SyncResult>, shadowsocks: bool) {
    && |results| == |inputs| && |trace| == |inputs| + 1
    && forall k :: 0 <= k < |inputs| ==> Follow(trace[k], inputs[k], results[k], trace[k + 1], shadowsocks)
  }

  /** Any number of syncs, each with whatever the panel and the machine happen to give it. */
  method Run(c: NodeController, inputs: seq<Inputs>)
    returns (results: seq<SyncResult>, ghost trace: seq<Moment>)
    requires c.Valid() && forall k :: 0 <= k < |inputs| ==> InputsOk(inputs[k])
    modifies c
    ensures c.Valid() && IsRun(trace, inputs, results, c.shadowsocks)
    ensures trace[0] == old(Moment(c.memory, c.served, c.disk))
    ensures trace[|inputs|] == Moment(c.memory, c.served, c.disk)
    ensures forall k :: 0 <= k <= |inputs| ==>
      MemoryOk(trace[k].memory, c.shadowsocks) && ServesMemory(trace[k].memory, trace[k].served)
  {
    hide Follow, MemoryOk, ServesMemory;
    results, trace := [], [Moment(c.memory, c.served, c.disk)];
    var k := 0;
    while k < |inputs|
      invariant 0 <= k <= |inputs| && c.Valid()
      invariant IsRun(trace, inputs[..k], results, c.shadowsocks)
      invariant trace[0] == old(Moment(c.memory, c.served, c.disk)) && trace[k] == Moment(c.memory, c.served, c.disk)
      invariant forall j :: 0 <= j <= k ==>
        MemoryOk(trace[j].memory, c.shadowsocks) && ServesMemory(trace[j].memory, trace[j].served)
    {
      var r := SyncOnce(c, inputs[k]);
      assert inputs[..k + 1] == inputs[..k] + [inputs[k]];
      results, trace := results + [r], trace + [Moment(c.memory, c.served, c.disk)];
      k := k + 1;
    }
    assert inputs[..|inputs|] == inputs;
  }

  /** One sync of a run. */
  method SyncOnce(c: NodeController, i: Inputs) returns (r: SyncResult)
    requires c.Valid() && InputsOk(i)
    modifies c
    ensures c.Valid() && MemoryOk(c.memory, c.shadowsocks) && ServesMemory(c.memory, c.served)
    ensures Follow(old(Moment(c.memory, c.served, c.disk)), i, r, Moment(c.memory, c.served, c.disk), c.shadowsocks)
  {
    hide Commits, LeftRunning, LosesDelta, WriteFails, PanelAdvances, DiskBehind, DiskHolds, UsersFollow;
    ghost var written;
    r, written := c.Sync(i);
  }

  /** In every run, the state is durable at every moment if and only if it was at the start and no sync
      journals a delta that changes users under a revision not newer than the one on disk. */
  lemma {:induction false} DurableThroughout(trace: seq<Moment>, inputs: seq<Inputs>, results: seq<SyncResult>,
                                             shadowsocks: bool)
    requires IsRun(trace, inputs, results, shadowsocks)
    ensures (forall k :: 0 <= k < |trace| ==> Durable(trace[k].memory, trace[k].disk)) <==>
      && Durable(trace[0].memory, trace[0].disk)
      && forall k :: 0 <= k < |inputs| ==>
           !LosesDelta(trace[k].memory, trace[k].served, trace[k].disk, inputs[k], shadowsocks)
  {
    hide Durable, LosesDelta, Commits, LeftRunning, Follows, DiskHolds, DiskBehind, PanelAdvances;
    var n := |inputs|;
    if n > 0 {
      assert Follow(trace[n - 1], inputs[n - 1], results[n - 1], trace[n], shadowsocks);
      DurableThroughout(trace[..n], inputs[..n - 1], results[..n - 1], shadowsocks);
      assert trace == trace[..n] + [trace[n]];
      assert forall k :: 0 <= k < n ==> trace[..n][k] == trace[k];
      assert forall k :: 0 <= k < n - 1 ==> inputs[..n - 1][k] == inputs[k];
    }
  }

  /** In every run of a panel whose revisions advance, a durable state stays durable. */
  lemma {:induction false} SteadyPanelKeepsDurable(trace: seq<Moment>, inputs: seq<Inputs>, results: seq<SyncResult>,
                                                   shadowsocks: bool, n: nat)
    requires IsRun(trace, inputs, results, shadowsocks) && n <= |inputs|
    requires Durable(trace[0].memory, trace[0].disk) && DiskBehind(trace[0].memory, trace[0].disk)
    requires forall k :: 0 <= k < n ==> PanelAdvances(trace[k].memory, inputs[k])
    ensures Durable(trace[n].memory, trace[n].disk) && DiskBehind(trace[n].memory, trace[n].disk)
    ensures n > 0 && results[n - 1].Committed? ==> DiskHolds(trace[n].memory, trace[n].disk)
  {
    hide LosesDelta, Commits, LeftRunning, Follows, DiskHolds, DiskBehind, PanelAdvances;
    if n > 0 {
      SteadyPanelKeepsDurable(trace, inputs, results, shadowsocks, n - 1);
      assert Follow(trace[n - 1], inputs[n - 1], results[n - 1], trace[n], shadowsocks);
    }
  }

  /** In every run, what runs goes on running if and only if no sync gets to replacing the generation
      and loses both. */
  lemma {:induction false} RunningThroughout(trace: seq<Moment>, inputs: seq<Inputs>, results: seq<SyncResult>,
                                             shadowsocks: bool)
    requires IsRun(trace, inputs, results, shadowsocks)
    ensures (forall k :: 0 <= k < |trace| ==> trace[k].served.Some?) <==>
      && trace[0].served.Some?
      && forall k :: 0 <= k < |inputs| ==>
           !(Replaces(trace[k].memory, trace[k].served, inputs[k], shadowsocks) && inputs[k].replace.LostBoth?)
  {
    hide Durable, LosesDelta, Follows, DiskHolds, DiskBehind, PanelAdvances, Replaces;
    var n := |inputs|;
    if n > 0 {
      var before := trace[n - 1];
      assert Follow(before, inputs[n - 1], results[n - 1], trace[n], shadowsocks);
      ReplacesOrCommits(before.memory, before.served, inputs[n - 1], shadowsocks);
      hide Follow, Commits, LeftRunning;
      RunningThroughout(trace[..n], inputs[..n - 1], results[..n - 1], shadowsocks);
      assert trace == trace[..n] + [trace[n]];
      assert forall k :: 0 <= k < n ==> trace[..n][k] == trace[k];
      assert forall k :: 0 <= k < n - 1 ==> inputs[..n - 1][k] == inputs[k];
    }
  }

  /** A replacement that loses both generations is not committed. */
  lemma ReplacesOrCommits(m: Memory, served: Option<Served>, i: Inputs, shadowsocks: bool)
    ensures Replaces(m, served, i, shadowsocks) && i.replace.LostBoth? ==> !Commits(m, served, i, shadowsocks)
  {
    hide Gathers, Publishing, PluginReady;
  }

  /** Nothing the sync asks for fails: it commits. */
  lemma AllWellCommits(m: Memory, served: Option<Served>, i: Inputs, shadowsocks: bool)
    requires AllWell(m, i, shadowsocks)
    ensures Commits(m, served, i, shadowsocks)
  {
    hide UsersFlagged;
  }

  /** A replacement that loses both generations: the node is left serving nothing, although it still
      caches its users. */
  method GenerationLost() returns (c: NodeController, r: SyncResult)
    ensures fresh(c) && c.Valid() && c.memory.users.Some? && r.NotCommitted? && c.served.None?
  {
    hide Rows, Ascending, CountLimited, UsersFlagged;
    c := FirstFull();
    var i := Smooth(ServerUpdated(None, Server("moved")), UsersNotModified).(replace := LostBoth);
    NoLimits(c.memory);
    assert Replaces(c.memory, c.served, i, false);
    ghost var w;
    r, w := c.Sync(i);
  }

  lemma NoLimits(m: Memory)
    requires m.users == Some([])
    ensures Rows([]) == map[] && |LimitedIds(map[])| == 0
  {
    assert LimitedIds(map[]) == {};
  }

  /** A sync in which nothing fails. */
  function Smooth(server: ServerFetch, users: UserFetch): Inputs {
    Inputs(true, server, PluginNotModified, users, true, false,
      Unsupported, Unsupported, Replaced, Appended(false), Persisted)
  }

  /** Memory and disk agree on an empty table, the disk at revision 5. */
  ghost predicate AtFive(c: NodeController)
    reads c
  {
    && c.Valid() && !c.shadowsocks && c.served.Some? && !c.memory.persistPending
    && c.memory.server == Some(Server("")) && c.memory.users == Some([])
    && DiskHolds(c.memory, c.disk) && Load(c.disk).value.revision == Some(5)
  }

  /** A first sync: an empty full list at revision 5. */
  method FirstFull() returns (c: NodeController)
    ensures fresh(c) && AtFive(c)
  {
    hide Rows, Ascending, CountLimited;
    c := new NodeController(false, Disk(None, []));
    ResetTables(User(1, None, ""));
    var i := Smooth(ServerUpdated(None, Server("")), UsersUpdated(None, UserList(Some(5), true, [], []), 0));
    AllWellCommits(c.memory, c.served, i, false);
    var r, w := c.Sync(i);
    NonEmptyTable(c.memory.users.value);
  }

  /** The panel restarts at revision 1 and resends the same list: nothing is written. */
  method Resent(c: NodeController)
    requires AtFive(c)
    modifies c
    ensures AtFive(c)
  {
    hide Rows, Ascending, CountLimited;
    ResetTables(User(1, None, ""));
    var i := Smooth(ServerNotModified, UsersUpdated(None, UserList(Some(1), true, [], []), 0));
    AllWellCommits(c.memory, c.served, i, false);
    var r, w := c.Sync(i);
    NonEmptyTable(c.memory.users.value);
    assert w.Nothing?;
  }

  /** A panel whose revision counter restarts: three syncs that all succeed and after which a restart
      would lose the user the third one added. */
  method RevisionReset() returns (c: NodeController)
    ensures fresh(c) && c.Valid() && c.memory.users.Some? && !c.memory.persistPending
    ensures !DiskHolds(c.memory, c.disk)
  {
    hide Rows, Ascending, CountLimited;
    var u := User(1, None, "");
    ResetTables(u);
    c := FirstFull();
    Resent(c);
    var i := Smooth(ServerNotModified, UsersUpdated(None, UserList(Some(2), false, [u], []), 0));
    AllWellCommits(c.memory, c.served, i, false);
    var r, w := c.Sync(i);
    assert Rows(c.memory.users.value) == map[1 := u] && 1 in map[1 := u];
    assert c.memory.users != Some([]);
  }

  /** A sorted table is counted by its rows. */
  lemma CountsRows(users: seq<User>)
    requires Ascending(users)
    ensures CountLimited(users) == |LimitedIds(Rows(users))|
  {
    CountsTable(users);
  }

  lemma ResetTables(u: User)
    requires u.id == 1
    ensures Rows([]) == map[] && Merged(map[], [u], []) == map[1 := u] && DistinctIds([])
  {
    RowsOne(u);
    var none: seq<nat> := [];
    assert Elems(none) == {};
  }

  lemma NonEmptyTable(users: seq<User>)
    ensures users != [] ==> Rows(users) != map[]
  {
    if users != [] {
      assert users[|users| - 1].id in Rows(users);
    }
  }

  /** Something that is served or stored differs. */
  ghost predicate Moved(m: Memory, n: Memory) {
    n.users != m.users || n.server != m.server || !SamePlugin(n.plugin, m.plugin)
  }

  ghost predicate OnlyUsersMoved(m: Memory, n: Memory) {
    n.users != m.users && n.server == m.server && SamePlugin(n.plugin, m.plugin)
  }

  /** The flags of a candidate are those of the panel's answers. */
  lemma FlagsTell(m: Memory, served: Option<Served>, c: Candidate, i: Inputs, shadowsocks: bool)
    requires CandidateOk(m, c, i, shadowsocks)
    ensures Applies(m, served, i, shadowsocks) <==> c.usersChanged || c.nonUserChanged || served.None?
    ensures Moved(m, c.next) ==> c.usersChanged || c.nonUserChanged
    ensures !Moved(m, c.next) && !IsDelta(i) ==> !c.usersChanged && !c.nonUserChanged
    ensures OnlyUsersMoved(m, c.next) && IsDelta(i) ==> !c.nonUserChanged && c.delta.Some?
    ensures c.next.persistPending == m.persistPending && (c.delta.Some? ==> c.usersChanged)
  {
    hide UsersFlagged, OthersFlagged, MemoryOk, Follows;
  }

  /** Whether a commit is journalled can be told from the panel's answers. */
  lemma JournalTells(m: Memory, served: Option<Served>, c: Candidate, i: Inputs, shadowsocks: bool)
    requires CandidateOk(m, c, i, shadowsocks) && Commits(m, served, i, shadowsocks)
    ensures ForJournal(m, i, shadowsocks) <==>
      !m.persistPending && !c.nonUserChanged && c.delta.Some? && c.next.userRevision.Some?
  {
    hide UsersFlagged, OthersFlagged, MemoryOk, Commits;
  }

  /** So can whether it is lost. */
  lemma LossTells(m: Memory, served: Option<Served>, n: Memory, d: Disk, i: Inputs, shadowsocks: bool)
    requires MemoryOk(m, shadowsocks) && MemoryOk(n, shadowsocks) && n.users.Some?
    requires Follows(m, n, i, shadowsocks) && Journals(m, served, i, shadowsocks)
    ensures n.userRevision == i.users.list.revision && n.userRevision.Some?
    ensures Load(d).Some? ==> (LosesDelta(m, served, d, i, shadowsocks) <==>
      Load(d).value.revision.Some? && n.userRevision.value <= Load(d).value.revision.value && n.users != m.users)
  {
    hide OthersFlagged, Commits, Rows, Merged, MergeFlag, Ascending, CountLimited;
    if Rows(n.users.value) == Rows(m.users.value) {
      TableUnique(n.users.value, m.users.value);
    }
  }

  /** The pending mark does not move anything. */
  lemma CommittedMoves(m: Memory, c: Candidate)
    ensures forall pending :: Moved(m, c.next.(persistPending := pending)) == Moved(m, c.next)
    ensures forall pending :: OnlyUsersMoved(m, c.next.(persistPending := pending)) == OnlyUsersMoved(m, c.next)
  {
  }

  /** A candidate that changes nothing is what runs already. */
  lemma QuietlyServed(m: Memory, served: Option<Served>, c: Candidate, i: Inputs, shadowsocks: bool)
    requires CandidateOk(m, c, i, shadowsocks) && !c.usersChanged && !c.nonUserChanged && served.Some?
    requires ServesMemory(m, served) && (shadowsocks ==> m.plugin.Some?)
    ensures ServesMemory(c.next, served) && (shadowsocks ==> c.next.plugin.Some?)
  {
    hide UsersFlagged, OthersFlagged, MemoryOk, Follows;
    SamePluginVia(c.next.plugin, m.plugin, served.value.plugin);
  }

  lemma SamePluginVia(a: Option<Plugin>, b: Option<Plugin>, c: Option<Plugin>)
    requires SamePlugin(a, b)
    ensures SamePlugin(b, c) ==> SamePlugin(a, c)
  {
  }

  lemma WholeOutcome(m: Memory, d: Disk)
    requires DiskHolds(m, d) && Load(d).value.revision == m.userRevision
    ensures DiskBehind(m, d) && DiskBehind(m.(persistPending := false), d)
  {
  }

  lemma EmptyDelta(m: map<nat, User>)
    ensures Merged(m, [], []) == m
  {
    var none: seq<nat> := [];
    assert Elems(none) == {};
  }

  lemma PendingFollows(m: Memory, n: Memory, marked: Memory, i: Inputs, shadowsocks: bool)
    requires Follows(m, n, i, shadowsocks) && marked == n.(persistPending := marked.persistPending)
    ensures Follows(m, marked, i, shadowsocks)
  {
  }

  /** The pending mark is not part of what is stored. */
  lemma PendingOnly(m: Memory, n: Memory, d: Disk)
    requires n == m.(persistPending := n.persistPending)
    ensures DiskHolds(n, d) <==> DiskHolds(m, d)
    ensures n.persistPending ==> DiskBehind(n, d)
    ensures !m.persistPending && DiskBehind(m, d) ==> DiskBehind(n, d)
  {
  }

  /** A commit that is not written leaves memory, up to validators, as it was. */
  lemma StillHeld(m: Memory, c: Candidate, d: Disk, i: Inputs, shadowsocks: bool)
    requires CandidateOk(m, c, i, shadowsocks) && !c.usersChanged && !c.nonUserChanged
    ensures DiskHolds(m, d) ==> DiskHolds(c.next, d)
    ensures DiskBehind(m, d) && PanelAdvances(m, i) && Durable(m, d) ==> DiskBehind(c.next, d)
  {
    if DiskHolds(m, d) {
      SamePluginVia(c.next.plugin, m.plugin, Load(d).value.plugin);
    }
  }

  /** After a journal append: the disk holds the new state exactly if replay will not pass the
      record over, or there was nothing to record. */
  lemma AppendedOutcome(m: Memory, c: Candidate, d: Disk, after: Disk, i: Inputs, shadowsocks: bool)
    requires MemoryOk(m, shadowsocks) && CandidateOk(m, c, i, shadowsocks)
    requires !m.persistPending && !c.nonUserChanged && c.delta.Some? && c.next.userRevision.Some?
    requires after == Append(d,
      Record(c.next.userEtag, c.next.userRevision.value, c.delta.value.updated, c.delta.value.removed))
    ensures DiskHolds(m, d) ==>
      && Load(d).Some?
      && (DiskHolds(c.next, after) <==>
            || Load(d).value.revision.None?
            || Load(d).value.revision.value < c.next.userRevision.value
            || c.next.users == m.users)
      && (DiskBehind(m, d) && PanelAdvances(m, i) ==> DiskHolds(c.next, after) && DiskBehind(c.next, after))
  {
    hide Rows, Ascending;
    if DiskHolds(m, d) {
      var s := Load(d).value;
      var r := Record(c.next.userEtag, c.next.userRevision.value, c.delta.value.updated, c.delta.value.removed);
      AppendReplays(d, r);
      SamePluginVia(c.next.plugin, m.plugin, s.plugin);
      if Rows(c.next.users.value) == Rows(m.users.value) {
        TableUnique(c.next.users.value, m.users.value);
      }
    }
  }

  /** What PullUsers guarantees; the users may still be missing. */
  ghost predicate UsersPulled(m: Memory, c: Candidate, i: Inputs) {
    && c.next.serverEtag == m.serverEtag && c.next.server == m.server && c.next.plugin == m.plugin
    && c.next.forcePluginRefresh == m.forcePluginRefresh && c.next.persistPending == m.persistPending
    && UsersFollow(m, c.next, i)
    && UserFlagOk(m, c, i)
    && (c.next.users.Some? ==> Ascending(c.next.users.value) && c.next.limitedCount == CountLimited(c.next.users.value))
    && (c.next.users.None? ==> c.next.limitedCount == 0)
  }
}

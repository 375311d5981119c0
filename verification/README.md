# A verified model of the shoes proxy server

A Dafny model of the parts of the server where a fast or memory-saving implementation has to
agree with something simple, and proofs that it does, for every input and every run.
`dafny verify dfyconfig.toml` checks the whole project.

| part | files | main results |
|---|---|---|
| Gecko obfuscation | Salamander, GeckoWire, GeckoTable, GeckoState, GeckoRuns, GeckoRoundTrip, Gro, Slots | bounds of every run and a run that reaches the queue bound; expired entries go; packets never mix; round trip through masking, chunking and reassembly; in-place batch decoding |
| Hysteria2 UDP | UdpWire, FragmentCache, FragmentRuns, FragmentMap, UdpRoundTrip | byte and entry bounds of every run, unreachable internal errors, what a packet handed out is made of, every answer exactly, round trip through fragmentation, wire format and an LRU cache |
| Bidirectional copy | CopyBuffer, CopyBidirectional | the ring buffer is a FIFO pipe under any short reads, short writes, resizing and release; when the writer is shut down; the half-close grace period |
| Panel users | UserTable, UserMerge, UserBatch, UserCount | both merge paths give the same table; the exact meaning of the change flags; the maintained count is a recount |
| Node controller | Lkg, Controller | commit and durability of every run of syncs, restart, the exact condition for a journalled delta to survive |
| Outbound chains | OutboundChain | the depth-first search accepts exactly the acyclic configurations |
| Refreshing resolver | RefreshingResolver | every interleaving of any number of lookups: when the resolver is replaced, and when it is not |
| Stream reader | StreamReader | lines and slices do not depend on how the bytes arrive; which bytes are a line |
| Routing | RoutingRules, RoutingMeaning, RoutingCache | what each matcher and a whole scan decide; first match with lazy resolution; the cache agrees with the uncached scan in every run |
| Port lists | PortText, PortRange, PortMeaning | printing and reading port lists is a round trip; which texts are port lists and which error the others get |

Where the program updates state in place the model is a class whose methods are proved against a
function of the old state (`GeckoState` against `GeckoTable.Accept`, `FragmentMap` against
`FragmentCache.Prepare`, and so on); the theorems about runs are lemmas about those functions.
Streams, the panel, the disk and the resolver are modelled by what they may answer; every
theorem holds for all of their behaviours.

## What turned out to be different from expectation

- The eviction queue may grow well beyond the length at which it is compacted: a run reaches
  12287 keys, and no run goes beyond (`GeckoRuns.QueueBoundIsTight`, `GeckoTable.RunOk`).
- A snapshot plus journal does not always hold what the node serves. If the panel's revision
  counter goes back, a journalled delta is passed over on replay and lost at the next start
  although every sync succeeded (`Controller.RevisionReset`). A sync turns a durable state into one
  that is not exactly if it journals a delta that changes users under a revision not newer than the
  one on disk (`Controller.LosesDelta` in the contract of `Controller.NodeController.Sync`, and over
  whole runs in `Controller.DurableThroughout`).
- The change flag of a small user delta overshoots when the delta takes back its own update;
  `UserBatch.InPlaceFlagExact` gives the exact condition.
- The comment before the commit in `sync` says a failed user candidate has invalidated the cache.
  The code calls `invalidate_user_cache` only when there is no user snapshot, and there it
  changes nothing (`Controller.NodeController.InvalidateUserCache`); the model follows the code.
- A failed sync can leave no generation running (`Controller.GenerationLost`): exactly when it gets to
  replacing the generation and neither the new one nor the old one starts. Every other sync that
  does not commit leaves the old generation running (`Controller.NodeController.Sync`).
- A hostname mask compares case-sensitively while the routing cache does not
  (`RoutingCaches.SpellingMatters`). A request whose key is cached is answered as the rules do if and
  only if the rule that decided the request behind the cached entry, applied to this destination, acts
  as the rules do on it (`RoutingCaches.RouteExactly`, for every run and capacity). Spellings that no
  hostname mask tells apart are interchangeable in this sense if the resolver and the regular
  expressions ignore case (the source builds them so, but an inline flag can undo it), and so are
  destinations in lower case, for any rules.
- After a connection error a lookup may be given the very resolver that failed again, without a
  rebuild (`RefreshingResolver.RetryOnSameResolver`). `RefreshingResolver.RetriesOnFailed` says when:
  exactly if that resolver was installed after the lookup sampled the generation and is still current.
- Eviction may pick the younger of two entries (`GeckoRuns.YoungerPicked`), as the source says;
  `GeckoRuns.EvictionPicksTheOldest` gives the exact condition.
- The "no valid ports" error cannot be reached by reading text (`PortRange.FromStr`).

## Model

| member | source | states |
|---|---|---|
| Salamander.MaskRoundTrip | src/hysteria2_obfs.rs:329-356 | unmasking inverts masking for every key stream, salt and payload; a salt-only datagram is ignored |
| Salamander.MaskedBits | src/hysteria2_obfs.rs:329-341 | a packet is the salt and then, bit by bit, the payload, inverted exactly where the repeating 32-byte key has a one |
| Salamander.EncodePacket | src/hysteria2_obfs.rs:329-341 | the loop produces the masked form: the salt, then payload xor the repeating key |
| Salamander.DecodeInPlace | src/hysteria2_obfs.rs:343-356 | decoding a packet over itself leaves the payload at its start, touches nothing outside it, and nothing at all if the packet is too short |
| GeckoWire.ParsesOnlyFrames | src/hysteria2_obfs.rs:375-399 | every accepted packet is, up to its flag byte, the frame of its chunk with some padding |
| GeckoWire.FrameLayout | src/hysteria2_obfs.rs:238-246 | where the message id, index, count, padding length, padding and piece of a frame are |
| GeckoWire.FrameRoundTrip | src/hysteria2_obfs.rs:207-257 | parsing a frame gives back its id, index, count and piece, whatever the padding |
| GeckoWire.PiecesConcat | src/hysteria2_obfs.rs:221-236 | the pieces of a payload concatenate to it, also when there are more pieces than bytes |
| GeckoWire.PadKeepsSizeRange | src/hysteria2_obfs.rs:358-365 | a padded datagram stays in the configured size range, one that cannot is unpadded, and the padding length fits 16 bits |
| GeckoTable.EvictRemovesOne | src/hysteria2_obfs.rs:527-534 | with every live key queued, eviction removes exactly one entry, the first live key, and the stale keys before it |
| GeckoTable.CompactExcess | src/hysteria2_obfs.rs:536-541 | compaction never adds duplicate copies beyond those there were |
| GeckoTable.QueuePush | src/hysteria2_obfs.rs:464-483 | a push onto a short or freshly compacted queue keeps the queue bound |
| GeckoTable.AcceptOk | src/hysteria2_obfs.rs:450-504 | every chunk arrival keeps the table invariant |
| GeckoTable.RunOk | src/hysteria2_obfs.rs:415-555 | in every run: at most 4096 entries, at most 8 per source, live keys queued, queue below 12288, each entry's counter equal to its filled slots and strictly between 0 and its count |
| GeckoImpl.GeckoState.constructor | src/hysteria2_obfs.rs:441-448 | starts as the empty table |
| GeckoImpl.GeckoState.DropEntry | src/hysteria2_obfs.rs:506-520 | removes one entry; each source's counter stays the number of its live entries, absent when zero |
| GeckoImpl.GeckoState.EvictOldest | src/hysteria2_obfs.rs:527-534 | the popping loop is the specified eviction |
| GeckoImpl.GeckoState.CompactOrder | src/hysteria2_obfs.rs:536-541 | keeps exactly the live keys, duplicates included, in order |
| GeckoImpl.GeckoState.SweepExpired | src/hysteria2_obfs.rs:543-554 | drops exactly the expired entries in whatever order the hash map yields them |
| GeckoImpl.GeckoState.AcceptChunk | src/hysteria2_obfs.rs:450-504 | packet and new state are those of the abstract arrival, counters included, so every theorem about runs holds of it |
| GeckoImpl.GeckoState.FreeSlot | src/hysteria2_obfs.rs:464-471 | evicts from a full table, then compacts a long queue |
| GeckoImpl.GeckoState.Insert | src/hysteria2_obfs.rs:464-483 | admits an empty entry with its deadline and queues its key |
| GeckoImpl.GeckoState.StoreChunk | src/hysteria2_obfs.rs:485-504 | stores a piece, ignores a duplicate or another count, and hands out the joined packet with the last piece |
| GeckoRuns.ExpiredEntriesGo | src/hysteria2_obfs.rs:450-462 | in every run whose clock never goes back, after each arrival every entry left is overdue by less than half a TTL |
| GeckoRuns.PacketsNeverMix | src/hysteria2_obfs.rs:450-504 | in every run a packet handed out consists of received pieces of one source, id and count, each in its position; if the clock never goes back, all of them came within less than one and a half TTL |
| GeckoRuns.EvictionPicksTheOldest | src/hysteria2_obfs.rs:415-438 | in every run the entry to be evicted has the earliest deadline if and only if every live key whose last copy lies before its last copy is due at the same time; so whenever its key was not queued again |
| GeckoRuns.YoungerPicked | src/hysteria2_obfs.rs:429-435 | a run of four chunks after which the younger of two entries would be evicted |
| GeckoRuns.QueueBoundIsTight | src/hysteria2_obfs.rs:460-483 | some run fills the queue to exactly 12287 keys |
| GeckoRoundTrip.EncodeTransmit | src/hysteria2_obfs.rs:207-257 | a long-header packet becomes one masked frame per piece, anything else one masked datagram |
| GeckoRoundTrip.DatagramCarriesPiece | src/hysteria2_obfs.rs:314-326 | unmasking and parsing a sent datagram gives the piece it was made for |
| GeckoRoundTrip.RoundTrip | src/hysteria2_obfs.rs:207-504 | pieces in any order and duplicated, within the TTL, into any table that does not hold the message, full ones included, or mixed with other datagrams for which there is room, also ones that name the message with another count or repeat a delivered piece with other bytes: nothing before the last missing piece, then exactly the payload |
| Gro.ResplitConcat | src/hysteria2_obfs.rs:557-601 | cutting the compacted bytes by the new stride gives back the payloads |
| Gro.DecodeReceivedMeta | src/hysteria2_obfs.rs:557-601 | after in-place decoding, the new length and stride describe exactly the payloads of the raw segments longer than a salt, in order |
| Gro.DecodeBatch | src/hysteria2_obfs.rs:567-589 | the loop over the segments of one buffer never overwrites a segment it has not read |
| Gro.DecodeSegment | src/hysteria2_obfs.rs:572-588 | one segment's payload is appended to the output; bytes after the segment are untouched |
| Gro.CopyDown | src/hysteria2_obfs.rs:583-585 | moving bytes down over themselves preserves them |
| UdpWire.VarintRoundTrip | src/hysteria2_server.rs:1655-1704 | every value below 2^62 is read back from the front of any data; larger values are refused |
| UdpWire.VarintLayout | src/hysteria2_server.rs:1655-1673 | the form of section 16 of RFC 9000: the shortest of four sizes, named by the two high bits, most significant byte first |
| UdpWire.DatagramRoundTrip | src/hysteria2_server.rs:1112-1166 | every sendable datagram parses back to the same fields |
| UdpWire.HeaderLayout | src/hysteria2_server.rs:855-884 | where session id, packet id, fragment id, count, address length and address are |
| UdpWire.BuildDatagram | src/hysteria2_server.rs:855-884 | a built datagram has the computed size and parses to its fields |
| UdpWire.SendPacket | src/hysteria2_server.rs:845-893 | each datagram fits the maximum size and parses to its fragment; the two refusals happen exactly when the header leaves no room or more than 255 fragments are needed |
| UdpWire.FragmentsConcat | src/hysteria2_server.rs:845-893 | the fragments concatenate to the payload |
| UdpWire.CeilCovers | src/hysteria2_server.rs:868-877 | the rounded-up count leaves nothing out and no fragment empty |
| FragmentCache.PopListed | src/hysteria2_server.rs:989-1006 | removing an entry gives back exactly its bytes |
| FragmentCache.FrontListed | src/hysteria2_server.rs:953-968 | moving an entry to the front changes the byte total by that entry alone |
| FragmentCache.ReassembleOk | src/hysteria2_server.rs:940-1055 | every fragment keeps the cache invariant and draws none of the three internal errors |
| FragmentCache.DropSessionOk | src/hysteria2_server.rs:1057-1065 | ending a session keeps the invariant |
| FragmentCache.StepOk | src/hysteria2_server.rs:903-1065 | every event keeps the invariant |
| FragmentCache.RunOk | src/hysteria2_server.rs:899-1065 | in every run: at most 256 entries and 4 MiB, length and count equal to the stored fragments, never empty, never complete, an address exactly with fragment 0 |
| FragmentCache.InternalErrorsUnreachable | src/hysteria2_server.rs:970-1055 | "cache error", "missing address" and "missing fragment" are unreachable |
| FragmentRuns.RunTraced | src/hysteria2_server.rs:940-1065 | in every run each cached fragment arrived, in its position, for that session, packet id and count, since the session last ended |
| FragmentRuns.AnswersExactly | src/hysteria2_server.rs:903-1055 | each of the four refusals, the packet and silence, if and only if: zero count, id not below the count, a missing fragment that would exceed 65535 bytes, one that would exceed the byte budget after what its entry displaces, the last missing one, or any other |
| FragmentRuns.OthersKept | src/hysteria2_server.rs:953-968 | other packets stay as they are, except the least recently used one when a new packet comes to a full cache |
| FragmentRuns.CacheAfter | src/hysteria2_server.rs:953-1055 | after a refusal or a complete packet nothing of it is cached; otherwise exactly this fragment was added to those held with the same count |
| FragmentRuns.PacketsNeverMix | src/hysteria2_server.rs:903-1055 | in every run a packet is handed out only for a fragment: an unfragmented one as it came, any other with its last missing fragment, as the concatenation of fragments of that session, packet id and count, each in its position and arrived since the session last ended, with the address of fragment 0, at most 65535 bytes |
| FragmentMaps.FragmentMap.constructor | src/hysteria2_server.rs:899-901 | starts empty |
| FragmentMaps.FragmentMap.Get | src/hysteria2_server.rs:953-955 | a hit becomes the most recently used entry |
| FragmentMaps.FragmentMap.CachedBytes | src/hysteria2_server.rs:994-1006 | the loop sums the bytes of all entries |
| FragmentMaps.FragmentMap.ReassembleFragment | src/hysteria2_server.rs:940-1055 | reply and new cache are those of the specification, so the theorems of FragmentRuns are about it |
| FragmentMaps.FragmentMap.OpenEntry | src/hysteria2_server.rs:953-968 | a missing entry or one with another count is replaced by an empty one |
| FragmentMaps.FragmentMap.AddFragment | src/hysteria2_server.rs:1008-1020 | the entry gets the fragment, its bytes, its count and the address with fragment 0; complete exactly if no fragment is missing |
| FragmentMaps.FragmentMap.StoreFragment | src/hysteria2_server.rs:1008-1055 | stores the fragment, or completes the packet and removes the entry |
| FragmentMaps.FragmentMap.PrepareFragment | src/hysteria2_server.rs:903-938 | unfragmented packets pass, malformed ones are refused, fragments are reassembled; no internal error |
| FragmentMaps.FragmentMap.RemoveSession | src/hysteria2_server.rs:1057-1065 | removes exactly the session's entries |
| UdpRoundTrip.Send | src/hysteria2_server.rs:845-893 | what is sent, one datagram or several, is what the round trip is about, each datagram within the maximum size |
| UdpRoundTrip.RoundTrip | src/hysteria2_server.rs:845-1055 | one datagram or several fragments, in any order and duplicated, mixed with other traffic, with budget for the packet and for the others' fragments: nothing before the last missing fragment, then the payload and fragment 0's address, and no trace left |
| CopyBuffers.RingGrows | src/copy_bidirectional.rs:183-200 | bytes read into the free window extend the ring's contents, across wrap-around |
| CopyBuffers.RingShrinks | src/copy_bidirectional.rs:239-262 | bytes written from the front shorten the contents, across wrap-around |
| CopyBuffers.CopyBuffer.constructor | src/copy_bidirectional.rs:105-121 | starts empty and without storage |
| CopyBuffers.CopyBuffer.ResizeEmpty | src/copy_bidirectional.rs:123-132 | an empty buffer takes the new size |
| CopyBuffers.CopyBuffer.ParkEmpty | src/copy_bidirectional.rs:134-145 | gives the storage back and picks the next size by whether a bulk read was seen |
| CopyBuffers.CopyBuffer.Ensure | src/util.rs:42-81 | storage exists at the current size and the contents are unchanged |
| CopyBuffers.CopyBuffer.PrepareRead | src/copy_bidirectional.rs:171-182 | the larger size is taken exactly if the buffer is empty and a bulk read was seen; the contents are unchanged |
| CopyBuffers.CopyBuffer.ReadWindow | src/copy_bidirectional.rs:183-193 | the offered window is never empty, so no bytes always means the end; what is read extends the contents |
| CopyBuffers.CopyBuffer.ReadOnce | src/copy_bidirectional.rs:193-211 | a read keeps the pipe: bytes read are bytes written plus contents, in order |
| CopyBuffers.CopyBuffer.ReadPhase | src/copy_bidirectional.rs:171-212 | reads until full, ended or blocked, keeping the pipe |
| CopyBuffers.CopyBuffer.PingPhase | src/copy_bidirectional.rs:214-233 | a ping is sent only without data and is flushed later |
| CopyBuffers.CopyBuffer.WriteOnce | src/copy_bidirectional.rs:239-271 | a short write keeps the pipe and marks the flush |
| CopyBuffers.CopyBuffer.WritePhase | src/copy_bidirectional.rs:239-272 | writes until empty or blocked, keeping the pipe |
| CopyBuffers.CopyBuffer.Settle | src/copy_bidirectional.rs:274-295 | finishes only at the end of the stream with everything written and flushed; parks only when empty; reports a failure exactly if a stream failed; pending with a flush due only if the writer was not ready |
| CopyBuffers.CopyBuffer.Pass | src/copy_bidirectional.rs:162-296 | a pass that loops again has used up an outcome of a stream, so a poll terminates; a failure is reported exactly if a stream failed |
| CopyBuffers.CopyBuffer.PollCopy | src/copy_bidirectional.rs:147-297 | every poll keeps the pipe; done means all of the source was written and flushed; a failure is reported exactly if a stream failed; an idle empty direction holds no storage; with budget a poll stops short, and leaves a due ping undone, only if a stream was not ready or failed, and leaves bytes unwritten or unflushed only if the writer was |
| CopyBidirectional.Direction.Transfer | src/copy_bidirectional.rs:328-355 | the writer is shut down only after the end, all bytes written, and a flush; states only advance; a failure is reported exactly if a stream failed; it stops short only for lack of budget or because a stream was not ready or failed |
| CopyBidirectional.Tunnel.PollDirections | src/copy_bidirectional.rs:377-391 | both directions are polled with a budget each and neither disturbs the other; a failure is reported exactly if a stream of either failed; each direction stops short only for the reasons of its own streams; pings are due only where the other side supports them |
| CopyBidirectional.Tunnel.ArmPings | src/copy_bidirectional.rs:377-388 | each direction gets a ping exactly if the side it writes to supports them |
| CopyBidirectional.Tunnel.Grace | src/copy_bidirectional.rs:393-405 | the grace period starts at the first poll with one side closed, is kept, and is cancelled otherwise |
| CopyBidirectional.Tunnel.Poll | src/copy_bidirectional.rs:364-412 | success if and only if both directions are done, or one is closed and the grace period is over; otherwise failure if and only if a stream failed; each direction stops short only for the reasons of its own streams |
| CopyBidirectional.Drive | src/copy_bidirectional.rs:328-355 | any number of polls forwards a prefix of the source, and all of it if the writer was shut down or the streams were always ready |
| UserTable.TableUnique | src/app.rs:1073-1196 | a table of users has only one id-sorted form |
| UserTable.MergedMeans | src/app.rs:1073-1196 | the table after a delta has a row exactly if its id is not removed, and it is the last update for the id, or there is none and it was there before |
| UserTable.Search | src/app.rs:1095-1109 | binary search finds the row or the place where it belongs |
| UserMerge.Normalize | src/app.rs:1078-1083 | a table in any order is sorted without losing or inventing a row |
| UserMerge.UpdateInPlace | src/app.rs:1094-1107 | the last update per id wins; the flag says whether some update differed from the old row |
| UserMerge.RemoveInPlace | src/app.rs:1108-1113 | removed ids are gone; the flag says whether one was there |
| UserMerge.MergeInPlace | src/app.rs:1091-1115 | the small path gives the merged table and its flag has the stated meaning |
| UserBatch.Dedup | src/app.rs:1117-1131 | keeps the last row of each id |
| UserBatch.DetectChange | src/app.rs:1133-1157 | the flag is true exactly if the merged table differs |
| UserBatch.ChangeExact | src/app.rs:1133-1157 | whether the table changes can be told from the delta alone, both directions |
| UserBatch.Retain | src/app.rs:1159-1174 | one walk with two cursors drops exactly the replaced and removed rows |
| UserBatch.Survivors | src/app.rs:1176-1191 | the updates not removed by the same delta |
| UserBatch.MergeBatch | src/app.rs:1117-1195 | the large path gives the merged table, with an exact flag |
| UserBatch.MergeUserDelta | src/app.rs:1073-1196 | for distinct ids in any order and any delta: the sorted merged table on both paths; no change reported means no change; the flag is exact on the large path and has its stated meaning on the small one |
| UserBatch.InPlaceFlagExact | src/app.rs:1091-1115 | the small path's flag is wrong exactly when a delta takes back an update that differed, and then only by reporting a change |
| UserBatch.InPlaceFlagOvershoots | src/app.rs:1091-1115 | adding and removing one user raises the flag for an unchanged table |
| UserCount.CountsTable | src/app.rs:1198-1203 | counting the vector counts the table |
| UserCount.CountAfterDelta | src/app.rs:1207-1239 | in any order of the touched ids, the new count is that of the merged table; the subtraction never saturates |
| UserCount.DeltaCountIsRecount | src/app.rs:1198-1239 | the maintained count equals a recount of the merged vector |
| UserCount.PrepareFull | src/app.rs:1245-1252 | a full list is sorted, and compared exactly with the current table |
| Lkg.AppendReplays | src/v2board/lkg.rs:310-414 | loading after an append replays one more record |
| Lkg.AppendSurvives | src/v2board/lkg.rs:342-443 | an appended delta survives a restart if and only if there is no revision on disk, or an older one, or the delta changes nothing |
| Lkg.JournalSurvives | src/v2board/lkg.rs:342-443 | a whole journal of advancing revisions is replayed without loss, with the last revision and validator |
| Controller.NodeController.constructor | src/app.rs:214-243 | starts without cached users, nothing pending |
| Controller.NodeController.InvalidateUserCache | src/app.rs:712-717 | forgets users and validators; in the states where it is called there is nothing to forget |
| Controller.NodeController.PullFull | src/app.rs:472-495 | a full response gives the sorted table and its count; changed exactly if the vector differs |
| Controller.NodeController.PullDelta | src/app.rs:496-535 | a delta gives the merged table and its count, or fails exactly when there is no base |
| Controller.NodeController.PullUsers | src/app.rs:425-537 | the user part of the candidate is what the panel's answer makes of the cached table; memory is untouched |
| Controller.NodeController.Gather | src/app.rs:326-578 | succeeds exactly when every fetch needed did and server and users are known; memory is as it was either way |
| Controller.NodeController.RefreshUsers | src/app.rs:747-783 | publishes by the delta where supported, else in full; the served table becomes the candidate's or stays |
| Controller.NodeController.ApplyRuntime | src/app.rs:792-860 | success exactly when prepared and started; on failure the old generation runs, except exactly if both starts fail |
| Controller.NodeController.Commit | src/app.rs:632-710 | a served candidate is cached as it is and saved if anything was applied or a write is due; what the disk holds then; "committed, not persisted" if and only if that write fails |
| Controller.NodeController.Apply | src/app.rs:580-630 | succeeds exactly when publishing or replacing does; then the running generation serves the candidate, else what is left is the old one, or none exactly after losing both |
| Controller.NodeController.PersistLkg | src/app.rs:894-911 | succeeds exactly if the store does; then the disk holds what is cached, else what the failed write left |
| Controller.NodeController.Save | src/app.rs:663-691 | which of journal and snapshot is written and what it leaves on disk; succeeds exactly if the write due does, a journal that is too large to go on with being one that is replaced by a snapshot |
| Controller.NodeController.Sync | src/app.rs:326-710 | commits exactly when all it needs succeeds; no commit means memory, disk and generation unchanged, except that the generation is lost exactly when replacing it loses both; a commit caches exactly what the panel said; a running generation serves what is cached; what is not pending stays on disk, except exactly if the sync journals a delta that changes users under a revision not newer than the one on disk; "committed, not persisted" if and only if it commits and the write due fails; a failed write is repaired by the next successful one |
| Controller.NodeController.RestoreLkg | src/app.rs:862-892 | restores exactly when there is a store that fits the node and the runtime starts; then caches, counts and serves what the disk holds, validators included |
| Controller.RestartRecovers | src/app.rs:862-911 | two states that match the disk have the same user vector and server and equivalent plugins |
| Controller.Restart | src/app.rs:862-911 | a new controller on the disk of one whose state was durable comes back with the same users, server, count and equivalent plugin, and serves them |
| Controller.Run | src/app.rs:326-710 | any number of syncs: every moment of the run is as the sync before makes it, commits exactly where they are due, and a running generation serves what is cached at every moment |
| Controller.DurableThroughout | src/app.rs:580-707 | a run is durable at every moment if and only if it starts so and no sync journals a delta that changes users under a revision not newer than the one on disk |
| Controller.SteadyPanelKeepsDurable | src/app.rs:580-707 | while the panel's revisions advance, a durable state stays durable, and after a successful sync the disk holds what is cached |
| Controller.RunningThroughout | src/v2board/runtime_graph.rs:175-226 | what runs goes on running at every moment if and only if no sync gets to replacing the generation and loses both |
| Controller.AllWellCommits | src/app.rs:326-710 | a sync for which nothing fails commits |
| Controller.GenerationLost | src/v2board/runtime_graph.rs:175-226 | a sync after which nothing is served although users are cached |
| Controller.RevisionReset | src/app.rs:663-707 | three successful syncs after which a restart would lose a user |
| Controller.AppendedOutcome | src/app.rs:664-685 | what the disk holds after a journal append, in both directions |
| Controller.StillHeld | src/app.rs:652-663 | a commit that writes nothing leaves the disk holding what is cached |
| OutboundChain.CollectTags | src/backend_config.rs:794-812 | succeeds exactly if tags are non-blank and distinct and no chain is empty |
| OutboundChain.ChainSearch.Visit | src/backend_config.rs:836-860 | success finishes the tag; failure names an unknown hop or a tag on a cycle; terminates on the tags not yet coloured |
| OutboundChain.ChainSearch.VisitHops | src/backend_config.rs:848-857 | success finishes every hop; failure names a real defect |
| OutboundChain.GreyIsCycle | src/backend_config.rs:842-846 | meeting a tag that is under way is a real cycle |
| OutboundChain.FinishedAcyclic | src/backend_config.rs:836-860 | if everything is finished nothing can reach itself |
| OutboundChain.SearchAll | src/backend_config.rs:813-816 | the search succeeds if and only if every hop is known and the chains are acyclic |
| OutboundChain.ValidateOutbounds | src/backend_config.rs:790-834 | accepts exactly the sound configurations, and every error reported is justified |
| RefreshingResolver.StepKeeps | src/resolver.rs:156-249 | every step of every lookup, cancellation and tick keeps the protocol invariant |
| RefreshingResolver.IdleRefreshes | src/resolver.rs:171-198 | a lookup that starts more than the idle limit after the last activity and finds the lock free installs a new resolver and makes its first call on it |
| RefreshingResolver.IdleGivesUp | src/resolver.rs:175-196 | if none can be made, or another lookup was faster, it goes on with the resolver there is |
| RefreshingResolver.AnswerIsActivity | src/resolver.rs:200-206 | a call that answers ends the lookup and counts as activity |
| RefreshingResolver.FailureIsNotActivity | src/resolver.rs:200-247 | a call that fails does not count as activity, and ends the lookup unless it is the first, the error is a connection error and retrying is on |
| RefreshingResolver.ErrorRefreshes | src/resolver.rs:208-241 | a connection error on the current resolver, with a retry allowed and the lock free, installs a new one and makes the retry on it |
| RefreshingResolver.ErrorRebuildsFollowErrors | src/resolver.rs:200-241 | in every run an error rebuild is made only under the retry policy, by a lookup whose first call met a connection error |
| RefreshingResolver.RunMoves | src/resolver.rs:156-249 | the step sequences these speak of are runs |
| RefreshingResolver.RunOk | src/resolver.rs:156-249 | the invariant holds after every interleaving |
| RefreshingResolver.LockAndCount | src/resolver.rs:170-247 | the lock is held exactly by the lookup in a locked section and never leaks; the generation is the number of rebuilds; at most two calls per lookup |
| RefreshingResolver.NoRedundantRebuild | src/resolver.rs:170-247 | no two error rebuilds answer the same sampled generation, each replaces exactly the resolver that failed, and idle rebuilds are more than the idle limit apart |
| RefreshingResolver.RebuildNeedsLock | src/resolver.rs:170-247 | resolver and generation change only by the lock holder |
| RefreshingResolver.RetryIsCurrent | src/resolver.rs:208-241 | a retry goes to the current resolver, newer than the sampled generation and never older than the one that failed |
| RefreshingResolver.RetriesOnFailed | src/resolver.rs:200-216 | under the lock, the retry goes to the very resolver that failed if and only if it was installed after the sample and is still current |
| RefreshingResolver.RetryOnSameResolver | src/resolver.rs:200-216 | a run in which that happens |
| RefreshingResolver.NoDeadlock | src/resolver.rs:170-247 | while a lookup is unfinished one can make a step, and each step brings its lookup nearer to its end |
| StreamReader.Reader.constructor | src/stream_reader.rs:19-28 | starts empty |
| StreamReader.Reader.ResetBufOffset | src/stream_reader.rs:41-48 | moving the unread bytes to the front preserves them |
| StreamReader.Reader.Read | src/stream_reader.rs:255-292 | takes in at least one byte, or reports the full buffer, the end or a failure exactly when that is the case; unread plus coming bytes are conserved |
| StreamReader.Reader.FindLf | src/stream_reader.rs:57 | the first LF of a part of the buffer, reading exactly the bytes up to it |
| StreamReader.Reader.Search | src/stream_reader.rs:54-62 | reads exactly the bytes not read before, each once |
| StreamReader.Reader.LineBefore | src/stream_reader.rs:58-74 | the line before the LF, without CRLF, or the bare-LF error |
| StreamReader.Reader.TakeLine | src/stream_reader.rs:56-83 | returns and consumes the line the specification says, relative to all coming bytes |
| StreamReader.Reader.ReadOn | src/stream_reader.rs:84-99 | after the offset reset the search goes on where it stopped |
| StreamReader.Reader.ReadLineBytes | src/stream_reader.rs:50-101 | result, remaining bytes and bytes looked at are functions of the byte stream, buffer size and flag alone; full if and only if the first buffer-size bytes hold no LF |
| StreamReader.NextLineMeans | src/stream_reader.rs:50-101 | a line is read exactly if it holds no LF and CRLF follows it within the buffer size, or, where allowed, a bare LF; the bare-LF error, the full buffer and the end exactly when none of that is so |
| StreamReader.Reader.Fill | src/stream_reader.rs:164-167 | waiting for bytes ends as the number of available bytes and the buffer size say |
| StreamReader.Reader.PeekSlice | src/stream_reader.rs:149-169 | the next bytes, or the end, without consuming |
| StreamReader.Reader.ReadSlice | src/stream_reader.rs:203-230 | the next bytes are returned and consumed, or nothing is |
| StreamReader.Reader.Consume | src/stream_reader.rs:173-182 | skips exactly the given number of unread bytes |
| StreamReader.Reader.ReadU16 | src/stream_reader.rs:184-201 | the next two bytes in big-endian order |
| StreamReader.LinesRoundTrip | src/stream_reader.rs:50-101 | lines written with CRLF are read back, if each fits the buffer |
| StreamReader.ReadLines | src/stream_reader.rs:50-101 | any number of line reads gives the lines of the byte stream, however it is cut |
| RoutingRules.ScanIsFirstMatch | src/client_proxy_selector.rs:554-599 | the scan's result is that of the first matcher, in rule order, that matches or cannot be decided |
| RoutingMeaning.MatchesDomainMeans | src/client_proxy_selector.rs:536-549 | a hostname matches a domain exactly if it is the domain or ends with a dot and the domain |
| RoutingMeaning.ContainsMeans | src/client_proxy_selector.rs:632-637 | a keyword matches exactly if it occurs somewhere |
| RoutingMeaning.LowerMeans | src/client_proxy_selector.rs:638-643 | two names are equal in lower case exactly if they differ at most in the case of ASCII letters |
| RoutingMeaning.MasksMeans | src/client_proxy_selector.rs:715-744 | a masked comparison holds exactly if the addresses agree in every bit of the netmask |
| RoutingMeaning.Ipv4Network | src/client_proxy_selector.rs:521-533 | an IPv4 rule compares the last 32 bits of IPv4 destinations |
| RoutingMeaning.Ipv4OnlyMapped | src/client_proxy_selector.rs:521-533 | with a netmask of at least 96 bits it meets no IPv6 destination outside ::ffff:0:0/96 |
| RoutingMeaning.VerdictMeans | src/client_proxy_selector.rs:613-745 | every kind of matcher matches exactly the destinations it describes, and ends the scan exactly if it needs an address that cannot be had |
| RoutingMeaning.ScanMeans | src/client_proxy_selector.rs:554-599 | the scan finds a rule, fails or finds nothing exactly if the first matcher that is met or stuck is one of that rule and met, is stuck, or does not exist |
| RoutingMeaning.AskedAddress | src/resolver.rs:277-325 | a destination is matched by the address it came with, else its own, else the first the resolver gives |
| RoutingRules.ResolveLocation | src/resolver.rs:277-325 | the known address, the literal, or the resolver's first answer, kept for later |
| RoutingRules.MatchMasked | src/client_proxy_selector.rs:715-744 | a mask against an address, including rule hostnames with several addresses |
| RoutingRules.MatchMask | src/client_proxy_selector.rs:665-745 | the verdict is that of the pure specification although the address is resolved lazily and kept |
| RoutingRules.MatchMatcher | src/client_proxy_selector.rs:613-660 | the verdict of every kind of matcher is the one `RoutingMeaning.VerdictMeans` describes, although the address is resolved lazily and kept |
| RoutingRules.MatchRule | src/client_proxy_selector.rs:554-599 | scanning with resolution at most once equals the pure first-match scan, the one `RoutingMeaning.ScanMeans` describes |
| RoutingRules.CaseVariantVerdict | src/client_proxy_selector.rs:613-745 | two spellings meet the same verdict, except exactly if the matcher is a hostname mask in force that takes one and not the other |
| RoutingRules.CaseVariantsDecidedAlike | src/client_proxy_selector.rs:27-44 | destinations with the same cache key that no hostname mask tells apart are decided alike |
| RoutingRules.ProtocolIrrelevant | src/client_proxy_selector.rs:351-358 | rules without protocol matchers do not depend on the sniffed protocol |
| RoutingCaches.RoutingCache.constructor | src/client_proxy_selector.rs:72-79 | an empty cache of at least one entry |
| RoutingCaches.RoutingCache.Get | src/client_proxy_selector.rs:81-87 | looks up by lower-cased destination without touching the order |
| RoutingCaches.RoutingCache.Insert | src/client_proxy_selector.rs:89-94 | puts the entry first; only the last entry of a full cache goes |
| RoutingCaches.Selector.constructor | src/client_proxy_selector.rs:343-365 | caching is on exactly without protocol matchers and with resolution or more than 16 rules |
| RoutingCaches.ToDecision | src/client_proxy_selector.rs:245-274 | blocked exactly for a block rule; otherwise the rule's chain, to the destination as it is, or to the override address with its port, 0 standing for the requested one, and no resolved address |
| RoutingCaches.Selector.JudgeUncached | src/client_proxy_selector.rs:457-478 | the scan's rule applied to the destination |
| RoutingCaches.Selector.JudgeInner | src/client_proxy_selector.rs:395-443 | a hit applies the cached rule to the destination at hand, a miss answers by the rules and stores that; failures are not cached |
| RoutingCaches.JudgeSound | src/client_proxy_selector.rs:395-443 | with a sound cache and interchangeable destinations the answer is the uncached one and the cache stays sound |
| RoutingCaches.JudgeAll | src/client_proxy_selector.rs:395-443 | every answer of a run over interchangeable destinations is the uncached one |
| RoutingCaches.CaseBlindInterchangeable | src/client_proxy_selector.rs:27-44 | ASCII destinations that no hostname mask tells apart are interchangeable in any spelling |
| RoutingCaches.CanonicalInterchangeable | src/client_proxy_selector.rs:27-44 | destinations that are their own key are interchangeable for any rules and resolver |
| RoutingCaches.SameActionInterchangeable | src/client_proxy_selector.rs:482-493 | so are spellings decided by different rules with the same action |
| RoutingCaches.Route | src/client_proxy_selector.rs:343-493 | a new selector, any capacity, any run: same action and destination as without the cache, if there is no cache or the destinations are interchangeable |
| RoutingCaches.RouteTwo | src/client_proxy_selector.rs:395-493 | with a cache, the second of two requests is answered as without it if and only if the two are interchangeable |
| RoutingCaches.RouteExactly | src/client_proxy_selector.rs:343-493 | in every run with a cache of any capacity, a request is answered as without it if and only if its key is not cached or the request whose decision is cached, by least-recently-put eviction, is interchangeable with it |
| RoutingCaches.SpellingMatters | src/client_proxy_selector.rs:689-691 | with a hostname mask a case variant is answered differently from the uncached scan |
| PortText.U16RoundTrip | src/address.rs:296-343 | decimal text of a 16-bit number is read back |
| PortText.SplitJoin | src/address.rs:300-303 | splitting a joined list gives the list |
| PortMeaning.ParseU16Means | src/address.rs:311-343 | the numbers read are exactly an optional plus sign, any number of zeros and a decimal number up to 65535 |
| PortMeaning.PartMeans | src/address.rs:300-343 | a part is accepted exactly if it is a number or two ascending ones with a dash between; each of the three errors exactly when |
| PortMeaning.ListMeans | src/address.rs:299-346 | a list is refused with the error of its first bad part; without one it stands for exactly the ports some part covers |
| PortRange.New | src/address.rs:271-281 | sorting and deduplicating gives the increasing list of the same ports; the only error is the empty list |
| PortRange.IncreasingUnique | src/address.rs:271-281 | there is only one increasing list of given ports |
| PortRange.ReadParts | src/address.rs:299-346 | the parts in order, the first wrong one deciding |
| PortRange.FromStr | src/address.rs:283-349 | a text means its address and the listed ports in increasing order, or the stated error; an empty list is never reported |
| PortRange.RunIsMaximal | src/address.rs:398-407 | a run is consecutive and cannot be extended |
| PortRange.FindRunEnd | src/address.rs:402-404 | the end of the run; no successor computed on the way, nor the last one compared, leaves 16 bits |
| PortRange.PrintPorts | src/address.rs:395-427 | the text of the maximal runs is read back as exactly these ports |
| PortRange.Print | src/address.rs:388-431 | the printed location means the location |
| PortRange.PrintAndRead | src/address.rs:283-431 | reading what was printed gives the same location |

## Left out

- BLAKE2b and randomness: the Salamander key is any function of password and salt; salts, chunk
  counts, padding and message ids are arbitrary inputs.
- Sockets, wakers and clocks: time is a parameter, a stream poll answers from a script, and each
  theorem holds for all scripts.
- Delivery of several packets of one received batch (`poll_recv_gecko`) is not modelled.
- Resolution of a destination's address text, and the address printer and parser: a parameter of
  `UdpWire` and `PortRange`.
- The remaining branches of the UDP session loop, TCP handling, authentication and bandwidth.
- Server, TLS and QUIC configuration, the outbound specification checks
  (`validate_outbound_spec`), metrics, logging and the command line.
- The alive list, the traffic tracker and the plugin's own state are carried only as far as they
  decide whether a sync commits or what is stored.
- File formats, checksums and torn tails of the snapshot and journal: a write happens or not.
- The resolver's answers themselves, and address literals, which it answers without the protocol.
- Integer wrap-around of the resolver generation (64 bits) is not modelled, because it takes 2^64 rebuilds.
- Non-ASCII hostnames in the routing theorems; the lower-case form of other text is arbitrary.
- Requests that arrive with an address already resolved: `RoutingCaches.Selector.JudgeInner` says
  what they are answered, the theorem about runs does not cover them.
- UTF-8 decoding of lines, and the mutable borrow of the line: a line is returned as a value.
- `read_u8`, `peek_u8`, `read_slice_into` and `unparsed_data` of the stream reader follow the same
  pattern as the members modelled.
- GeckoRoundTrip.RoundTrip: if other datagrams with chunks arrive in between, assumes room for the entries
  they may open, because they could otherwise evict the message. Without them it assumes nothing of the kind.
- UdpRoundTrip.RoundTrip: assumes at most 255 fragments of others between two deliveries of the packet and
  budget for the packet and the others' fragments, because it could otherwise be evicted or refused.

# Error-abuse zones, verified

A Dafny model of an nginx module that counts error responses per client identity in a shared-memory
zone and bans identities that produce too many, with the proofs of what it promises.

`dafny verify dfyconfig.toml` checks everything.

## What is modelled

**The zone.** A zone is a set of nodes, each with a bounded ring of event times and an absolute ban
deadline, reached through a tree ordered by (crc32, digest) and through an LRU queue. `Zone.dfy` and
`Index.dfy` keep it as the module does: node objects and ring arrays updated in place, a queue and a
tree over the same nodes. Every method is proved against `ZoneModel.dfy`, where a zone is the sequence
of its entries in LRU order and `record`, `is_blocked` and `peek` are functions. The mutex makes any
multi-worker execution a sequence of these three calls, so a run is a sequence of `Op`s, and the
theorems quantify over all runs:

* `Durability.dfy`: a ban outlives everything the zone does before its deadline.
* `Eviction.dfy`: what one eviction scan, several of them, and a refused creation do, and exactly which
  identities lose their node; `EvictionOrder.dfy`: how far the queue stays in order of age.
* `Observation.dfy`: the observable state of an identity, its active ban or its in-window events; each
  call acts on it like an ideal limiter, and expiry, touching, pruning and creation are not observable.
* `Runs.dfy`: exactness against a limiter with complete logs for every identity that keeps its node, no
  false bans, exact dry-run prediction.

**Snapshots.** `Codec.dfy`, `SnapshotModel.dfy` and `Snapshot.dfy` write the live zone to bytes,
validate bytes and load them; `Admission.dfy` says which files are loaded, why the others are ignored and
what a record does; `Restart.dfy` proves that saving and loading is invisible to every later
call, although load drops dead records, straightens rings, clamps deadlines and filters events.

**Status lists.** `Statuses.dfy`: the comma-list parser, its verdicts, the bitmap and `status_matches`;
`StatusGrammar.dfy` says on bytes alone what is accepted, refused and listed.

**Redis.** `RedisScript.dfy` runs the record script and the block-key lookup beside the zone and proves
exactly when the two answer alike; `RedisKeys.dfy` builds the keys.

**Requests.** `Request.dfy` is the request context as a shared object, reached through the context slot
that redirects wipe and through the cleanup anchor that they do not; `RequestModel.dfy` is the same
state machine on values, with at-most-one record, origin wins and dry run proved over every sequence of
events. `RequestLaws.dfy`
says exactly what each phase answers, does and remembers. `Traffic.dfy` interleaves any number of requests over one zone that answers their calls: earned
bans are enforced on all of them, and only earned bans are.

Conventions. A `Clock` is a time from 0 up to but not including the largest 64-bit `time_t`. A `Policy`
is an accepted configuration: 1 <= threshold <= 1024, durations of at least a second up to the cap of ten
years, inactive at least interval and block. `grants` holds the slab's answers to the allocation attempts
of a call, any pattern of them. CRC32, SHA-256 and HMAC-SHA256 are arbitrary functions or values. A call
*spares* an identity if it does not force its node out while that is not stale and does not refuse its
record; what it does to others does not matter.

Where the code and its documentation differ, the model follows the code:

* The comment at `src/ngx_http_error_abuse_module.c:56-57` says durations are capped so that products by
  1000 fit on 32-bit systems too. Up to the cap they do not (`ZoneModel.MillisecondsFitIff`), so times are
  64-bit here.
* The repository's `README.md:173` says that only unblocked, aged-out identities are reclaimed when the
  zone is full. The force-evict loop also removes recent ones (`EvictionBounds.RecentNodeIsForcedOut`);
  `EvictionBounds.CreateDropsStaleIff` says exactly when it does not.
* The comment at `src/ngx_http_error_abuse_module.c:738` says that the oldest unblocked node is evicted.
  After a rotation it need not be (`EvictionOrder.YoungerGoesFirst`): a ban rotated to the head and lapsed
  unasked can be older, and nothing else can (`EvictionOrder.EvictsOldestIff`).
* The repository's `README.md:180-182` says that dry run never writes shared-memory ban state. Its
  `is_blocked` clears a lapsed ban of the client (`RequestModel.DryRunClearsLapsedBan`) and expires nodes
  with the deadlines in them (`RequestModel.DryRunExpiresStoredBan`); `Durability.AskingWritesNothingIff`
  says exactly when it writes none. What holds is that no identity looks different afterwards
  (`RequestModel.DryRunLeavesNoMark`).
* The Redis path is meant to enforce the same bans on sibling servers. It parts from the zone in two cases
  and, for identities the zone spares, in no others (`RedisScript.RunsAgreeIff`): in the second a ban ends
  the block key may still be there and bar a client the zone lets in (`RedisScript.BlockKeyLingers`), and a
  record of a client already banned is counted afresh (`RedisScript.BannedCountsAfresh`), or at threshold one bans anew, where the zone
  reports the ban it has (`RedisScript.BanIsRenewedOnServer`).

## Model

| member | source | states |
|---|---|---|
| Restart.RestartIsInvisible | src/ngx_http_error_abuse_module.c:4035-4468 | for every zone that satisfies the strong invariant: write it, load the bytes at any later moment with memory for every record, and replay any later run; each call on an identity that neither zone forces out while not stale nor refuses gets exactly the reply the unsaved zone would have given, whatever happens to other identities |
| Restart.RestartAfterRun | src/ngx_http_error_abuse_module.c:4035-4468 | in particular for the zone that any run of record, is_blocked and peek on digest keys has built up from nothing |
| Restart.ReloadLooksAlike | src/ngx_http_error_abuse_module.c:4035-4468 | right after the reload every identity shows the same ban or window as before, and the strong invariant holds |
| Restart.SnapshotRoundTrip | src/ngx_http_error_abuse_module.c:4376-4450 | load accepts what serialize wrote, drops nothing, and rebuilds the LRU queue in its old order restricted to the records with something left to show |
| Restart.SnapshotAdmitted | src/ngx_http_error_abuse_module.c:4076-4139 | every check of load (size, HMAC, magic, version, threshold, CRC, record walk) passes on what serialize wrote, and the records decoded are the entries written, tail first |
| Restart.NothingLost | src/ngx_http_error_abuse_module.c:4076-4103 | if the nodes and a file header fit the shared memory, the early break of serialize is unreachable: there is a record for every node |
| Restart.RestoredIsFaithful | src/ngx_http_error_abuse_module.c:4407-4448 | the now+block clamp never changes a self-written deadline, the event filter drops exactly the events pruning would, a skipped record had neither ban nor in-window event, and the restored node satisfies the strong invariant again |
| Restart.RestoredLooksAlike | src/ngx_http_error_abuse_module.c:4376-4450 | the rebuilt zone and the saved one show the same for every identity, tracked or not |
| Restart.LoadRebuilds | src/ngx_http_error_abuse_module.c:4407-4421 | inserting the records tail first at the head, one after another, ends with the saved order in front of what was loaded before |
| Restart.DigestsAlways | src/ngx_http_error_abuse_module.c:915-971 | a run that records digest keys only leaves digest keys only, so the snapshot format can hold every node |
| Runs.FreshZoneIsExact | src/ngx_http_error_abuse_module.c:705-1069 | over any run from an empty zone with a non-decreasing clock, and for any identity that the run neither forces out while not stale nor refuses: bounded rings, pruning, LRU, expiry and forced eviction of others answer every call on it as a reference limiter that keeps every record since the last ban and trips when record n comes less than an interval after record n-threshold+1 |
| Runs.RunRefinesLog | src/ngx_http_error_abuse_module.c:705-1069 | the same from any reached zone and any logs in which the identity looks the same |
| Runs.TripsMeansWindow | src/ngx_http_error_abuse_module.c:952-963 | the window left by pruning reaches the threshold exactly when the record threshold-1 places back is younger than the interval; the interval boundary itself is outside |
| Runs.NoFalseBans | src/ngx_http_error_abuse_module.c:705-1069 | over every run with a non-decreasing clock, including refused allocations and forced evictions: each ban that record or is_blocked reports, or that is left behind, was set and reported by one record call of that identity, with deadline now+block, and since the last record answered BUSY at least threshold-1 records of it had been answered OK inside the interval; a ban peek predicts is such a ban or would be one now |
| Runs.DryRunIsExact | src/ngx_http_error_abuse_module.c:1018-1069 | whenever record would get its node, peek on the same zone at the same moment predicts its count, its deadline and whether it blocks: for absent, banned, lapsed, partly stale and almost full nodes |
| Runs.AlikeRuns | src/ngx_http_error_abuse_module.c:915-1069 | zones in which an identity shows the same answer every later call on it alike as long as both keep its node, whatever their queues, rings, stale nodes and other identities |
| Runs.StrongAlways | src/ngx_http_error_abuse_module.c:915-1069 | every run of calls keeps: unique keys, fewer events than the threshold, sorted events no later than last_seen, an empty ring while a deadline is set |
| Observation.StepIsIdeal | src/ngx_http_error_abuse_module.c:915-1069 | each call keeps that invariant and, unless refused a node, answers exactly what the ideal limiter answers from the identity's observable state; every identity it spares looks afterwards as the ideal limiter leaves it, so only the one called for can have changed |
| Observation.CalmSparesAll | src/ngx_http_error_abuse_module.c:705-759 | a call spares every identity unless it is a record of a new identity whose first two allocations are refused |
| Observation.ExpiryIsTransparent | src/ngx_http_error_abuse_module.c:605-625 | however many nodes expire deletes, every identity shows the same ban or window at that moment and at every later one |
| Upkeep.ExpireExactly | src/ngx_http_error_abuse_module.c:605-625 | expire deletes from the tail, in order, exactly the entries with no running ban whose last_seen plus inactive is past, up to the first that is not and at most limit of them |
| Observation.LapsedStartsAfresh | src/ngx_http_error_abuse_module.c:946-950 | a ban that has ended takes the whole ring with it, whatever the node: the next record counts from one, the next is_blocked reports none |
| Observation.StaleIsInvisible | src/ngx_http_error_abuse_module.c:610-621 | because inactive >= interval, a node past its inactivity time has no active ban and no in-window event, then or later |
| Observation.ObservationAges | src/ngx_http_error_abuse_module.c:878-894 | what an untouched identity shows later follows from what it shows now: a ban until its deadline, a window minus the events at or before later-interval |
| Observation.ArriveIsInvisible | src/ngx_http_error_abuse_module.c:899-913 | expiring two nodes and moving the found one to the head changes nobody's ban or window |
| Observation.CreateIsInvisible | src/ngx_http_error_abuse_module.c:705-759 | creating a node changes nobody's ban or window unless both the first allocation and the one after expire were refused |
| Observation.CountIsPrune | src/ngx_http_error_abuse_module.c:1052-1061 | on a sorted ring the count peek takes over all slots is the number pruning would leave |
| Durability.BanSurvivesRun | src/ngx_http_error_abuse_module.c:605-1069 | once an identity is banned until D, after any calls on any identities, with expiry, refused allocations and forced evictions, in any clock order below D, the node is there with deadline exactly D and each record, is_blocked and peek on it reports the ban with the threshold as its count |
| Durability.StepKeepsBan | src/ngx_http_error_abuse_module.c:605-1069 | the same for one call |
| Durability.AskingWritesIff | src/ngx_http_error_abuse_module.c:973-1012 | after is_blocked the deadline stored for an identity (0 if it is not tracked) is what it was if and only if there was none, or its node outlives the expiry of two and is not that of the identity asked about with a lapsed ban |
| Durability.AskingWritesNothingIff | src/ngx_http_error_abuse_module.c:973-1012 | so is_blocked changes no stored deadline at all if and only if the identity asked about keeps its node with no lapsed deadline in it, or has none, and no node expired has one |
| EvictionBounds.EvictIsBoundedRotation | src/ngx_http_error_abuse_module.c:631-660 | one call looks at no more than LIMIT nodes; it removes the unblocked node nearest the tail and puts the bans behind it at the head in their old order, or removes nothing and rotates the queue by the number it looked at; a full pass over bans restores the order |
| EvictionBounds.RepeatedEvictionReaches | src/ngx_http_error_abuse_module.c:627-660 | with the first unblocked node behind d bans, the calls numbered below d/LIMIT (from 0) free nothing and call d/LIMIT frees exactly that node |
| EvictionBounds.CreateInStages | src/ngx_http_error_abuse_module.c:719-747 | creation takes the first granted attempt: on the zone as it is, then with up to 64 stale nodes expired, then in the force-evict loop on what that left; a key longer than 32 bytes changes nothing |
| EvictionBounds.SqueezeIsNthEvict | src/ngx_http_error_abuse_module.c:739-744 | the force-evict loop is n fruitful evictions whose memory did not do, and one that either did or found nothing to free |
| EvictionBounds.CreateRefused | src/ngx_http_error_abuse_module.c:705-759 | when a digest key is refused a node, the whole segment last scanned was active bans, no active ban was lost, and the new key left no trace |
| EvictionBounds.SqueezeGivesUp | src/ngx_http_error_abuse_module.c:739-749 | the force-evict loop ends, and gives up only in front of a segment of active bans |
| EvictionBounds.CreateDropsStaleIff | src/ngx_http_error_abuse_module.c:705-759 | creating a node for a digest key drops only stale nodes if and only if the first allocation or the one after expire is granted, or each victim the force-evict loop picks until its grant or its end is stale |
| EvictionBounds.SqueezeDropsStaleIff | src/ngx_http_error_abuse_module.c:736-744 | the same for the force-evict loop alone |
| EvictionBounds.AllSparedIff | src/ngx_http_error_abuse_module.c:705-759 | a record of a new identity spares everybody if and only if it gets its node and that condition holds |
| EvictionBounds.OtherIsSparedIff | src/ngx_http_error_abuse_module.c:705-759 | read off the zone and the grants before the call: such a record spares one other identity if and only if that has no node or a stale one, or one of the first two allocations is granted, or the force-evict loop does not pick its node |
| EvictionBounds.OwnIsSparedIff | src/ngx_http_error_abuse_module.c:705-759 | and it spares its own if and only if it gets its node |
| EvictionBounds.RecentNodeIsForcedOut | src/ngx_http_error_abuse_module.c:736-744 | an input outside that condition: a node that is not stale is forced out for a newcomer |
| EvictionOrder.EvictsOldestIff | src/ngx_http_error_abuse_module.c:627-660 | after any run with a non-decreasing clock: with no more than LIMIT-1 bans behind it, the unblocked node nearest the tail is removed, and it is the oldest unblocked one if and only if no node with a lapsed, uncleared deadline was seen before it; with LIMIT bans or nothing but bans at the tail, nothing is removed |
| EvictionOrder.AlwaysInOrder | src/ngx_http_error_abuse_module.c:605-971 | over every such run, rotations included, nobody behind a node without a stored deadline was seen after it |
| EvictionOrder.OlderIsLapsed | src/ngx_http_error_abuse_module.c:627-660 | hence only a node whose ban has lapsed unasked can be unblocked and older than the evicted one |
| EvictionOrder.YoungerGoesFirst | src/ngx_http_error_abuse_module.c:631-660 | such an input: a ban rotated to the head lapses there, and a younger node goes first |
| Index.RingAppend | src/ngx_http_error_abuse_module.c:952-956 | writing slot (head+count) mod threshold of a ring that is not full appends to the events and overwrites no live one |
| Index.RingAt | src/ngx_http_error_abuse_module.c:527-532 | event i of a ring is the slot (head+i) mod threshold |
| Index.RingFromZero | src/ngx_http_error_abuse_module.c:4436-4447 | a ring filled from slot 0 reads back in writing order |
| Index.Find | src/ngx_http_error_abuse_module.c:553-586 | in a tree ordered by (hash, digest) the walk returns the node of that identity, or null if and only if there is none |
| Index.RbtreeInsert | src/ngx_http_error_abuse_module.c:1589-1622 | the insert callback hangs the node where the ordered insertion puts it |
| Index.InsertKeepsOrder | src/ngx_http_error_abuse_module.c:1589-1622 | inserting a new identity keeps the strict (hash, digest) order and adds exactly that node |
| Index.DeleteKeepsOrder | src/ngx_http_error_abuse_module.c:596-603 | removing a node keeps the strict order and removes exactly that node |
| Index.CompareTotal | src/ngx_http_error_abuse_module.c:577-582 | the digest comparison is zero only on equal keys and antisymmetric |
| Index.CompareTransitive | src/ngx_http_error_abuse_module.c:1603-1607 | the digest comparison is transitive, so (hash, digest) is a total order |
| Index.CompareIsLexicographic | src/ngx_http_error_abuse_module.c:577-582 | the first differing byte decides, and a proper prefix comes first |
| Index.Node.constructor | src/ngx_http_error_abuse_module.c:749-753 | a new node has no ban, an empty ring and was seen now |
| Zones.Zone.constructor | src/ngx_http_error_abuse_module.c:1624-1698 | a new zone is valid and tracks nobody |
| Zones.Zone.Lookup | src/ngx_http_error_abuse_module.c:553-586 | the tree finds exactly the node a scan of the LRU queue would find for the key, or null if and only if the queue has none |
| Zones.Zone.Touch | src/ngx_http_error_abuse_module.c:588-594 | the node moves to the head, the others keep their order, no node changes |
| Zones.Zone.DeleteNode | src/ngx_http_error_abuse_module.c:596-603 | the node leaves index and queue together; the others keep their order |
| Zones.Zone.ExpireTail | src/ngx_http_error_abuse_module.c:605-625 | at most limit stale unbanned nodes leave from the tail, stopping at the first that is not |
| Zones.Zone.EvictOneUnblocked | src/ngx_http_error_abuse_module.c:631-660 | the heap scan with its stop node and limit does what EvictIsBoundedRotation describes, and frees a node exactly when it says so |
| Zones.Zone.CreateNode | src/ngx_http_error_abuse_module.c:705-759 | on valid zones the node comes from the first, second or a later granted attempt, stands at the head zeroed and stamped, and index and queue agree again |
| Zones.Zone.ForceRoom | src/ngx_http_error_abuse_module.c:739-744 | the loop ends, each turn having freed a node, with a granted allocation or a fruitless scan |
| Zones.Zone.Enter | src/ngx_http_error_abuse_module.c:751-756 | a fresh node enters index and queue head together |
| Zones.Zone.PruneEvents | src/ngx_http_error_abuse_module.c:878-894 | the ring loses, from its head, exactly the events at or before now-interval up to the first younger one |
| Zones.Zone.FindTouchLocked | src/ngx_http_error_abuse_module.c:899-913 | two stale nodes at most are expired; a hit stands at the head seen now, a miss changes nothing else |
| Zones.Zone.Record | src/ngx_http_error_abuse_module.c:915-971 | the call on nodes, rings, queue and tree has the effect and reply that the run theorems are about, for every pattern of refused allocations, and keeps the zone valid |
| Zones.Zone.RecordHeadNode | src/ngx_http_error_abuse_module.c:938-970 | an active ban is reported untouched; otherwise the event is counted and the threshold bans, clearing the ring |
| Zones.Zone.Push | src/ngx_http_error_abuse_module.c:953-956 | the live events grow by the new one at the end |
| Zones.Zone.IsBlocked | src/ngx_http_error_abuse_module.c:973-1012 | as Record, for the lookup that creates nothing |
| Zones.Zone.Peek | src/ngx_http_error_abuse_module.c:1018-1069 | the prediction the dry-run theorem is about, with the zone unchanged |
| Zones.Zone.CountInWindow | src/ngx_http_error_abuse_module.c:1052-1059 | the loop counts the live events after the cutoff, wherever the ring starts |
| Codec.ReadBack | src/ngx_http_error_abuse_scan.c:21-78 | decoding the n little-endian bytes of a number below 256^n gives the number |
| Codec.WriteBack | src/ngx_http_error_abuse_scan.c:21-78 | encoding the number that n bytes stand for gives the bytes back |
| Codec.TimeReadsBack | src/ngx_http_error_abuse_module.c:4390-4391 | a time written as an unsigned 64-bit field and read through int64_t is the time, negative ones included |
| Codec.PutU16 | src/ngx_http_error_abuse_scan.c:21-27 | two little-endian bytes at the cursor and nothing else |
| Codec.PutU32 | src/ngx_http_error_abuse_scan.c:30-38 | four little-endian bytes at the cursor and nothing else |
| Codec.PutU64 | src/ngx_http_error_abuse_scan.c:41-50 | eight little-endian bytes at the cursor and nothing else |
| Codec.GetU64 | src/ngx_http_error_abuse_scan.c:68-78 | the accumulator loop decodes the eight bytes |
| Codec.GetU16IsLE | src/ngx_http_error_abuse_scan.c:53-57 | the shifted or of two bytes is their little-endian value |
| Codec.GetU32IsLE | src/ngx_http_error_abuse_scan.c:60-65 | the shifted or of four bytes is their little-endian value |
| ZoneModel.MillisecondsFitIff | src/ngx_http_error_abuse_module.c:56-58 | a duration in milliseconds fits a signed 32-bit time if and only if it is at most 2147483 seconds, which the cap exceeds |
| Times.SaturatesExactly | src/ngx_http_error_abuse_time.h:36-53 | for a clock below the ceiling the sum is exact or the ceiling, whichever is less, and never below now |
| Times.DeadlineAhead | src/ngx_http_error_abuse_time.h:56-61 | below the largest time, a positive duration always gives a deadline in the future |
| Admission.AdmittedIff | src/ngx_http_error_abuse_module.c:4278-4374 | a file is loaded as given records if and only if it is, byte for byte, magic, version 2, the threshold, their number, the CRC of their encoding and that encoding, each field little-endian, within the shared memory size, followed by the HMAC of all that under the configured secret if there is one |
| Admission.LoadIff | src/ngx_http_error_abuse_module.c:4278-4374 | and any other file leaves the zone as it was |
| Admission.FaultIs | src/ngx_http_error_abuse_module.c:4282-4374 | the first failing check names the fault: size, tag, magic or version or threshold, checksum, records |
| Admission.LoadsFirst | src/ngx_http_error_abuse_module.c:4382-4450 | one record at a time: skipped if it has neither a running ban nor an event, else its identity's node is overwritten in place, else one is created as for record, else loading ends and it and all that follow count as dropped |
| Admission.LoadsNothing | src/ngx_http_error_abuse_module.c:4382-4382 | with no record left, loading ends and nothing changes |
| Admission.RestoredIsBounded | src/ngx_http_error_abuse_module.c:4426-4436 | whatever a record says, its ban is over or ends at now+block at the latest, unchanged if it ends by then anyway, and last_seen is not in the future |
| Admission.WindowKeeps | src/ngx_http_error_abuse_module.c:4440-4448 | whatever a record says, the events kept are those after now-interval and not after now, in their order |
| Admission.WrittenExactly | src/ngx_http_error_abuse_module.c:4076-4103 | serialize writes from the tail up to the first entry that no longer fits and stops there |
| SnapshotModel.EncodeLayout | src/ngx_http_error_abuse_module.c:4090-4101 | the fields of a record stand at their documented offsets |
| SnapshotModel.DecodeEncodeAll | src/ngx_http_error_abuse_scan.c:141-176 | the walk over the encoding of well-formed entries yields those entries |
| SnapshotModel.EncodeDecodeAll | src/ngx_http_error_abuse_scan.c:141-176 | whatever bytes the walk accepts are the encoding of what it yields |
| SnapshotModel.AcceptedIffRecords | src/ngx_http_error_abuse_scan.c:141-176 | accepted if and only if the bytes are exactly the announced number of records, 32-byte keys, at most threshold events each, nothing left over |
| Snapshots.ValidateSnapshot | src/ngx_http_error_abuse_scan.c:141-176 | the cursor loop never reads outside the buffer and returns OK exactly on those bytes |
| Snapshots.PutEvents | src/ngx_http_error_abuse_module.c:4097-4101 | the events are written oldest first wherever the ring starts |
| Snapshots.PutRecord | src/ngx_http_error_abuse_module.c:4090-4101 | the bytes at the cursor are the encoding of the node |
| Snapshots.PutRecords | src/ngx_http_error_abuse_module.c:4076-4103 | the bytes behind the header are the encodings of the nodes that fit, tail first, and the count is theirs |
| Snapshots.PutHeader | src/ngx_http_error_abuse_module.c:4111-4118 | 24 bytes of header in the documented layout, the records untouched |
| Snapshots.Serialize | src/ngx_http_error_abuse_module.c:4035-4140 | the returned file is the snapshot the round trip is about, for every valid zone and shared-memory size |
| Snapshots.RestoreNode | src/ngx_http_error_abuse_module.c:4426-4448 | the node found or created takes the record's clamped deadline, its time if plausible, and the in-window events from slot 0, never more than threshold |
| Snapshots.LoadRecord | src/ngx_http_error_abuse_module.c:4411-4448 | the record's node is found or created and restored, the other nodes untouched; a refused node is reported |
| Snapshots.LoadRecords | src/ngx_http_error_abuse_module.c:4382-4450 | over an accepted payload the walk stays inside it, takes no truncation exit, and loads and drops exactly what the model says: only a refused node drops records, and if none is dropped the walk ends on the last byte |
| Snapshots.LoadFile | src/ngx_http_error_abuse_module.c:4244-4450 | the first failed check decides why the file is ignored; otherwise its records are loaded |
| StatusGrammar.AcceptedTexts | src/ngx_http_error_abuse_scan.c:81-138 | on bytes alone: a text is accepted if and only if it is empty or consists of elements with commas between, each a run of digits, or two with one dash between, whose base-10 values, as sums of digits times powers of ten, satisfy 100 <= first <= last <= 599 |
| StatusGrammar.TextMeans | src/ngx_http_error_abuse_scan.c:81-138 | for every text, told from its comma-separated elements: the first bad one names the error (range, empty element, trailing comma), and the codes listed are those in the ranges before it |
| StatusGrammar.SplitJoins | src/ngx_http_error_abuse_scan.c:91-95 | every text is that of its elements joined by commas |
| StatusGrammar.DecimalIs | src/ngx_http_error_abuse_scan.c:104-110 | a text reads as the sum of its digits times powers of ten, and as an error if some byte is no digit or the value exceeds the integer type |
| Statuses.ParseStatuses | src/ngx_http_error_abuse_scan.c:81-138 | on any bitmap and text: the verdict is that of the text, and afterwards a bit is set iff it was set before or lies in a listed range before the first bad element |
| Statuses.AcceptedIff | src/ngx_http_error_abuse_scan.c:81-138 | OK if and only if the text is empty or every comma-separated element is a code or an ascending range within 100..599 |
| Statuses.AfterElement | src/ngx_http_error_abuse_scan.c:91-137 | behind a good element the verdict and the listed codes are those of the rest of the text; a comma at the very end is an error of its own that keeps the codes before it |
| Statuses.BadElement | src/ngx_http_error_abuse_scan.c:92-116 | at a malformed element the verdict is decided, empty element or range, and nothing from there on is listed |
| Statuses.PrintedListParses | src/ngx_http_error_abuse_scan.c:81-138 | printing any list of codes and ranges within 100..599 gives a text that is accepted and lists exactly those codes |
| Statuses.PrintedListMatches | src/ngx_http_error_abuse_module.c:542-551 | parsed into a blank bitmap, it makes status_matches accept exactly the printed codes, for every status number |
| Statuses.MarkSpan | src/ngx_http_error_abuse_scan.c:127-131 | exactly the codes of the range are added |
| Statuses.SetOneBit | src/ngx_http_error_abuse_scan.c:127-131 | setting the bit of one status changes no other status |
| RedisScript.FreshRunsAgreeIff | src/ngx_http_error_abuse_module.c:399-410 | from an empty zone and an empty server, for any identity the run spares, whatever happens to others and whenever the server drops keys whose time has run out: script and zone give equal counts, ban at the same call with the same deadline (capped at the largest time) and the block key shows a deadline exactly while the zone has that ban, if and only if at each call they are in step: no record of the banned (unless the threshold is one and the deadline would be the same) and no lookup in the second of the deadline while the block key lingers |
| RedisScript.RunsAgreeIff | src/ngx_http_error_abuse_module.c:399-410 | the same from any zone and server that match |
| RedisScript.StepAgreesIff | src/ngx_http_error_abuse_module.c:3122-3195 | one call on matching states is answered alike if and only if it is in step, and then the states match again |
| RedisScript.RecordAgreesIff | src/ngx_http_error_abuse_module.c:399-410 | a record is answered alike if and only if the identity is not banned, or the threshold is one and its ban would be set anew to the same deadline |
| RedisScript.CheckAgreesIff | src/ngx_http_error_abuse_module.c:3007-3025 | the GET and the clamp of its callback give the zone's answer if and only if it is not the second of the deadline with the key still there |
| RedisScript.PromptRunsAgreeIff | src/ngx_http_error_abuse_module.c:399-410 | above threshold one, with a server that drops run-out keys at once: agreement on every call if and only if the identity is never recorded while banned |
| RedisScript.BlockKeyLingers | src/ngx_http_error_abuse_module.c:3008-3025 | an input that is out of step: in the second a ban ends the zone lets the client in and the block key still bars it |
| RedisScript.BannedCountsAfresh | src/ngx_http_error_abuse_module.c:399-410 | the other kind, above threshold one: whenever a banned identity is recorded, the script counts one and sets no ban where the zone reports the ban |
| RedisScript.BanIsRenewedOnServer | src/ngx_http_error_abuse_module.c:399-410 | the same kind at threshold one, as a run: of two records a second apart the zone reports the ban it has for both, the script sets it anew and a second later |
| RedisScript.AddedKeepsWindow | src/ngx_http_error_abuse_module.c:402-405 | trimming at or before now-interval, and a run-out time to live, lose no in-window event, and a fresh nonce adds exactly one |
| RedisScript.Bounded | src/ngx_http_error_abuse_module.c:3013-3026 | a block key never yields a deadline beyond now+block, and a plausible one unchanged |
| RedisKeys.KeyWrite | src/ngx_http_error_abuse_scan.c:188-209 | exactly redis_key_len bytes at the cursor are written, with the key |
| RedisKeys.RedisKeysOf | src/ngx_http_error_abuse_module.c:2838-2882 | both buffers are filled to the last byte with the events key and the block key |
| RedisKeys.KeysNeverClash | src/ngx_http_error_abuse_scan.c:179-209 | under one prefix, keys of different (zone, digest) pairs differ and no events key is a block key |
| RedisKeys.OneSlotPerIdentity | src/ngx_http_error_abuse_module.c:2150-2160 | prefix and zone name without braces: both keys of an identity have the same Redis Cluster hash tag, made of its zone and digest |
| RedisKeys.HexReadsBack | src/ngx_http_error_abuse_scan.c:201-204 | each two characters are the lower-case base-16 number of their byte |
| RedisKeys.KeysAreSpelled | src/ngx_http_error_abuse_scan.c:188-209 | prefix{zone:hex}:events and prefix{zone:hex}:block |
| RedisKeys.HexInjective | src/ngx_http_error_abuse_scan.c:201-204 | different digests have different hex text |
| RequestModel.OneRecordAndOriginWins | src/ngx_http_error_abuse_module.c:1189-1587 | over every sequence of redirects, phase runs and Redis answers, with any allocation failing: at most one record, none after a rejection, a record sent to Redis only right after a local one, and every call on a zone is for the client and zone of the location that first anchored a context, as read off the events |
| RequestModel.DryRunLeavesNoMark | src/ngx_http_error_abuse_module.c:1340-1393 | if that location had dry_run on, the request neither records, nor sends a record to Redis, nor rejects, whatever it is redirected to, and none of its zone calls changes the ban or window of any identity |
| RequestModel.DryRunClearsLapsedBan | src/ngx_http_error_abuse_module.c:1266-1274 | yet it writes: an input on which a dry-run preaccess clears a lapsed stored deadline |
| RequestModel.DryRunExpiresStoredBan | src/ngx_http_error_abuse_module.c:1266-1274 | and one on which it expires a node, of any identity, with the deadline stored in it |
| RequestModel.ResponseIsRecorded | src/ngx_http_error_abuse_module.c:1323-1437 | a response is recorded if and only if it is the first main response since the origin had a client, the origin enforces, no rejection came before, and the origin zone tracks its status |
| RequestModel.BannedIsRejected | src/ngx_http_error_abuse_module.c:1240-1290 | told that the client is banned, preaccess rejects with the current location's status for an enforcing origin and passes for a dry-run one, however often the request was redirected; unless it is parked for Redis |
| RequestLaws.PreaccessExactly | src/ngx_http_error_abuse_module.c:1189-1295 | in every reachable state, all that preaccess answers, does and remembers: parked if and only if the client's lookup is outstanding or just queued; otherwise the zone is asked unless Redis has reported a ban, and the client is rejected, with the location's status, if and only if the origin enforces and either of them says it is banned; otherwise it passes. Without a client nothing is done, and the answer is 500 if and only if the location wants a client and preparing one fails |
| RequestLaws.FilterExactly | src/ngx_http_error_abuse_module.c:1297-1439 | in every reachable state, all that the header filter answers, does and remembers: the first tracked response of an enforcing origin not yet rejected is recorded, then sent to Redis if and only if the zone uses it, then rejected if and only if the zone had no room and refuses when full; the first tracked response of a dry-run origin is predicted unless preaccess has found a ban; nothing else has an effect, and only a rejection whose headers do not fit aborts |
| RequestLaws.StateTellsBan | src/ngx_http_error_abuse_module.c:1240-1288 | for a dry-run origin before its first response, the state shown tells whether some preaccess has found the client banned |
| RequestLaws.RunMoves | src/ngx_http_error_abuse_module.c:1470-1472 | a request is in the location its last redirect led to |
| Traffic.BanIsEnforced | src/ngx_http_error_abuse_module.c:1189-1439 | for any requests interleaved over one zone that answers their calls in clock order: once a record made by any of them for a client was told of a ban, every main preaccess of every request of that client with an enforcing origin rejects it until the deadline, unless parked for Redis |
| Traffic.RejectionIsEarned | src/ngx_http_error_abuse_module.c:1266-1290 | in the same traffic, whenever preaccess asks the zone and rejects, the deadline it was told was set by one record some request made for that client, with at least threshold counted records inside the interval |
| Traffic.SomeAnswerIsTruthful | src/ngx_http_error_abuse_module.c:1189-1439 | what a request asks of the zone does not depend on what it will be told, so for every event in clock order the zone has a reply |
| RequestModel.ParkedUntilAnswered | src/ngx_http_error_abuse_module.c:2917-3047 | in every reachable state with an outstanding lookup, preaccess parks the request again and does nothing, until the answer comes: a deadline then bans an enforcing origin's client without asking the zone, until that deadline if it is positive and no later than a ban set now would end, and until that end otherwise; anything else leaves it to the zone |
| RequestModel.DestinationsDoNotMatter | src/ngx_http_error_abuse_module.c:1501-1533 | once a context is anchored, two sequences of events that differ only in where redirects lead have the same effects and end with the same context |
| RequestModel.RunFollows | src/ngx_http_error_abuse_module.c:1189-1587 | the invariant behind these: context, slot and anchor always agree with the origin read off the events |
| RequestModel.PrepareFollows | src/ngx_http_error_abuse_module.c:1508-1587 | prepare_ctx yields a context with a zone exactly when the events so far have given the request a client |
| Requests.Request.PrepareCtx | src/ngx_http_error_abuse_module.c:1508-1587 | slot first, then anchor, then a new context, with each allocation failure leaving slot and anchor as the model says |
| Requests.Request.FindAnchorCtx | src/ngx_http_error_abuse_module.c:1473-1493 | the walk over the cleanup list returns the first context anchored there, past other modules' records |
| Requests.Request.AddCleanup | src/ngx_http_error_abuse_module.c:1473-1493 | a cleanup record of another module does not affect the request |
| Requests.Request.Redirect | src/ngx_http_error_abuse_module.c:1470-1472 | the slot is wiped; an anchored context survives it, an unanchored one does not |
| Requests.Request.Preaccess | src/ngx_http_error_abuse_module.c:1189-1295 | on the shared context object the phase makes the model's move and returns its verdict |
| Requests.Request.HeaderFilter | src/ngx_http_error_abuse_module.c:1297-1439 | likewise, with the zone-full rejection that lets the filter run once more |
| Requests.Request.RedisCheckCallback | src/ngx_http_error_abuse_module.c:2978-3027 | the parked context takes the answer; a wiped slot ignores it |

## Left out

- Restart.RestartIsInvisible: asks for a node granted for each record at load and for fewer than 2^32 nodes (the record count is a 32-bit field that wraps beyond). For an identity that either zone forces out while not stale, or refuses, it says nothing, because the node and its window are gone there.
- Runs.FreshZoneIsExact: says nothing of an identity that is itself forced out while not stale, or refused, because a node forced out takes its window with it; what survives then is Runs.NoFalseBans.
- Runs.DryRunIsExact: nothing is said when record is refused a node, since it then answers nothing.
- Zones.Zone.Touch: the LRU links are one sequence of nodes, so relinking and aliasing inside `ngx_queue_t` are not modelled.
- Index.RbtreeInsert: the tree is a value over the shared nodes; parent links, colours and rebalancing belong to nginx and are not modelled.
- Index.DeleteKeepsOrder: stands for `ngx_rbtree_delete`, of which only the order-preserving effect is modelled.
- Snapshots.LoadFile: starts at the file's bytes; opening, reading, the failure of the HMAC computation itself and deleting a corrupted file are not modelled, nor is the log text.
- Snapshots.Serialize: starts at an allocated buffer of the shared-memory size; the grow-only reuse of the buffer and a failing HMAC computation are not modelled.
- RedisScript.FreshRunsAgreeIff: both sides get the same clock in whole seconds, nonces are unique, and Lua's numbers are integers; clock skew between hosts, parts of a second, lost commands and the script cache are not modelled.
- RedisKeys.KeysNeverClash: for digests of one length, which SHA-256 has.
- Requests.Request.PrepareCtx: the printable copy of the key exists only as an allocation that may fail; SHA-256 is an arbitrary value that comes with the key.
- Requests.Request.HeaderFilter: the zone's and the slab's answers are inputs, any answers; Traffic.BanIsEnforced and Traffic.RejectionIsEarned tie them to one zone. Header emission, Retry-After, logging and the module's variables are not modelled.
- Requests.Request.Redirect: every change of location after a context exists wipes the slot, as both redirect paths of nginx do.
- After loading a foreign snapshot only the zone's validity is kept (rings within the threshold, unique keys, index and queue in agreement), which is enough for Durability.BanSurvivesRun; the other theorems need a state the module reached itself or reloaded from its own snapshot.
- Shared-memory set-up on reload, slab internals and their capacity, except as patterns of refused allocations.
- Directive parsing other than the status list: its accepted results are the bounds of a `Policy`.
- The connection to Redis: hiredis, TLS, authentication, reconnect timers and the circuit breaker; whether a lookup could be queued is an input.
- Writing, syncing and renaming the snapshot file, the thread-pool task and the Windows layer.

/** A restart through the module's own snapshot: nothing is lost, the LRU order survives, and no
    client can tell the reloaded zone from the one that was saved. */
module Restart {
  import opened Times
  import opened ZoneModel
  import opened Upkeep
  import opened Observation
  import opened Runs
  import Durability
  import opened Codec
  import opened SnapshotModel

  // ---------------------------------------------------------------- nothing is lost on the way out

  function Reversed<T>(s: seq<T>): (r: seq<T>)
    ensures |r| == |s|
  {
    if s == [] then [] else [s[|s| - 1]] + Reversed(s[..|s| - 1])
  }

  lemma {:induction false} ReversedHas<T>(s: seq<T>)
    ensures forall x :: x in Reversed(s) <==> x in s
  {
    if s != [] {
      ReversedHas(s[..|s| - 1]);
      assert s == s[..|s| - 1] + [s[|s| - 1]];
    }
  }

  function TotalRecLen(z: Entries): nat
  {
    if z == [] then 0
    else TotalRecLen(z[..|z| - 1]) + RecLen(|z[|z| - 1].key|, |z[|z| - 1].events|)
  }

  /** offsetof(node, data) on a 64-bit build plus key, alignment slack and ring. */
  function NodeSize(keyLen: nat, threshold: nat): nat
  {
    90 + keyLen + 7 + threshold * 8
  }

  function TotalNodeSize(z: Entries, threshold: nat): nat
  {
    if z == [] then 0
    else TotalNodeSize(z[..|z| - 1], threshold) + NodeSize(|z[|z| - 1].key|, threshold)
  }

  /** With room for all records the early break of serialize() is never taken. */
  lemma {:induction false} RoomForAll(z: Entries, room: int)
    requires TotalRecLen(z) <= room
    ensures TailFirst(z, room) == Reversed(z)
  {
    hide RecLen;
    if z != [] {
      var e := z[|z| - 1];
      RoomForAll(z[..|z| - 1], room - RecLen(|e.key|, |e.events|));
    }
  }

  lemma {:induction false} RecordsSmallerThanNodes(z: Entries, threshold: nat)
    requires forall e :: e in z ==> |e.events| <= threshold
    ensures TotalRecLen(z) <= TotalNodeSize(z, threshold)
  {
    if z != [] {
      var front, e := z[..|z| - 1], z[|z| - 1];
      assert e in z && forall x :: x in front ==> x in z;
      RecordsSmallerThanNodes(front, threshold);
    }
  }

  /** The nodes and at least a file header's worth of zone bookkeeping share the shared memory the
      buffer is sized by, so the snapshot has a record for every node. */
  lemma NothingLost(st: Store, p: Policy, z: Entries)
    requires forall e :: e in z ==> |e.events| <= p.threshold
    requires FILE_HDR_LEN + TotalNodeSize(z, p.threshold) <= st.size
    ensures TailFirst(z, st.size - FILE_HDR_LEN) == Reversed(z)
  {
    hide *;
    RecordsSmallerThanNodes(z, p.threshold);
    RoomForAll(z, st.size - FILE_HDR_LEN);
  }

  lemma {:induction false} TailFirstFits(z: Entries, room: nat)
    ensures |EncodeAll(TailFirst(z, room))| <= room
  {
    if z != [] {
      var e := z[|z| - 1];
      if room >= RecLen(|e.key|, |e.events|) {
        var rest := TailFirst(z[..|z| - 1], room - RecLen(|e.key|, |e.events|));
        TailFirstFits(z[..|z| - 1], room - RecLen(|e.key|, |e.events|));
        assert TailFirst(z, room)[1..] == rest;
      }
    }
  }

  lemma {:induction false} TailFirstTakes(z: Entries, room: int)
    ensures forall e :: e in TailFirst(z, room) ==> e in z
    ensures |TailFirst(z, room)| <= |z|
  {
    if z != [] {
      var e := z[|z| - 1];
      TailFirstTakes(z[..|z| - 1], room - RecLen(|e.key|, |e.events|));
    }
  }

  // ---------------------------------------------------------------- a snapshot is admitted

  /** The pieces of the file. */
  lemma SnapshotLayout(st: Store, p: Policy, z: Entries)
    requires FILE_HDR_LEN <= st.size
    ensures var es, file := TailFirst(z, st.size - FILE_HDR_LEN), Snapshot(st, p, z);
            var end := FILE_HDR_LEN + |EncodeAll(es)|;
            && end <= st.size && |file| == end + st.MacLen()
            && file[..end] == SnapshotBody(st, p, z)
            && file[FILE_HDR_LEN..end] == EncodeAll(es)
            && file == Header(p, |es|, st.crc(EncodeAll(es))) + file[FILE_HDR_LEN..]
            && (st.secret ==> file[end..] == st.hmac(file[..end]))
  {
    hide EncodeAll, TailFirst, Header;
    TailFirstFits(z, st.size - FILE_HDR_LEN);
    var body := SnapshotBody(st, p, z);
    var tag := if st.secret then st.hmac(body) else [];
    assert (body + tag)[..|body|] == body && (body + tag)[|body|..] == tag;
  }

  /** The file written for a zone of digest keys passes every check of load() under the same
      configuration, and yields the written entries. */
  lemma {:induction false} SnapshotAdmitted(st: Store, p: Policy, z: Entries)
    requires FILE_HDR_LEN <= st.size && |z| < 0x1_0000_0000
    requires forall e :: e in z ==> WellFormed(e, p.threshold)
    ensures Screen(st, p, Snapshot(st, p, z)) == Admitted(TailFirst(z, st.size - FILE_HDR_LEN))
  {
    hide EncodeAll, TailFirst, Snapshot, SnapshotBody, Header, WellFormed, DecodeAll;
    var es, file := TailFirst(z, st.size - FILE_HDR_LEN), Snapshot(st, p, z);
    TailFirstTakes(z, st.size - FILE_HDR_LEN);
    assert IsPayload(EncodeAll(es), es, p.threshold);
    DecodeEncodeAll(EncodeAll(es), es, p.threshold);
    SnapshotLayout(st, p, z);
    HeaderReadsBack(p, |es|, st.crc(EncodeAll(es)), file[FILE_HDR_LEN..]);
  }

  lemma U32ReadsBack(s: seq<byte>, p: nat, v: u32)
    requires p + 4 <= |s| && s[p..p + 4] == LE(v, 4)
    ensures GetU32(s, p) == v
  {
    GetU32IsLE(s, p);
    assert v < Pow256(4) by { Widths(); }
    ReadBack(v, 4);
  }

  lemma HeaderReadsBack(p: Policy, records: u32, crc: u32, rest: seq<byte>)
    ensures var s := Header(p, records, crc) + rest;
            && s[..8] == FILE_MAGIC && GetU32(s, 8) == FILE_VERSION && GetU32(s, 12) == p.threshold
            && GetU32(s, 16) == records && GetU32(s, 20) == crc
  {
    hide LE, GetU32;
    var s := Header(p, records, crc) + rest;
    assert s[8..12] == LE(FILE_VERSION, 4);
    assert s[12..16] == LE(p.threshold, 4);
    assert s[16..20] == LE(records, 4);
    assert s[20..24] == LE(crc, 4);
    U32ReadsBack(s, 8, FILE_VERSION);
    U32ReadsBack(s, 12, p.threshold);
    U32ReadsBack(s, 16, records);
    U32ReadsBack(s, 20, crc);
  }

  // ---------------------------------------------------------------- what comes back

  /** The saved zone as load() rebuilds it at a later time: dead records left out, the rest in
      their old order. */
  function RestoredZone(p: Policy, z: Entries, now: Clock): Entries
  {
    if z == [] then []
    else (if Dead(z[0], now) then [] else [Restored(p, z[0], now)]) + RestoredZone(p, z[1..], now)
  }

  lemma {:induction false} RestoredAppend(p: Policy, z: Entries, w: Entries, now: Clock)
    ensures RestoredZone(p, z + w, now) == RestoredZone(p, z, now) + RestoredZone(p, w, now)
  {
    if z == [] {
      assert z + w == w;
    } else {
      assert (z + w)[1..] == z[1..] + w;
      RestoredAppend(p, z[1..], w, now);
    }
  }

  ghost predicate ComesFrom(p: Policy, z: Entries, r: Entry, now: Clock)
  {
    exists e :: e in z && !Dead(e, now) && r == Restored(p, e, now)
  }

  lemma {:induction false} RestoredHas(p: Policy, z: Entries, now: Clock)
    ensures forall r :: r in RestoredZone(p, z, now) <==> ComesFrom(p, z, r, now)
    ensures Unique(z) ==> Unique(RestoredZone(p, z, now))
  {
    if z != [] {
      RestoredHas(p, z[1..], now);
      var rest := RestoredZone(p, z[1..], now);
      assert z == [z[0]] + z[1..];
      forall r ensures r in RestoredZone(p, z, now) <==> ComesFrom(p, z, r, now) {
        if e :| e in z && !Dead(e, now) && r == Restored(p, e, now) {
          if e != z[0] { assert e in z[1..]; }
        }
        if r in RestoredZone(p, z, now) && r in rest {
          var e :| e in z[1..] && !Dead(e, now) && r == Restored(p, e, now);
          assert e in z;
        }
      }
      if Unique(z) {
        forall r | r in rest ensures r.key != z[0].key {
          var e :| e in z[1..] && !Dead(e, now) && r == Restored(p, e, now);
          var i :| 0 <= i < |z[1..]| && z[1..][i] == e;
          assert z[i + 1] == e;
        }
      }
    }
  }

  predicate AllGranted(grants: seq<seq<bool>>)
  {
    forall i :: 0 <= i < |grants| ==> Granted(grants[i], 0)
  }

  /** One record of a digest nobody in the zone has, with a node granted for it. */
  lemma LoadNewcomer(p: Policy, z: Entries, e: Entry, now: Clock, grants: seq<bool>)
    requires |e.key| == DIGEST_LEN && Granted(grants, 0) && forall a :: a in z ==> a.key != e.key
    ensures LoadOne(p, z, e, now, grants) == Placed([Restored(p, e, now)] + z, true)
  {
    Untracked(z, e.key);
    assert ([Newcomer(e.key, now)] + z)[1..] == z;
  }

  /** The part of a restored zone that one entry accounts for. */
  function RestoredOne(p: Policy, e: Entry, now: Clock): Entries
  {
    if Dead(e, now) then [] else [Restored(p, e, now)]
  }

  lemma RestoredSnoc(p: Policy, front: Entries, e: Entry, acc: Entries, now: Clock)
    ensures RestoredZone(p, front + [e], now) + acc
         == RestoredZone(p, front, now) + (RestoredOne(p, e, now) + acc)
    ensures |RestoredZone(p, front + [e], now)| == |RestoredZone(p, front, now)| + |RestoredOne(p, e, now)|
  {
    RestoredAppend(p, front, [e], now);
    assert [e][1..] == [];
    assert RestoredZone(p, [e], now) == RestoredOne(p, e, now) + RestoredZone(p, [], now);
  }

  lemma LoadAllStep(p: Policy, acc: Entries, e: Entry, rest: seq<Entry>, now: Clock,
                    grants: seq<seq<bool>>, loaded: nat)
    requires |e.key| == DIGEST_LEN && grants != [] && Granted(grants[0], 0)
    requires forall a :: a in acc ==> a.key != e.key
    ensures LoadAll(p, acc, [e] + rest, now, grants, loaded)
         == LoadAll(p, RestoredOne(p, e, now) + acc, rest, now, grants[1..],
                    loaded + |RestoredOne(p, e, now)|)
  {
    assert ([e] + rest)[1..] == rest;
    if Dead(e, now) { assert RestoredOne(p, e, now) + acc == acc; }
    LoadNewcomer(p, acc, e, now, grants[0]);
  }

  ghost predicate Apart(z: Entries, acc: Entries)
  {
    forall e, a :: e in z && a in acc ==> e.key != a.key
  }

  lemma LastApart(p: Policy, z: Entries, acc: Entries, now: Clock)
    requires z != [] && Unique(z) && Apart(z, acc)
    ensures var front, e := z[..|z| - 1], z[|z| - 1];
            && Unique(front) && Apart(front, RestoredOne(p, e, now) + acc)
            && forall a :: a in acc ==> a.key != e.key
  {
    var front, e := z[..|z| - 1], z[|z| - 1];
    assert e in z;
    forall x | x in front ensures x.key != e.key && x in z {
      var i :| 0 <= i < |front| && front[i] == x;
      assert z[i] == x && z[i].key != z[|z| - 1].key;
    }
    assert forall i :: 0 <= i < |front| ==> front[i] == z[i];
  }

  lemma NothingToLoad(p: Policy, acc: Entries, now: Clock, grants: seq<seq<bool>>, loaded: nat)
    ensures LoadAll(p, acc, Reversed([]), now, grants, loaded)
         == Loading(RestoredZone(p, [], now) + acc, loaded + |RestoredZone(p, [], now)|, 0)
  {
    assert RestoredZone(p, [], now) + acc == acc;
  }

  /** Loading the entries of z tail first in front of the already loaded acc. */
  lemma {:induction false} LoadRebuilds(p: Policy, z: Entries, acc: Entries, now: Clock,
                                        grants: seq<seq<bool>>, loaded: nat)
    requires Unique(z) && (forall e :: e in z ==> |e.key| == DIGEST_LEN)
    requires Apart(z, acc)
    requires AllGranted(grants) && |grants| >= |z|
    ensures LoadAll(p, acc, Reversed(z), now, grants, loaded)
         == Loading(RestoredZone(p, z, now) + acc, loaded + |RestoredZone(p, z, now)|, 0)
    decreases |z|
  {
    hide LoadAll, RestoredZone, RestoredOne, Apart;
    if z == [] {
      NothingToLoad(p, acc, now, grants, loaded);
    } else {
      var front, e := z[..|z| - 1], z[|z| - 1];
      assert e in z && forall x :: x in front ==> x in z;
      var one := RestoredOne(p, e, now);
      LastApart(p, z, acc, now);
      LoadRebuilds(p, front, one + acc, now, grants[1..], loaded + |one|);
      LoadAllStep(p, acc, e, Reversed(front), now, grants, loaded);
      RestoredSnoc(p, front, e, acc, now);
      assert front + [e] == z && [e] + Reversed(front) == Reversed(z);
    }
  }

  // ---------------------------------------------------------------- the restart is invisible

  lemma {:induction false} InWindowIsPrune(events: seq<int>, cutoff: int, now: int)
    requires Ascending(events) && forall x :: x in events ==> x <= now
    ensures InWindow(events, cutoff, now) == Prune(events, cutoff)
  {
    if events != [] {
      assert events[0] in events && forall x :: x in events[1..] ==> x in events;
      InWindowIsPrune(events[1..], cutoff, now);
      if events[0] > cutoff {
        assert events[1..] == [] || events[1..][0] > cutoff;
        assert events == [events[0]] + events[1..];
      }
    }
  }

  /** The deadline clamp leaves self-written deadlines alone, the filtered events and the skipped
      records were already unobservable, and a restored node is as the module leaves its own. */
  lemma RestoredIsFaithful(p: Policy, e: Entry, t: Clock, now: Clock)
    requires Healthy(p, e, t) && t <= now
    ensures Dead(e, now) ==> ObsOfEntry(p, e, now) == Open([])
    ensures ObsOfEntry(p, Restored(p, e, now), now) == ObsOfEntry(p, e, now)
    ensures e.blocked > now ==> Restored(p, e, now).blocked == e.blocked
    ensures Healthy(p, Restored(p, e, now), now)
  {
    var cutoff := now - p.interval;
    InWindowIsPrune(e.events, cutoff, now);
    PruneKeepsOrder(e.events, cutoff);
    PruneTwice(e.events, cutoff, cutoff);
  }

  lemma RestoredLooksAlike(p: Policy, z: Entries, t: Clock, now: Clock)
    requires Strong(p, z, t) && t <= now
    ensures Strong(p, RestoredZone(p, z, now), now)
    ensures Alike(p, z, RestoredZone(p, z, now), now)
  {
    var r := RestoredZone(p, z, now);
    RestoredHas(p, z, now);
    forall x | x in r ensures Healthy(p, x, now) {
      var e :| e in z && !Dead(e, now) && x == Restored(p, e, now);
      RestoredIsFaithful(p, e, t, now);
    }
    forall k ensures ObsOf(p, z, k, now) == ObsOf(p, r, k, now) {
      if e :| e in z && e.key == k {
        RestoredIsFaithful(p, e, t, now);
        ObsOfMember(p, z, e, now);
        if Dead(e, now) {
          forall x | x in r ensures x.key != k {
            var o :| o in z && !Dead(o, now) && x == Restored(p, o, now);
            Durability.MemberIsFound(z, e);
          }
          ObsOfStranger(p, r, k, now);
        } else {
          assert ComesFrom(p, z, Restored(p, e, now), now);
          ObsOfMember(p, r, Restored(p, e, now), now);
        }
      } else {
        ObsOfStranger(p, z, k, now);
        forall x | x in r ensures x.key != k {
          var o :| o in z && !Dead(o, now) && x == Restored(p, o, now);
        }
        ObsOfStranger(p, r, k, now);
      }
    }
  }

  predicate RecordsDigests(ops: seq<Op>)
  {
    forall i :: 0 <= i < |ops| && ops[i].DoRecord? ==> |ops[i].key| == DIGEST_LEN
  }

  ghost predicate OnlyDigests(z: Entries)
  {
    forall e :: e in z ==> |e.key| == DIGEST_LEN
  }

  /** The zone fits the shared memory it lives in and its records fit the 32-bit record count; there
      is memory for each record at load. */
  ghost predicate HasRoom(st: Store, p: Policy, z: Entries, grants: seq<seq<bool>>)
  {
    && FILE_HDR_LEN + TotalNodeSize(z, p.threshold) <= st.size
    && |z| < 0x1_0000_0000 && AllGranted(grants) && |grants| >= |z|
  }

  /** Loading its own snapshot of a healthy zone of digests, with a node granted per record, gives
      back every identity with something left to show, in the old LRU order. */
  lemma {:induction false} SnapshotRoundTrip(st: Store, p: Policy, z: Entries, t: Clock, now: Clock,
                                             grants: seq<seq<bool>>)
    requires Strong(p, z, t) && t <= now && OnlyDigests(z) && HasRoom(st, p, z, grants)
    ensures var r := RestoredZone(p, z, now);
            Load(st, p, [], Snapshot(st, p, z), now, grants) == Loading(r, |r|, 0)
  {
    hide Snapshot, Screen, LoadAll, RestoredZone, TailFirst, Reversed;
    assert forall e :: e in z ==> Healthy(p, e, t);
    NothingLost(st, p, z);
    SnapshotAdmitted(st, p, z);
    LoadRebuilds(p, z, [], now, grants, 0);
    assert RestoredZone(p, z, now) + [] == RestoredZone(p, z, now);
  }

  lemma StepKeepsDigests(p: Policy, z: Entries, t: Clock, op: Op)
    requires Strong(p, z, t) && t <= op.now && OnlyDigests(z)
    requires op.DoRecord? ==> |op.key| == DIGEST_LEN
    ensures OnlyDigests(Step(p, z, op).zone)
  {
    hide Step, Locate, ActOnEntry, Expire, Healthy;
    if !op.DoPeek? {
      var b, o := Locate(p, z, op), Step(p, z, op);
      LocateIsInvisible(p, z, t, op);
      StepActs(p, z, op);
      LocateKeepsDigests(p, z, op);
      if b.ok {
        ActIsIdeal(p, op, b.zone[0]);
        assert b.zone[0] in b.zone;
        forall e | e in o.zone ensures |e.key| == DIGEST_LEN {
          if e != o.zone[0] { assert e in b.zone; }
        }
      }
    } else {
      PeekChangesNothing(p, z, op);
    }
  }

  lemma LocateKeepsDigests(p: Policy, z: Entries, op: Op)
    requires Unique(z) && OnlyDigests(z) && !op.DoPeek?
    requires op.DoRecord? ==> |op.key| == DIGEST_LEN
    ensures OnlyDigests(Locate(p, z, op).zone)
  {
    hide Arrive, Create, Expire;
    var b := Locate(p, z, op);
    var kept := Expire(p, z, op.now, TOUCH_EXPIRE_LIMIT);
    ArriveDrops(p, z, op.key, op.now);
    if op.DoRecord? { CreateDrops(p, kept, op.key, op.now, op.grants); }
    var a := Arrive(p, z, op.key, op.now);
    forall e | e in b.zone ensures |e.key| == DIGEST_LEN {
      if b.ok && e == b.zone[0] {
        if a.ok { assert exists x :: x in kept && x.key == e.key; }
      } else if b.ok {
        assert e in b.zone[1..];
      }
    }
  }

  lemma {:induction false} DigestsAlways(p: Policy, z: Entries, t: Clock, ops: seq<Op>)
    requires Strong(p, z, t) && Monotone(ops, t) && OnlyDigests(z)
    requires RecordsDigests(ops)
    ensures OnlyDigests(After(p, z, ops))
    decreases |ops|
  {
    hide Step, Strong, OnlyDigests;
    if ops != [] {
      StepIsIdeal(p, z, t, ops[0]);
      StepKeepsDigests(p, z, t, ops[0]);
      DigestsAlways(p, Step(p, z, ops[0]).zone, ops[0].now, ops[1..]);
    }
  }

  /** Every call of the run on an identity that neither zone forces out is answered alike on both. */
  ghost predicate SameAnswers(p: Policy, z: Entries, w: Entries, ops: seq<Op>)
  {
    && |Replies(p, z, ops)| == |Replies(p, w, ops)| == |ops|
    && forall i :: 0 <= i < |ops| && SparedRun(p, z, ops, ops[i].key) && SparedRun(p, w, ops, ops[i].key)
         ==> Replies(p, w, ops)[i] == Replies(p, z, ops)[i]
  }

  /** Saving and reloading a healthy zone of digests changes nothing anyone can observe. */
  lemma {:induction false} ReloadLooksAlike(st: Store, p: Policy, z: Entries, t: Clock, now: Clock,
                                            grants: seq<seq<bool>>)
    requires Strong(p, z, t) && t <= now && OnlyDigests(z) && HasRoom(st, p, z, grants)
    ensures var w := Load(st, p, [], Snapshot(st, p, z), now, grants).zone;
            Strong(p, w, now) && Alike(p, z, w, now)
  {
    hide Load, Snapshot, RestoredZone;
    SnapshotRoundTrip(st, p, z, t, now, grants);
    RestoredLooksAlike(p, z, t, now);
  }

  /** Hence every identity that keeps its node is answered by the reloaded zone exactly as it would have
      been, had the server never stopped. */
  lemma {:induction false} RestartIsInvisible(st: Store, p: Policy, z: Entries, t: Clock, now: Clock,
                                              grants: seq<seq<bool>>, later: seq<Op>)
    requires Strong(p, z, t) && t <= now && OnlyDigests(z) && HasRoom(st, p, z, grants)
    requires Monotone(later, now)
    ensures SameAnswers(p, z, Load(st, p, [], Snapshot(st, p, z), now, grants).zone, later)
  {
    hide Load, Snapshot, Strong, ObsOf, SparedRun;
    var w := Load(st, p, [], Snapshot(st, p, z), now, grants).zone;
    ReloadLooksAlike(st, p, z, t, now, grants);
    HealthyLater(p, z, t, now);
    RepliesLength(p, z, later);
    RepliesLength(p, w, later);
    forall i | 0 <= i < |later| && SparedRun(p, z, later, later[i].key) && SparedRun(p, w, later, later[i].key)
      ensures Replies(p, w, later)[i] == Replies(p, z, later)[i]
    {
      AlikeRuns(p, z, w, now, later, later[i].key);
    }
  }

  /** In particular everything a run on digest keys built up. */
  lemma {:induction false} RestartAfterRun(st: Store, p: Policy, before: seq<Op>, now: Clock,
                                           grants: seq<seq<bool>>, later: seq<Op>)
    requires Monotone(before, 0) && EndOf(before) <= now && RecordsDigests(before)
    requires HasRoom(st, p, After(p, [], before), grants)
    requires Monotone(later, now)
    ensures var z := After(p, [], before);
            SameAnswers(p, z, Load(st, p, [], Snapshot(st, p, z), now, grants).zone, later)
  {
    hide Load, Snapshot, SameAnswers;
    StrongAlways(p, [], 0, before);
    DigestsAlways(p, [], 0, before);
    RestartIsInvisible(st, p, After(p, [], before), EndOf(before), now, grants, later);
  }
}

/** An active ban outlives anything the zone does before its deadline. */
module Durability {
  import opened Times
  import opened ZoneModel
  import opened Upkeep

  ghost predicate BannedUntil(z: Entries, key: Key, deadline: int)
  {
    exists e :: e in z && e.key == key && e.blocked == deadline
  }

  /** What each call reports for an identity banned until deadline. */
  function BanReply(p: Policy, op: Op, deadline: int): Reply
  {
    match op
    case DoRecord(_, _, _) => Answer(BUSY, p.threshold, deadline)
    case DoIsBlocked(_, _) => Answer(OK, p.threshold, deadline)
    case DoPeek(_, _) => Prediction(p.threshold, deadline, true)
  }

  lemma MemberIsFound(z: Entries, e: Entry)
    requires Unique(z) && e in z
    ensures Tracked(z, e.key) && z[Position(z, e.key)] == e
    ensures forall x :: x in z && x.key == e.key ==> x == e
  {
    var i :| 0 <= i < |z| && z[i] == e;
    PositionOf(z, i);
  }

  /** The lookup of a call keeps every active ban, its own at the head and the rest behind it. */
  lemma ArriveKeepsBan(p: Policy, z: Entries, e: Entry, key: Key, now: Clock)
    requires Unique(z) && e in z && e.blocked > now
    ensures var a := Arrive(p, z, key, now);
            && Unique(a.zone)
            && (key == e.key ==> a.ok && a.zone[0] == e.(seen := now))
            && (key != e.key ==> e in if a.ok then a.zone[1..] else a.zone)
  {
    var kept := Expire(p, z, now, TOUCH_EXPIRE_LIMIT);
    ArriveDrops(p, z, key, now);
    assert e in kept;
    MemberIsFound(kept, e);
  }

  lemma FindOrCreateKeepsBan(p: Policy, z: Entries, e: Entry, key: Key, now: Clock, grants: seq<bool>)
    requires Unique(z) && e in z && e.blocked > now
    ensures var b := FindOrCreate(p, z, key, now, grants);
            && Unique(b.zone)
            && (key == e.key ==> b.ok && b.zone[0] == e.(seen := now))
            && (key != e.key ==> e in if b.ok then b.zone[1..] else b.zone)
  {
    ArriveKeepsBan(p, z, e, key, now);
    var a := Arrive(p, z, key, now);
    if !a.ok {
      ArriveDrops(p, z, key, now);
      CreateDrops(p, a.zone, key, now, grants);
    }
  }

  lemma StepKeepsBan(p: Policy, z: Entries, op: Op, key: Key, deadline: int)
    requires Unique(z) && BannedUntil(z, key, deadline) && op.now < deadline
    ensures Unique(Step(p, z, op).zone)
    ensures BannedUntil(Step(p, z, op).zone, key, deadline)
    ensures op.key == key ==> Step(p, z, op).reply == BanReply(p, op, deadline)
  {
    var e :| e in z && e.key == key && e.blocked == deadline;
    MemberIsFound(z, e);
    match op
    case DoPeek(_, _) =>
    case DoRecord(k, now, grants) =>
      FindOrCreateKeepsBan(p, z, e, k, now, grants);
      var b := FindOrCreate(p, z, k, now, grants);
      if b.ok { HeadOnly(b.zone, RecordHead(p, b.zone, now).zone); }
      Witness(Step(p, z, op).zone, e, op);
    case DoIsBlocked(k, now) =>
      ArriveKeepsBan(p, z, e, k, now);
      var a := Arrive(p, z, k, now);
      if a.ok { HeadOnly(a.zone, IsBlockedHead(p, a.zone, now).zone); }
      Witness(Step(p, z, op).zone, e, op);
  }

  lemma HeadOnly(z: Entries, r: Entries)
    requires z != [] && Unique(z) && r != [] && r[0].key == z[0].key && r[1..] == z[1..]
    ensures Unique(r)
  {
    assert forall i :: 0 < i < |r| ==> r[i] == r[1..][i - 1] && z[i] == z[1..][i - 1];
    assert |r| == |r[1..]| + 1 && |z| == |z[1..]| + 1;
  }

  lemma Witness(z: Entries, e: Entry, op: Op)
    requires if op.key == e.key then z != [] && z[0] == e.(seen := op.now)
             else e in z || (z != [] && e in z[1..])
    ensures BannedUntil(z, e.key, e.blocked)
  {
    if op.key == e.key { assert z[0] in z; }
  }

  /** Whatever a run does on whatever identities, with expiry, refused allocations and forced
      evictions, a ban whose deadline the run does not reach is still there with that deadline, and
      every call on its identity reports it. */
  lemma {:induction false} BanSurvivesRun(p: Policy, z: Entries, ops: seq<Op>, key: Key, deadline: int)
    requires Unique(z) && BannedUntil(z, key, deadline)
    requires forall op :: op in ops ==> op.now < deadline
    ensures Unique(After(p, z, ops)) && BannedUntil(After(p, z, ops), key, deadline)
    ensures |Replies(p, z, ops)| == |ops|
    ensures forall i :: 0 <= i < |ops| && ops[i].key == key
              ==> Replies(p, z, ops)[i] == BanReply(p, ops[i], deadline)
    decreases |ops|
  {
    if ops != [] {
      var o := Step(p, z, ops[0]);
      StepKeepsBan(p, z, ops[0], key, deadline);
      BanSurvivesRun(p, o.zone, ops[1..], key, deadline);
      RepliesLength(p, z, ops);
      forall i | 0 <= i < |ops| && ops[i].key == key
        ensures Replies(p, z, ops)[i] == BanReply(p, ops[i], deadline)
      {
        ReplyAt(p, z, ops, i);
        if i > 0 { assert ops[i] == ops[1..][i - 1]; }
      }
    }
  }

  // ---------------------------------------------------------------- what asking writes

  /** The deadline stored for an identity, 0 if it is not tracked. */
  function StoredBan(z: Entries, key: Key): int
  {
    var i := Position(z, key);
    if i < |z| then z[i].blocked else 0
  }

  lemma StoredBanIs(z: Entries, e: Entry)
    requires Unique(z) && e in z
    ensures Tracked(z, e.key) && StoredBan(z, e.key) == e.blocked
  {
    MemberIsFound(z, e);
  }

  lemma NoStoredBan(z: Entries, key: Key)
    requires !Tracked(z, key)
    ensures StoredBan(z, key) == 0
  {
  }

  /** What is_blocked leaves of an entry: of its own identity's a lapsed deadline is gone. */
  lemma AskingLeaves(p: Policy, z: Entries, key: Key, now: Clock, e: Entry)
    requires Unique(z) && e in Expire(p, z, now, TOUCH_EXPIRE_LIMIT)
    ensures var r := IsBlocked(p, z, key, now).zone;
            && Unique(r) && Tracked(r, e.key)
            && StoredBan(r, e.key) == if e.key == key && e.blocked <= now then 0 else e.blocked
  {
    hide Expire, StoredBan, Prune;
    var kept, a := Expire(p, z, now, TOUCH_EXPIRE_LIMIT), Arrive(p, z, key, now);
    var r := IsBlocked(p, z, key, now).zone;
    ArriveDrops(p, z, key, now);
    MemberIsFound(kept, e);
    if a.ok {
      HeadOnly(a.zone, r);
      assert r == [r[0]] + a.zone[1..];
      if e.key == key {
        assert r[0] in r;
        StoredBanIs(r, r[0]);
      } else {
        assert e in r;
        StoredBanIs(r, e);
      }
    } else {
      assert r == kept;
      Untracked(kept, key);
      StoredBanIs(r, e);
    }
  }

  lemma AskingInvents(p: Policy, z: Entries, key: Key, now: Clock, k: Key)
    requires Unique(z) && !Tracked(Expire(p, z, now, TOUCH_EXPIRE_LIMIT), k)
    ensures !Tracked(IsBlocked(p, z, key, now).zone, k)
  {
    hide Expire, Prune, Tracked;
    var kept, a := Expire(p, z, now, TOUCH_EXPIRE_LIMIT), Arrive(p, z, key, now);
    var r := IsBlocked(p, z, key, now).zone;
    ArriveDrops(p, z, key, now);
    Untracked(kept, k);
    Untracked(r, k);
    if a.ok { assert r == [r[0]] + a.zone[1..]; }
  }

  /** is_blocked writes: the deadline stored for an identity stays what it was exactly when its node
      outlives the expiry of two and is not that of the identity asked about with a lapsed ban, or has
      no deadline to lose. */
  lemma AskingWritesIff(p: Policy, z: Entries, key: Key, now: Clock, k: Key)
    requires Unique(z)
    ensures var kept, r := Expire(p, z, now, TOUCH_EXPIRE_LIMIT), IsBlocked(p, z, key, now).zone;
            StoredBan(r, k) == StoredBan(z, k)
            <==> StoredBan(z, k) == 0 || (Tracked(kept, k) && (k == key ==> StoredBan(z, k) > now))
  {
    hide Expire, StoredBan, IsBlocked;
    var kept, r := Expire(p, z, now, TOUCH_EXPIRE_LIMIT), IsBlocked(p, z, key, now).zone;
    ArriveDrops(p, z, key, now);
    if Tracked(kept, k) {
      var e := kept[Position(kept, k)];
      assert e in kept;
      StoredBanIs(z, e);
      AskingLeaves(p, z, key, now, e);
    } else {
      AskingInvents(p, z, key, now, k);
      NoStoredBan(r, k);
    }
  }

  /** So it writes no deadline at all exactly when the identity asked about has no lapsed one and no
      node it expires has one. */
  lemma AskingWritesNothingIff(p: Policy, z: Entries, key: Key, now: Clock)
    requires Unique(z)
    ensures var kept, r := Expire(p, z, now, TOUCH_EXPIRE_LIMIT), IsBlocked(p, z, key, now).zone;
            (forall k :: StoredBan(r, k) == StoredBan(z, k))
            <==> && !(Tracked(kept, key) && 0 != StoredBan(z, key) <= now)
                 && forall e :: e in z && e !in kept ==> e.blocked == 0
  {
    hide Expire, StoredBan, IsBlocked, Tracked;
    var kept, r := Expire(p, z, now, TOUCH_EXPIRE_LIMIT), IsBlocked(p, z, key, now).zone;
    ArriveDrops(p, z, key, now);
    forall k ensures StoredBan(r, k) == StoredBan(z, k)
      <==> StoredBan(z, k) == 0 || (Tracked(kept, k) && (k == key ==> StoredBan(z, k) > now))
    {
      AskingWritesIff(p, z, key, now, k);
    }
    forall e | e in z ensures StoredBan(z, e.key) == e.blocked && (Tracked(kept, e.key) <==> e in kept) {
      StoredBanIs(z, e);
      MemberIsFound(z, e);
      Untracked(kept, e.key);
    }
    forall k | StoredBan(z, k) != 0 ensures exists e :: e in z && e.key == k { HasEntry(z, k); }
  }

  lemma HasEntry(z: Entries, k: Key)
    requires StoredBan(z, k) != 0
    ensures exists e :: e in z && e.key == k
  {
    assert z[Position(z, k)] in z;
  }
}

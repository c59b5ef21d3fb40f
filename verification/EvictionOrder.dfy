/** How far the LRU queue stays in order of last_seen although eviction rotates bans to its head, and
    hence who can be older than the node an eviction removes. */
module EvictionOrder {
  import opened Times
  import opened ZoneModel
  import opened Upkeep
  import opened Observation
  import opened EvictionBounds
  import opened Runs

  /** Nobody behind a node without a stored deadline was seen after it. */
  ghost predicate InOrder(z: Entries)
  {
    forall i, j :: 0 <= i < j < |z| && z[i].blocked == 0 ==> z[j].seen <= z[i].seen
  }

  ghost predicate SeenBy(z: Entries, now: Clock)
  {
    forall e :: e in z ==> e.seen <= now
  }

  lemma PrefixInOrder(z: Entries, n: nat)
    requires n <= |z| && InOrder(z)
    ensures InOrder(z[..n])
  {
  }

  lemma WithoutInOrder(z: Entries, i: nat)
    requires i < |z| && InOrder(z)
    ensures InOrder(Without(z, i))
  {
    var w := Without(z, i);
    assert forall j :: 0 <= j < |w| ==> w[j] == if j < i then z[j] else z[j + 1];
  }

  /** In front goes a node that was seen last, or one with a stored deadline. */
  lemma HeadInOrder(h: Entry, rest: Entries)
    requires InOrder(rest) && (h.blocked != 0 || forall e :: e in rest ==> e.seen <= h.seen)
    ensures InOrder([h] + rest)
  {
    var z := [h] + rest;
    forall i, j | 0 <= i < j < |z| && z[i].blocked == 0 ensures z[j].seen <= z[i].seen {
      assert z[j] == rest[j - 1] && rest[j - 1] in rest;
      if i > 0 { assert z[i] == rest[i - 1]; }
    }
  }

  lemma {:induction false} ExpireInOrder(p: Policy, z: Entries, now: Clock, limit: nat)
    requires InOrder(z)
    ensures InOrder(Expire(p, z, now, limit))
    decreases limit
  {
    if limit != 0 && z != [] && Stale(p, z[|z| - 1], now) {
      PrefixInOrder(z, |z| - 1);
      ExpireInOrder(p, z[..|z| - 1], now, limit - 1);
    }
  }

  lemma {:induction false} EvictScanInOrder(z: Entries, now: Clock, limit: nat, left: nat)
    requires InOrder(z)
    ensures InOrder(EvictScan(z, now, limit, left).zone)
    decreases limit
  {
    if limit != 0 && z != [] {
      var n := |z| - 1;
      PrefixInOrder(z, n);
      if z[n].blocked > now {
        HeadInOrder(z[n], z[..n]);
        if left > 1 { EvictScanInOrder([z[n]] + z[..n], now, limit - 1, left - 1); }
      }
    }
  }

  lemma {:induction false} SqueezeInOrder(z: Entries, key: Key, now: Clock, grants: seq<bool>, i: nat)
    requires InOrder(z) && SeenBy(z, now)
    ensures InOrder(Squeeze(z, key, now, grants, i).zone)
    decreases |z|
  {
    hide InOrder;
    var e := Evict(z, now);
    EvictScanInOrder(z, now, EVICT_SCAN_LIMIT, |z|);
    EvictScanDrops(z, now, EVICT_SCAN_LIMIT, |z|);
    if e.freed {
      if Granted(grants, i) { HeadInOrder(Newcomer(key, now), e.zone); }
      else { SqueezeInOrder(e.zone, key, now, grants, i + 1); }
    }
  }

  lemma CreateInOrder(p: Policy, z: Entries, key: Key, now: Clock, grants: seq<bool>)
    requires InOrder(z) && SeenBy(z, now)
    ensures InOrder(Create(p, z, key, now, grants).zone)
  {
    hide InOrder, Expire, Squeeze;
    var trimmed := Expire(p, z, now, CREATE_EXPIRE_LIMIT);
    ExpireInOrder(p, z, now, CREATE_EXPIRE_LIMIT);
    ExpireDrops(p, z, now, CREATE_EXPIRE_LIMIT);
    HeadInOrder(Newcomer(key, now), z);
    HeadInOrder(Newcomer(key, now), trimmed);
    SqueezeInOrder(trimmed, key, now, grants, 2);
  }

  lemma ArriveInOrder(p: Policy, z: Entries, key: Key, now: Clock)
    requires InOrder(z) && SeenBy(z, now)
    ensures InOrder(Arrive(p, z, key, now).zone) && SeenBy(Arrive(p, z, key, now).zone, now)
  {
    hide InOrder, Expire, Without;
    var kept := Expire(p, z, now, TOUCH_EXPIRE_LIMIT);
    var i := Position(kept, key);
    ExpireInOrder(p, z, now, TOUCH_EXPIRE_LIMIT);
    ExpireDrops(p, z, now, TOUCH_EXPIRE_LIMIT);
    if i < |kept| {
      WithoutInOrder(kept, i);
      WithoutKeeps(kept, i);
      HeadInOrder(kept[i].(seen := now), Without(kept, i));
    }
  }

  lemma StepInOrder(p: Policy, z: Entries, t: Clock, op: Op)
    requires Strong(p, z, t) && InOrder(z) && t <= op.now
    ensures InOrder(Step(p, z, op).zone)
  {
    hide InOrder, Step, Arrive, Create, ActOnEntry;
    if op.DoPeek? {
      PeekChangesNothing(p, z, op);
    } else {
      var b := Locate(p, z, op);
      ArriveInOrder(p, z, op.key, op.now);
      CreateInOrder(p, Arrive(p, z, op.key, op.now).zone, op.key, op.now, if op.DoRecord? then op.grants else []);
      LocateIsInvisible(p, z, t, op);
      StepActs(p, z, op);
      if b.ok {
        var h, rest := b.zone[0], b.zone[1..];
        assert b.zone == [h] + rest;
        TailInOrder(b.zone);
        assert forall e :: e in rest ==> e in b.zone;
        ActKeepsSeen(p, op, h);
        HeadInOrder(ActOnEntry(p, op, h), rest);
      }
    }
  }

  lemma TailInOrder(z: Entries)
    requires z != [] && InOrder(z)
    ensures InOrder(z[1..])
  {
  }

  lemma ActKeepsSeen(p: Policy, op: Op, e: Entry)
    ensures ActOnEntry(p, op, e).seen == e.seen
  {
  }

  lemma {:induction false} AlwaysInOrder(p: Policy, z: Entries, t: Clock, ops: seq<Op>)
    requires Strong(p, z, t) && InOrder(z) && Monotone(ops, t)
    ensures InOrder(After(p, z, ops))
    decreases |ops|
  {
    hide Step, Strong, InOrder;
    if ops != [] {
      StepInOrder(p, z, t, ops[0]);
      StepIsIdeal(p, z, t, ops[0]);
      AlwaysInOrder(p, Step(p, z, ops[0]).zone, ops[0].now, ops[1..]);
    }
  }

  // ---------------------------------------------------------------- the evicted node

  /** A node with a deadline that has passed, though no call on its identity has cleared it. */
  predicate HasLapsed(e: Entry, now: Clock)
  {
    0 < e.blocked <= now
  }

  /** In a queue in order, only nodes with a lapsed deadline can be unblocked and older than the
      unblocked node nearest the tail. */
  lemma OlderIsLapsed(z: Entries, now: Clock)
    requires InOrder(z) && TailBans(z, now) < |z|
    ensures var v := z[|z| - 1 - TailBans(z, now)];
            forall e :: e in z && e.blocked <= now && e.seen < v.seen ==> e.blocked != 0
  {
    TailBansMeans(z, now);
    var k := |z| - 1 - TailBans(z, now);
    forall e | e in z && e.blocked <= now && e.seen < z[k].seen ensures e.blocked != 0 {
      var i :| 0 <= i < |z| && z[i] == e;
    }
  }

  /** After any run, an eviction removes the unblocked node nearest the tail if no more than LIMIT - 1
      bans lie behind it, and otherwise nothing. The removed node is the oldest unblocked one exactly
      when no node with a lapsed deadline was seen before it. */
  lemma EvictsOldestIff(p: Policy, ops: seq<Op>, now: Clock)
    requires Monotone(ops, 0)
    ensures var z := After(p, [], ops);
            var d := TailBans(z, now);
            if d < |z| && d < EVICT_SCAN_LIMIT then
              var v := z[|z| - 1 - d];
              && Evict(z, now) == Eviction(Picked([], z, d), true)
              && ((forall e :: e in z && e.blocked <= now ==> v.seen <= e.seen)
                  <==> forall e :: e in z && HasLapsed(e, now) ==> v.seen <= e.seen)
            else
              !Evict(z, now).freed
  {
    hide After, Evict, Picked, Rotated, InOrder, TailBans, Healthy;
    var z := After(p, [], ops);
    assert InOrder([]) by { EmptyInOrder(); }
    AlwaysInOrder(p, [], 0, ops);
    StrongAlways(p, [], 0, ops);
    EvictIsBoundedRotation(z, now);
    if TailBans(z, now) < |z| {
      OlderIsLapsed(z, now);
      NoNegativeDeadline(p, z, if ops == [] then 0 else ops[|ops| - 1].now);
    }
  }

  lemma NoNegativeDeadline(p: Policy, z: Entries, t: Clock)
    requires Strong(p, z, t)
    ensures forall e :: e in z ==> 0 <= e.blocked
  {
  }

  lemma EmptyInOrder()
    ensures InOrder([])
  {
  }

  /** A ban rotated to the head keeps its place when it lapses: younger nodes then go before it. */
  lemma YoungerGoesFirst(a: Entry, b: Entry, c: Entry, now: Clock, later: Clock)
    requires b.blocked <= now < a.blocked <= later && c.blocked <= later && a.seen < c.seen
    ensures Evict([c, b, a], now) == Eviction([a, c], true)
    ensures Evict([a, c], later) == Eviction([a], true)
  {
    var z := [c, b, a];
    assert z[..2] == [c, b] && [a] + [c, b] == [a, c, b] && [a, c, b][..2] == [a, c];
    assert [a, c][..1] == [a];
    assert EvictScan([a, c, b], now, EVICT_SCAN_LIMIT - 1, 2) == Eviction([a, c], true);
  }
}

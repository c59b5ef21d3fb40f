/** Forced eviction: one call is a bounded rotation, repeated calls reach the first unblocked node
    from the tail, and a refused creation means the scanned segment was all active bans. */
module EvictionBounds {
  import opened Times
  import opened ZoneModel
  import opened Upkeep
  import opened Observation
  import Durability

  function Min(a: nat, b: nat): nat
  {
    if a < b then a else b
  }

  /** Distance from the tail to the nearest node without an active ban; |z| if there is none. */
  function TailBans(z: Entries, now: Clock): (d: nat)
    ensures d <= |z|
  {
    if z == [] || z[|z| - 1].blocked <= now then 0 else 1 + TailBans(z[..|z| - 1], now)
  }

  lemma {:induction false} TailBansIs(z: Entries, now: Clock, d: nat)
    requires d <= |z|
    requires d < |z| ==> z[|z| - 1 - d].blocked <= now
    requires forall i :: |z| - d <= i < |z| ==> z[i].blocked > now
    ensures TailBans(z, now) == d
  {
    if d > 0 { TailBansIs(z[..|z| - 1], now, d - 1); }
  }

  lemma {:induction false} TailBansMeans(z: Entries, now: Clock)
    ensures var d := TailBans(z, now);
            && (forall i :: |z| - d <= i < |z| ==> z[i].blocked > now)
            && (d < |z| ==> z[|z| - 1 - d].blocked <= now)
  {
    if z != [] && z[|z| - 1].blocked > now { TailBansMeans(z[..|z| - 1], now); }
  }

  /** The queue once the last n entries of todo followed the scanned ones to the head. */
  function Rotated<T>(scanned: seq<T>, todo: seq<T>, n: nat): seq<T>
    requires n <= |todo|
  {
    todo[|todo| - n..] + scanned + todo[..|todo| - n]
  }

  /** The same after d entries, with the entry that is then last removed. */
  function Picked<T>(scanned: seq<T>, todo: seq<T>, d: nat): seq<T>
    requires d < |todo|
  {
    todo[|todo| - d..] + scanned + todo[..|todo| - d - 1]
  }

  lemma RotatedStep<T>(scanned: seq<T>, todo: seq<T>, n: nat)
    requires todo != [] && n <= |todo| - 1
    ensures Rotated([todo[|todo| - 1]] + scanned, todo[..|todo| - 1], n) == Rotated(scanned, todo, n + 1)
  {
    var k := |todo| - 1;
    assert todo[k - n..] == todo[..k][k - n..] + [todo[k]];
    assert todo[..k][..k - n] == todo[..k - n];
  }

  lemma PickedStep<T>(scanned: seq<T>, todo: seq<T>, d: nat)
    requires todo != [] && d < |todo| - 1
    ensures Picked([todo[|todo| - 1]] + scanned, todo[..|todo| - 1], d) == Picked(scanned, todo, d + 1)
  {
    var k := |todo| - 1;
    assert todo[k - d..] == todo[..k][k - d..] + [todo[k]];
    assert todo[..k][..k - d - 1] == todo[..k - d - 1];
  }

  lemma LastOfAppend<T>(scanned: seq<T>, todo: seq<T>)
    requires todo != []
    ensures var z, k := scanned + todo, |todo| - 1;
            && z[|z| - 1] == todo[k]
            && z[..|z| - 1] == scanned + todo[..k] == Picked(scanned, todo, 0)
            && [z[|z| - 1]] + z[..|z| - 1] == ([todo[k]] + scanned) + todo[..k]
            && z == Rotated(scanned, todo, 0)
  {
    assert todo[|todo|..] + scanned + todo[..|todo|] == scanned + todo;
  }

  /** What a scan makes of it, with scanned the bans already rotated and todo what lies ahead. */
  function ScanResult(scanned: Entries, todo: Entries, limit: nat, d: nat): Eviction
    requires d <= |todo|
  {
    if d < |todo| && d < limit then Eviction(Picked(scanned, todo, d), true)
    else Eviction(Rotated(scanned, todo, Min(limit, |todo|)), false)
  }

  lemma ScanResultStep(scanned: Entries, todo: Entries, limit: nat, d: nat)
    requires todo != [] && 0 < limit && 0 < d <= |todo|
    ensures var k := |todo| - 1;
            ScanResult([todo[k]] + scanned, todo[..k], limit - 1, d - 1)
            == ScanResult(scanned, todo, limit, d)
  {
    var k := |todo| - 1;
    if d <= k && d < limit {
      PickedStep(scanned, todo, d - 1);
    } else {
      RotatedStep(scanned, todo, Min(limit - 1, k));
    }
  }

  /** One turn of the scan past a ban. */
  lemma ScanTurn(scanned: Entries, todo: Entries, now: Clock, limit: nat)
    requires todo != [] && 0 < limit && todo[|todo| - 1].blocked > now
    ensures var k := |todo| - 1;
            var z := ([todo[k]] + scanned) + todo[..k];
            EvictScan(scanned + todo, now, limit, |todo|)
            == if k == 0 then Eviction(z, false) else EvictScan(z, now, limit - 1, k)
  {
    LastOfAppend(scanned, todo);
  }

  lemma ScanEnds(scanned: Entries, todo: Entries, now: Clock, limit: nat)
    requires todo != [] && (limit == 0 || todo[|todo| - 1].blocked <= now)
    ensures EvictScan(scanned + todo, now, limit, |todo|)
         == ScanResult(scanned, todo, limit, TailBans(todo, now))
  {
    LastOfAppend(scanned, todo);
  }

  lemma ScanExhausted(scanned: Entries, b: Entry)
    ensures ScanResult(scanned, [b], 1, 1) == Eviction(([b] + scanned) + [], false)
    ensures forall limit: nat :: limit > 0 ==>
              ScanResult(scanned, [b], limit, 1) == ScanResult(scanned, [b], 1, 1)
  {
  }

  lemma {:induction false} ScanInvariant(scanned: Entries, todo: Entries, now: Clock, limit: nat)
    requires todo != []
    ensures EvictScan(scanned + todo, now, limit, |todo|)
         == ScanResult(scanned, todo, limit, TailBans(todo, now))
    decreases limit
  {
    hide EvictScan, ScanResult;
    var k := |todo| - 1;
    if limit == 0 || todo[k].blocked <= now {
      ScanEnds(scanned, todo, now, limit);
    } else {
      ScanTurn(scanned, todo, now, limit);
      if k > 0 {
        ScanResultStep(scanned, todo, limit, TailBans(todo, now));
        ScanInvariant([todo[k]] + scanned, todo[..k], now, limit - 1);
      } else {
        ScanExhausted(scanned, todo[0]);
        assert todo == [todo[0]] && todo[..0] == [];
      }
    }
  }

  /** One call either removes the unblocked node nearest the tail, at distance below the limit,
      moving the bans behind it to the head in their old order, or removes nothing and rotates the
      queue by exactly the number of nodes it looked at. */
  lemma {:induction false} EvictIsBoundedRotation(z: Entries, now: Clock)
    ensures var d := TailBans(z, now);
            Evict(z, now)
            == if d < |z| && d < EVICT_SCAN_LIMIT then Eviction(Picked([], z, d), true)
               else Eviction(Rotated([], z, Min(EVICT_SCAN_LIMIT, |z|)), false)
    ensures Rotated([], z, |z|) == z
  {
    assert [] + z == z;
    if z != [] { ScanInvariant([], z, now, EVICT_SCAN_LIMIT); }
  }

  /** What the n-th of several consecutive calls does, counting from 0. */
  function NthEvict(z: Entries, now: Clock, n: nat): Eviction
    decreases n
  {
    if n == 0 then Evict(z, now) else NthEvict(Evict(z, now).zone, now, n - 1)
  }

  lemma RotationShortensDistance(z: Entries, now: Clock)
    requires EVICT_SCAN_LIMIT <= TailBans(z, now) < |z|
    ensures var d, r := TailBans(z, now), Rotated([], z, EVICT_SCAN_LIMIT);
            && |r| == |z| && TailBans(r, now) == d - EVICT_SCAN_LIMIT
            && Picked([], r, d - EVICT_SCAN_LIMIT) == Picked([], z, d)
  {
    hide TailBans;
    var d, L := TailBans(z, now), EVICT_SCAN_LIMIT;
    var r := Rotated([], z, L);
    TailBansMeans(z, now);
    assert r == z[|z| - L..] + z[..|z| - L];
    TailBansIs(r, now, d - L);
    assert r[|r| - (d - L)..] == z[|z| - d..|z| - L];
    assert r[..|r| - (d - L) - 1] == z[|z| - L..] + z[..|z| - d - 1];
    assert z[|z| - d..|z| - L] + z[|z| - L..] == z[|z| - d..];
  }

  /** However many bans sit at the tail, call number d / LIMIT (from 0) frees the first unblocked
      node behind them, and no earlier call frees anything. */
  lemma {:induction false} RepeatedEvictionReaches(z: Entries, now: Clock)
    requires TailBans(z, now) < |z|
    ensures var d := TailBans(z, now);
            && NthEvict(z, now, d / EVICT_SCAN_LIMIT) == Eviction(Picked([], z, d), true)
            && forall n: nat :: n < d / EVICT_SCAN_LIMIT ==> !NthEvict(z, now, n).freed
    decreases TailBans(z, now)
  {
    hide TailBans, Rotated, Picked, Evict;
    var d, L := TailBans(z, now), EVICT_SCAN_LIMIT;
    EvictIsBoundedRotation(z, now);
    if d >= L {
      RotationShortensDistance(z, now);
      RepeatedEvictionReaches(Rotated([], z, L), now);
      assert d / L == 1 + (d - L) / L;
    }
  }

  /** The loop that starts with attempt i ends with the n-th eviction (from 0): all before it freed a
      node whose memory did not do; this one either does, or found nothing to free. */
  ghost predicate EndsAt(r: Placed, z: Entries, key: Key, now: Clock, grants: seq<bool>, i: nat, n: nat)
  {
    var e := NthEvict(z, now, n);
    && (forall m: nat :: m < n ==> NthEvict(z, now, m).freed && !Granted(grants, i + m))
    && (e.freed ==> Granted(grants, i + n))
    && r == if e.freed then Placed([Entry(key, 0, now, [])] + e.zone, true) else Placed(e.zone, false)
  }

  lemma NthLater(z: Entries, now: Clock, n: nat)
    ensures NthEvict(z, now, 0) == Evict(z, now)
    ensures NthEvict(z, now, n + 1) == NthEvict(Evict(z, now).zone, now, n)
  {
    hide Evict;
  }

  lemma EndsLater(r: Placed, z: Entries, key: Key, now: Clock, grants: seq<bool>, i: nat, n: nat)
    requires Evict(z, now).freed && !Granted(grants, i)
    requires EndsAt(r, Evict(z, now).zone, key, now, grants, i + 1, n)
    ensures EndsAt(r, z, key, now, grants, i, n + 1)
  {
    hide Evict, Granted, NthEvict;
    NthLater(z, now, n);
    var k := n + 1;
    assert i + k == i + 1 + n;
    forall m: nat | m < k ensures NthEvict(z, now, m).freed && !Granted(grants, i + m) {
      if m > 0 {
        NthLater(z, now, m - 1);
        assert i + m == i + 1 + (m - 1);
      } else {
        assert i + m == i;
      }
    }
    assert EndsAt(r, z, key, now, grants, i, k);
  }

  lemma {:induction false} SqueezeIsNthEvict(z: Entries, key: Key, now: Clock, grants: seq<bool>, i: nat)
    ensures exists n: nat :: EndsAt(Squeeze(z, key, now, grants, i), z, key, now, grants, i, n)
    decreases |z|
  {
    hide EvictScan, Granted;
    var e, r := Evict(z, now), Squeeze(z, key, now, grants, i);
    if !e.freed || Granted(grants, i) {
      assert NthEvict(z, now, 0) == e;
      assert EndsAt(r, z, key, now, grants, i, 0);
    } else {
      SqueezeIsNthEvict(e.zone, key, now, grants, i + 1);
      var n: nat :| EndsAt(r, e.zone, key, now, grants, i + 1, n);
      EndsLater(r, z, key, now, grants, i, n);
    }
  }

  /** Creation takes the first granted attempt: at once, then after expiring up to 64 nodes, then in the
      force-evict loop on what that left; a key longer than a digest changes nothing. */
  lemma CreateInStages(p: Policy, z: Entries, key: Key, now: Clock, grants: seq<bool>)
    ensures var r, e := Create(p, z, key, now, grants), [Entry(key, 0, now, [])];
            var trimmed := Expire(p, z, now, 64);
            r == if |key| > 32 then Placed(z, false)
                 else if |grants| > 0 && grants[0] then Placed(e + z, true)
                 else if |grants| > 1 && grants[1] then Placed(e + trimmed, true)
                 else Squeeze(trimmed, key, now, grants, 2)
  {
    hide Expire, Squeeze;
  }

  /** The force-evict loop only gives up in front of a whole segment of active bans. */
  lemma {:induction false} SqueezeGivesUp(z: Entries, key: Key, now: Clock, grants: seq<bool>, i: nat)
    ensures var r := Squeeze(z, key, now, grants, i);
            !r.ok ==> forall j :: 0 <= j < Min(EVICT_SCAN_LIMIT, |r.zone|) ==> r.zone[j].blocked > now
    decreases |z|
  {
    EvictIsBoundedRotation(z, now);
    TailBansMeans(z, now);
    var e := Evict(z, now);
    if e.freed && !Granted(grants, i) {
      SqueezeGivesUp(e.zone, key, now, grants, i + 1);
    }
  }

  /** A refused creation of a digest key: the segment the last scan looked at (now at the head) was
      all active bans, no active ban was lost, and the zone holds nothing new. */
  lemma CreateRefused(p: Policy, z: Entries, key: Key, now: Clock, grants: seq<bool>)
    requires |key| <= DIGEST_LEN && !Create(p, z, key, now, grants).ok
    ensures var r := Create(p, z, key, now, grants).zone;
            && (forall j :: 0 <= j < Min(EVICT_SCAN_LIMIT, |r|) ==> r[j].blocked > now)
            && KeepsBans(r, z, now)
            && (forall e :: e in r ==> e in z)
            && (!Tracked(z, key) ==> !Tracked(r, key))
  {
    CreateDrops(p, z, key, now, grants);
    SqueezeGivesUp(Expire(p, z, now, CREATE_EXPIRE_LIMIT), key, now, grants, 2);
    Untracked(z, key);
    Untracked(Create(p, z, key, now, grants).zone, key);
  }

  // ---------------------------------------------------------------- who is forced out

  /** The force-evict loop about to make attempt i meets a node that is not stale: the next victim, the
      unblocked node nearest the tail within reach of the scan, or after a refused attempt a later one. */
  predicate HitsRecent(p: Policy, z: Entries, now: Clock, grants: seq<bool>, i: nat)
    decreases |z|
  {
    var d := TailBans(z, now);
    d < |z| && d < EVICT_SCAN_LIMIT &&
    (!Stale(p, z[|z| - 1 - d], now) ||
     (!Granted(grants, i) && HitsRecent(p, Picked([], z, d), now, grants, i + 1)))
  }

  lemma RotatedHas(z: Entries, n: nat)
    requires n <= |z|
    ensures forall e :: e in Rotated([], z, n) <==> e in z
  {
    assert z == z[..|z| - n] + z[|z| - n..];
  }

  lemma PickedHas(z: Entries, d: nat)
    requires d < |z| && Unique(z)
    ensures var v, r := z[|z| - 1 - d], Picked([], z, d);
            Unique(r) && |r| == |z| - 1 && forall e :: e in r <==> e in z && e != v
  {
    var k := |z| - 1 - d;
    var v, r := z[k], Picked([], z, d);
    assert z == z[..k] + [v] + z[k + 1..];
    assert forall j :: 0 <= j < |r| ==> r[j] == if j < d then z[k + 1 + j] else z[j - d];
    assert forall j :: 0 <= j < |z| && j != k ==> z[j].key != v.key;
  }

  lemma DropsOneMore(p: Policy, z: Entries, left: Entries, v: Entry, beside: Entries, now: Clock)
    requires v in z && (forall e :: e in left <==> e in z && e != v) && forall e :: e in beside ==> e in left
    ensures DropsOnlyStale(p, beside, z, now) <==> Stale(p, v, now) && DropsOnlyStale(p, beside, left, now)
  {
    hide Stale;
  }

  lemma DropsNone(p: Policy, z: Entries, beside: Entries, now: Clock)
    requires forall e :: e in z ==> e in beside
    ensures DropsOnlyStale(p, beside, z, now)
  {
  }

  lemma {:induction false} SqueezeDropsStaleIff(p: Policy, z: Entries, key: Key, now: Clock,
                                                grants: seq<bool>, i: nat)
    requires Unique(z)
    ensures DropsOnlyStale(p, Beside(Squeeze(z, key, now, grants, i)), z, now)
       <==> !HitsRecent(p, z, now, grants, i)
    decreases |z|
  {
    hide TailBans, Rotated, Picked, Stale, Evict, DropsOnlyStale;
    var d := TailBans(z, now);
    var beside := Beside(Squeeze(z, key, now, grants, i));
    EvictIsBoundedRotation(z, now);
    if d < |z| && d < EVICT_SCAN_LIMIT {
      var v, left := z[|z| - 1 - d], Picked([], z, d);
      PickedHas(z, d);
      assert v in z;
      if Granted(grants, i) {
        assert ([Newcomer(key, now)] + left)[1..] == left;
        DropsNone(p, left, left, now);
      } else {
        SqueezeDropsStaleIff(p, left, key, now, grants, i + 1);
        SqueezeDrops(left, key, now, grants, i + 1);
      }
      DropsOneMore(p, z, left, v, beside, now);
    } else {
      RotatedHas(z, Min(EVICT_SCAN_LIMIT, |z|));
      DropsNone(p, z, beside, now);
    }
  }

  /** Creating a node drops only stale nodes, as the documentation has it, exactly when one of the first
      two allocations is granted or the force-evict loop meets none that is not. */
  lemma CreateDropsStaleIff(p: Policy, z: Entries, key: Key, now: Clock, grants: seq<bool>)
    requires Unique(z) && |key| <= DIGEST_LEN
    ensures DropsOnlyStale(p, Beside(Create(p, z, key, now, grants)), z, now)
       <==> || Granted(grants, 0) || Granted(grants, 1)
            || !HitsRecent(p, Expire(p, z, now, CREATE_EXPIRE_LIMIT), now, grants, 2)
  {
    hide Expire, Squeeze, HitsRecent, Stale;
    CreateDrops(p, z, key, now, grants);
    if !Granted(grants, 0) && !Granted(grants, 1) {
      var trimmed := Expire(p, z, now, CREATE_EXPIRE_LIMIT);
      ExpireDrops(p, z, now, CREATE_EXPIRE_LIMIT);
      SqueezeDrops(trimmed, key, now, grants, 2);
      SqueezeDropsStaleIff(p, trimmed, key, now, grants, 2);
    }
  }

  /** The force-evict loop about to make attempt i picks the node of this identity. */
  predicate HitsKey(z: Entries, now: Clock, grants: seq<bool>, i: nat, key: Key)
    decreases |z|
  {
    var d := TailBans(z, now);
    d < |z| && d < EVICT_SCAN_LIMIT &&
    (z[|z| - 1 - d].key == key ||
     (!Granted(grants, i) && HitsKey(Picked([], z, d), now, grants, i + 1, key)))
  }

  lemma {:induction false} SqueezeDropsIff(z: Entries, key: Key, now: Clock, grants: seq<bool>, i: nat, e: Entry)
    requires Unique(z) && e in z
    ensures e in Beside(Squeeze(z, key, now, grants, i)) <==> !HitsKey(z, now, grants, i, e.key)
    decreases |z|
  {
    hide TailBans, Rotated, Picked, Evict;
    var d := TailBans(z, now);
    var r := Squeeze(z, key, now, grants, i);
    EvictIsBoundedRotation(z, now);
    if d < |z| && d < EVICT_SCAN_LIMIT {
      var v, left := z[|z| - 1 - d], Picked([], z, d);
      PickedHas(z, d);
      assert v in z;
      Durability.MemberIsFound(z, e);
      if Granted(grants, i) {
        assert ([Newcomer(key, now)] + left)[1..] == left;
      } else if e.key == v.key {
        SqueezeDrops(left, key, now, grants, i + 1);
      } else {
        SqueezeDropsIff(left, key, now, grants, i + 1, e);
      }
    } else {
      RotatedHas(z, Min(EVICT_SCAN_LIMIT, |z|));
    }
  }

  lemma CreateDropsIff(p: Policy, z: Entries, key: Key, now: Clock, grants: seq<bool>, e: Entry)
    requires Unique(z) && e in z && !Stale(p, e, now)
    ensures e in Beside(Create(p, z, key, now, grants))
       <==> || |key| > DIGEST_LEN || Granted(grants, 0) || Granted(grants, 1)
            || !HitsKey(Expire(p, z, now, CREATE_EXPIRE_LIMIT), now, grants, 2, e.key)
  {
    hide Expire, Squeeze, HitsKey, Stale;
    CreateDrops(p, z, key, now, grants);
    ExpireDrops(p, z, now, CREATE_EXPIRE_LIMIT);
    SqueezeDropsIff(Expire(p, z, now, CREATE_EXPIRE_LIMIT), key, now, grants, 2, e);
  }

  /** When a record of a new identity spares another one: its node is stale, or there is none, or one of
      the first two allocations is granted, or the force-evict loop does not pick it. */
  lemma OtherIsSparedIff(p: Policy, z: Entries, op: Op, key: Key)
    requires Unique(z) && op.DoRecord? && !Tracked(Expire(p, z, op.now, TOUCH_EXPIRE_LIMIT), op.key)
    requires key != op.key
    ensures var kept := Expire(p, z, op.now, TOUCH_EXPIRE_LIMIT);
            Spares(p, z, op, key)
            <==> || !Tracked(z, key) || Stale(p, z[Position(z, key)], op.now)
                 || |op.key| > DIGEST_LEN || Granted(op.grants, 0) || Granted(op.grants, 1)
                 || !HitsKey(Expire(p, kept, op.now, CREATE_EXPIRE_LIMIT), op.now, op.grants, 2, key)
  {
    hide Expire, Create, HitsKey, Stale, Locate, Tracked;
    var kept := Expire(p, z, op.now, TOUCH_EXPIRE_LIMIT);
    var b := Create(p, kept, op.key, op.now, op.grants);
    ArriveDrops(p, z, op.key, op.now);
    LocateNew(p, z, op);
    CreateDrops(p, kept, op.key, op.now, op.grants);
    StepTracks(p, z, op, key);
    if Tracked(z, key) {
      MemberAt(z, key);
      var e := z[Position(z, key)];
      if !Stale(p, e, op.now) {
        CreateDropsIff(p, kept, op.key, op.now, op.grants, e);
        if b.ok {
          StillTracked(b.zone, Newcomer(op.key, op.now), Beside(b), kept, e);
        } else {
          Durability.MemberIsFound(kept, e);
          Untracked(b.zone, key);
        }
      }
    }
  }

  /** And when it spares its own: when it gets its node. */
  lemma OwnIsSparedIff(p: Policy, z: Entries, op: Op)
    requires Unique(z) && op.DoRecord? && !Tracked(Expire(p, z, op.now, TOUCH_EXPIRE_LIMIT), op.key)
    ensures var kept := Expire(p, z, op.now, TOUCH_EXPIRE_LIMIT);
            Spares(p, z, op, op.key) <==> Create(p, kept, op.key, op.now, op.grants).ok
  {
    hide Expire, Create, Stale, Tracked;
    var kept := Expire(p, z, op.now, TOUCH_EXPIRE_LIMIT);
    var b := Create(p, kept, op.key, op.now, op.grants);
    ArriveDrops(p, z, op.key, op.now);
    LocateNew(p, z, op);
    StepTracks(p, z, op, op.key);
    if b.ok {
      assert b.zone[0] in b.zone;
      Untracked(b.zone, op.key);
    }
  }

  lemma AllSparedMeans(p: Policy, z: Entries, op: Op)
    requires Unique(z) && op.DoRecord?
    ensures (forall k :: Spares(p, z, op, k))
       <==> && Locate(p, z, op).ok
            && forall e :: e in z && !Stale(p, e, op.now) ==> Tracked(Locate(p, z, op).zone, e.key)
  {
    hide Locate, Stale, Tracked;
    if forall k :: Spares(p, z, op, k) {
      assert Spares(p, z, op, op.key);
      StepTracks(p, z, op, op.key);
      forall e | e in z && !Stale(p, e, op.now) ensures Tracked(Locate(p, z, op).zone, e.key) {
        Durability.MemberIsFound(z, e);
        assert Spares(p, z, op, e.key);
        StepTracks(p, z, op, e.key);
      }
    }
    var b := Locate(p, z, op);
    if b.ok && forall e :: e in z && !Stale(p, e, op.now) ==> Tracked(b.zone, e.key) {
      forall k ensures Spares(p, z, op, k) {
        StepTracks(p, z, op, k);
        if Tracked(z, k) { MemberAt(z, k); }
      }
    }
  }

  /** For a new identity: everybody recent is still tracked exactly when creation drops only stale nodes. */
  lemma NewcomerKeeps(p: Policy, z: Entries, op: Op)
    requires Unique(z) && op.DoRecord? && !Tracked(Expire(p, z, op.now, TOUCH_EXPIRE_LIMIT), op.key)
    requires Locate(p, z, op).ok
    ensures var kept := Expire(p, z, op.now, TOUCH_EXPIRE_LIMIT);
            (forall e :: e in z && !Stale(p, e, op.now) ==> Tracked(Locate(p, z, op).zone, e.key))
            <==> DropsOnlyStale(p, Beside(Create(p, kept, op.key, op.now, op.grants)), kept, op.now)
  {
    hide Expire, Create, Stale, Tracked, Locate;
    var kept := Expire(p, z, op.now, TOUCH_EXPIRE_LIMIT);
    var b := Create(p, kept, op.key, op.now, op.grants);
    ArriveDrops(p, z, op.key, op.now);
    LocateNew(p, z, op);
    CreateDrops(p, kept, op.key, op.now, op.grants);
    Untracked(kept, op.key);
    forall e | e in kept ensures Tracked(b.zone, e.key) <==> e in Beside(b) {
      StillTracked(b.zone, Newcomer(op.key, op.now), Beside(b), kept, e);
    }
  }

  lemma StillTracked(z: Entries, h: Entry, rest: Entries, w: Entries, e: Entry)
    requires z == [h] + rest && Unique(w) && (forall x :: x in rest ==> x in w) && e in w && h.key != e.key
    ensures Tracked(z, e.key) <==> e in rest
  {
    Untracked(z, e.key);
    Durability.MemberIsFound(w, e);
  }

  /** So a record of a new identity spares everybody, as the theorems on runs ask for, exactly when it
      gets its node and forces out nothing recent. */
  lemma AllSparedIff(p: Policy, z: Entries, op: Op)
    requires Unique(z) && op.DoRecord? && !Tracked(Expire(p, z, op.now, TOUCH_EXPIRE_LIMIT), op.key)
    ensures var kept := Expire(p, z, op.now, TOUCH_EXPIRE_LIMIT);
            var recent := HitsRecent(p, Expire(p, kept, op.now, CREATE_EXPIRE_LIMIT), op.now, op.grants, 2);
            (forall k :: Spares(p, z, op, k))
            <==> && Create(p, kept, op.key, op.now, op.grants).ok
                 && (Granted(op.grants, 0) || Granted(op.grants, 1) || !recent)
  {
    hide Expire, Create, HitsRecent, Stale, Spares, Tracked, Locate;
    var kept := Expire(p, z, op.now, TOUCH_EXPIRE_LIMIT);
    ArriveDrops(p, z, op.key, op.now);
    LocateNew(p, z, op);
    AllSparedMeans(p, z, op);
    CreateDrops(p, kept, op.key, op.now, op.grants);
    if Locate(p, z, op).ok {
      NewcomerKeeps(p, z, op);
      CreateDropsStaleIff(p, kept, op.key, op.now, op.grants);
    }
  }

  lemma LocateNew(p: Policy, z: Entries, op: Op)
    requires Unique(z) && op.DoRecord?
    requires !Arrive(p, z, op.key, op.now).ok
    ensures Locate(p, z, op)
         == Create(p, Arrive(p, z, op.key, op.now).zone, op.key, op.now, op.grants)
  {
  }

  /** Being recent is no protection: a node that is not stale, whatever its window holds, is forced out
      for a newcomer when two allocations fail. */
  lemma RecentNodeIsForcedOut(p: Policy, e: Entry, key: Key, now: Clock)
    requires e.key != key && |key| <= DIGEST_LEN && e.blocked <= now && !Stale(p, e, now)
    ensures var r := Record(p, [e], key, now, [false, false, true]).zone;
            Tracked(r, key) && !Tracked(r, e.key)
  {
    var z, grants := [e], [false, false, true];
    assert Expire(p, z, now, TOUCH_EXPIRE_LIMIT) == z && Expire(p, z, now, CREATE_EXPIRE_LIMIT) == z;
    assert z[1..] == [] && Position(z, key) == 1;
    assert z[..0] == [] && Evict(z, now) == Eviction([], true);
    assert Squeeze(z, key, now, grants, 2) == Placed([Newcomer(key, now)] + [], true);
    var r := Record(p, z, key, now, grants).zone;
    assert |r| == 1 && r[0].key == key;
    Untracked(r, e.key);
  }
}

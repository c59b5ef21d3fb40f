/** What housekeeping may and may not do to the set of tracked identities: expiry, eviction and
    node creation keep identities unique, invent nothing and never drop an active ban. */
module Upkeep {
  import opened Times
  import opened ZoneModel

  /** z came out of w by dropping entries (and possibly reordering the rest). */
  ghost predicate DropsFrom(z: Entries, w: Entries)
  {
    && (forall e :: e in z ==> e in w)
    && (Unique(w) ==> Unique(z))
  }

  ghost predicate KeepsBans(z: Entries, w: Entries, now: Clock)
  {
    forall e :: e in w && e.blocked > now ==> e in z
  }

  /** Everything z lacks of w was past its inactivity time and not banned. */
  ghost predicate DropsOnlyStale(p: Policy, z: Entries, w: Entries, now: Clock)
  {
    forall e :: e in w && e !in z ==> Stale(p, e, now)
  }

  lemma PositionOf(z: Entries, i: nat)
    requires Unique(z) && i < |z|
    ensures Position(z, z[i].key) == i
  {
  }

  lemma Untracked(z: Entries, key: Key)
    ensures !Tracked(z, key) <==> forall e :: e in z ==> e.key != key
  {
    if i :| 0 <= i < |z| && z[i].key == key {
      assert z[i] in z;
    }
    if Tracked(z, key) { assert z[Position(z, key)] in z; }
  }

  lemma {:induction false} ExpireDrops(p: Policy, z: Entries, now: Clock, limit: nat)
    ensures Expire(p, z, now, limit) <= z
    ensures DropsFrom(Expire(p, z, now, limit), z)
    ensures DropsOnlyStale(p, Expire(p, z, now, limit), z, now)
    decreases limit
  {
    if limit != 0 && z != [] && Stale(p, z[|z| - 1], now) {
      ExpireDrops(p, z[..|z| - 1], now, limit - 1);
      assert z == z[..|z| - 1] + [z[|z| - 1]];
    }
  }

  /** Whether expire() may delete the entry, in plain numbers. */
  predicate PastItsTime(p: Policy, e: Entry, now: Clock)
  {
    e.blocked <= now && e.seen + p.inactive <= now
  }

  /** expire() deletes from the tail every entry past its time, up to the first that is not and no more
      than limit, and nothing else. */
  lemma {:induction false} ExpireExactly(p: Policy, z: Entries, now: Clock, limit: nat)
    ensures var r := Expire(p, z, now, limit);
            && |z| - limit <= |r| <= |z| && r == z[..|r|]
            && (forall i :: |r| <= i < |z| ==> PastItsTime(p, z[i], now))
            && (|r| == |z| - limit || r == [] || !PastItsTime(p, z[|r| - 1], now))
    decreases limit
  {
    if limit == 0 || z == [] || !PastItsTime(p, z[|z| - 1], now) {
      assert Expire(p, z, now, limit) == z;
    } else {
      ExpireExactly(p, z[..|z| - 1], now, limit - 1);
      assert Expire(p, z, now, limit) == Expire(p, z[..|z| - 1], now, limit - 1);
    }
  }

  lemma RotateKeeps(z: Entries)
    requires z != []
    ensures var r := [z[|z| - 1]] + z[..|z| - 1];
            DropsFrom(r, z) && forall e :: e in z ==> e in r
  {
    var n := |z| - 1;
    var r := [z[n]] + z[..n];
    assert z == z[..n] + [z[n]];
    assert forall i :: 0 <= i < |r| ==> r[i] == if i == 0 then z[n] else z[i - 1];
  }

  lemma PrefixUnique(z: Entries, n: nat)
    requires n <= |z|
    ensures Unique(z) ==> Unique(z[..n])
  {
  }

  lemma {:induction false} EvictScanDrops(z: Entries, now: Clock, limit: nat, left: nat)
    ensures var r := EvictScan(z, now, limit, left);
            DropsFrom(r.zone, z) && KeepsBans(r.zone, z, now)
    decreases limit
  {
    hide Unique;
    if limit != 0 && z != [] {
      var n := |z| - 1;
      assert z == z[..n] + [z[n]];
      if z[n].blocked > now {
        RotateKeeps(z);
        if left > 1 {
          EvictScanDrops([z[n]] + z[..n], now, limit - 1, left - 1);
        }
      } else {
        PrefixUnique(z, n);
      }
    }
  }

  lemma {:induction false} SqueezeDrops(z: Entries, key: Key, now: Clock, grants: seq<bool>, i: nat)
    ensures var r := Squeeze(z, key, now, grants, i);
            DropsFrom(Beside(r), z) && KeepsBans(Beside(r), z, now)
    decreases |z|
  {
    EvictScanDrops(z, now, EVICT_SCAN_LIMIT, |z|);
    var e := Evict(z, now);
    if e.freed {
      if Granted(grants, i) {
        assert ([Newcomer(key, now)] + e.zone)[1..] == e.zone;
      } else {
        SqueezeDrops(e.zone, key, now, grants, i + 1);
      }
    }
  }

  /** The nodes a creation leaves beside the newcomer. */
  function Beside(r: Placed): Entries
    requires r.ok ==> r.zone != []
  {
    if r.ok then r.zone[1..] else r.zone
  }

  /** Creating a node: the identities beside the newcomer are old ones, every active ban among
      them survives, and unless a node had to be forced out only stale ones went. */
  lemma CreateDrops(p: Policy, z: Entries, key: Key, now: Clock, grants: seq<bool>)
    ensures var r := Create(p, z, key, now, grants);
            && DropsFrom(Beside(r), z) && KeepsBans(Beside(r), z, now)
            && (Granted(grants, 0) || Granted(grants, 1) ==> DropsOnlyStale(p, Beside(r), z, now))
            && (r.ok ==> r.zone == [Newcomer(key, now)] + Beside(r) && |key| <= DIGEST_LEN)
            && (Unique(z) && !Tracked(z, key) ==> Unique(r.zone))
  {
    hide Expire, Squeeze;
    var r := Create(p, z, key, now, grants);
    var trimmed := Expire(p, z, now, CREATE_EXPIRE_LIMIT);
    ExpireDrops(p, z, now, CREATE_EXPIRE_LIMIT);
    SqueezeDrops(trimmed, key, now, grants, 2);
    assert ([Newcomer(key, now)] + z)[1..] == z;
    assert ([Newcomer(key, now)] + trimmed)[1..] == trimmed;
    assert r.ok ==> r.zone == [r.zone[0]] + Beside(r);
    if Unique(z) && !Tracked(z, key) {
      Untracked(z, key);
      if r.ok { HeadUnique(Newcomer(key, now), Beside(r)); }
    }
  }

  lemma HeadUnique(h: Entry, rest: Entries)
    requires Unique(rest) && forall e :: e in rest ==> e.key != h.key
    ensures Unique([h] + rest)
  {
    assert forall i :: 0 <= i < |rest| ==> rest[i] in rest;
  }

  lemma WithoutKeeps(z: Entries, i: nat)
    requires i < |z|
    ensures forall e :: e in z ==> e == z[i] || e in Without(z, i)
    ensures forall e :: e in Without(z, i) ==> e in z
    ensures Unique(z) ==> Unique(Without(z, i))
                          && forall e :: e in Without(z, i) ==> e.key != z[i].key
  {
    var w := Without(z, i);
    assert forall j :: 0 <= j < |w| ==> w[j] == if j < i then z[j] else z[j + 1];
    forall e | e in z ensures e == z[i] || e in w {
      var j :| 0 <= j < |z| && z[j] == e;
      if j != i { assert w[if j < i then j else j - 1] == e; }
    }
  }

  /** find_touch_locked: on a hit the head is the old entry with last_seen refreshed, everything
      else only went if stale. */
  lemma ArriveDrops(p: Policy, z: Entries, key: Key, now: Clock)
    requires Unique(z)
    ensures var kept := Expire(p, z, now, TOUCH_EXPIRE_LIMIT);
            var r := Arrive(p, z, key, now);
            && DropsFrom(kept, z) && DropsOnlyStale(p, kept, z, now)
            && Unique(r.zone)
            && (r.ok <==> Tracked(kept, key))
            && (!r.ok ==> r.zone == kept)
            && (r.ok ==>
                  && (exists e :: e in kept && e.key == key && r.zone[0] == e.(seen := now))
                  && (forall e :: e in r.zone[1..] <==> e in kept && e.key != key))
  {
    var kept := Expire(p, z, now, TOUCH_EXPIRE_LIMIT);
    ExpireDrops(p, z, now, TOUCH_EXPIRE_LIMIT);
    var i := Position(kept, key);
    if i < |kept| {
      WithoutKeeps(kept, i);
      var r := Arrive(p, z, key, now).zone;
      assert r[1..] == Without(kept, i);
      assert kept[i] in kept;
    }
  }

  lemma {:induction false} RepliesLength(p: Policy, z: Entries, ops: seq<Op>)
    ensures |Replies(p, z, ops)| == |ops|
    decreases |ops|
  {
    if ops != [] { RepliesLength(p, Step(p, z, ops[0]).zone, ops[1..]); }
  }

  lemma ReplyAt(p: Policy, z: Entries, ops: seq<Op>, i: nat)
    requires i < |ops|
    ensures |Replies(p, z, ops)| == |ops| && |Replies(p, Step(p, z, ops[0]).zone, ops[1..])| == |ops| - 1
    ensures Replies(p, z, ops)[i]
         == if i == 0 then Step(p, z, ops[0]).reply
            else Replies(p, Step(p, z, ops[0]).zone, ops[1..])[i - 1]
  {
    hide Step;
    RepliesLength(p, z, ops);
    RepliesLength(p, Step(p, z, ops[0]).zone, ops[1..]);
  }
}

/** The shared-memory zone as the module keeps it: nodes updated in place, an LRU queue and an index
    over the same nodes. Every locked operation is proved against its meaning in ZoneModel. */
module Zones {
  import opened Times
  import opened ZoneModel
  import opened Index

  ghost function Rings(q: seq<Node>): set<object>
  {
    set n | n in q :: n.events
  }

  ghost function ViewOf(q: seq<Node>): (r: Entries)
    reads q, Rings(q)
    ensures |r| == |q|
  {
    if q == [] then [] else [q[0].View()] + ViewOf(q[1..])
  }

  function IndexOf(q: seq<Node>, n: Node): (i: nat)
    requires n in q
    ensures i < |q| && q[i] == n
  {
    if q[0] == n then 0 else 1 + IndexOf(q[1..], n)
  }

  /** ngx_queue_prev, towards the head; null stands for the sentinel. */
  function QueuePrev(q: seq<Node>, n: Node): Node?
    requires n in q
  {
    var i := IndexOf(q, n);
    if i == 0 then null else q[i - 1]
  }

  /** No two nodes of the queue share an identity or a ring. */
  ghost predicate Distinct(q: seq<Node>)
  {
    forall i, j :: 0 <= i < j < |q| ==> q[i].key != q[j].key && q[i].events != q[j].events
  }

  lemma LeftOut(q: seq<Node>, i: nat)
    requires i < |q| && Distinct(q)
    ensures Distinct(Without(q, i)) && forall n :: n in Without(q, i) <==> n in q && n != q[i]
  {
    var w := Without(q, i);
    assert forall j :: 0 <= j < |w| ==> w[j] == if j < i then q[j] else q[j + 1];
    forall n | n in q && n != q[i] ensures n in w {
      var j :| 0 <= j < |q| && q[j] == n;
      assert w[if j < i then j else j - 1] == n;
    }
  }

  lemma HeadAdded(q: seq<Node>, n: Node)
    requires Distinct(q) && forall m :: m in q ==> m.key != n.key && m.events != n.events
    ensures Distinct([n] + q)
  {
    assert forall j :: 0 <= j < |q| ==> q[j] in q;
  }

  lemma IndexIsUnique(q: seq<Node>, i: nat)
    requires i < |q| && Distinct(q)
    ensures IndexOf(q, q[i]) == i
    ensures forall j :: 0 <= j < |q| && j != i ==> q[j] != q[i] && q[j].events != q[i].events
  {
  }

  lemma {:induction false} ViewAt(q: seq<Node>, i: nat)
    requires i < |q|
    ensures ViewOf(q)[i] == q[i].View()
  {
    if i > 0 { ViewAt(q[1..], i - 1); }
  }

  lemma {:induction false} ViewConcat(a: seq<Node>, b: seq<Node>)
    ensures ViewOf(a + b) == ViewOf(a) + ViewOf(b)
  {
    if a == [] {
      assert a + b == b;
    } else {
      assert (a + b)[1..] == a[1..] + b;
      ViewConcat(a[1..], b);
    }
  }

  lemma ViewPrepend(q: seq<Node>, n: Node)
    ensures ViewOf([n] + q) == [n.View()] + ViewOf(q)
  {
    assert ([n] + q)[1..] == q;
  }

  lemma WithoutMiddle<T>(s: seq<T>, a: seq<T>, x: T, b: seq<T>)
    requires s == a + ([x] + b)
    ensures Without(s, |a|) == a + b
  {
    assert s[..|a|] == a && s[|a| + 1..] == b;
  }

  lemma Cut<T>(s: seq<T>, i: nat)
    requires i < |s|
    ensures s == s[..i] + ([s[i]] + s[i + 1..])
  {
  }

  lemma ViewOfMiddle(q: seq<Node>, a: seq<Node>, n: Node, b: seq<Node>)
    requires q == a + ([n] + b)
    ensures ViewOf(q) == ViewOf(a) + ([n.View()] + ViewOf(b))
    ensures ViewOf(Without(q, |a|)) == Without(ViewOf(q), |a|)
  {
    hide Node.View, ViewOf, Without;
    ViewConcat(a, [n] + b);
    ViewPrepend(b, n);
    ViewConcat(a, b);
    WithoutMiddle(q, a, n, b);
    WithoutMiddle(ViewOf(q), ViewOf(a), n.View(), ViewOf(b));
  }

  lemma ViewWithout(q: seq<Node>, i: nat)
    requires i < |q|
    ensures ViewOf(Without(q, i)) == Without(ViewOf(q), i)
  {
    hide ViewOf, Without;
    Cut(q, i);
    ViewOfMiddle(q, q[..i], q[i], q[i + 1..]);
  }

  twostate predicate Untouched(q: seq<Node>)
    reads q, Rings(q)
  {
    forall n :: n in q ==> unchanged(n) && unchanged(n.events)
  }

  /** Moving nodes around the queue changes none of them. */
  twostate lemma {:induction false} SameView(q: seq<Node>)
    requires Untouched(q)
    ensures ViewOf(q) == old(ViewOf(q))
  {
    if q != [] {
      assert forall n :: n in q[1..] ==> n in q;
      SameView(q[1..]);
    }
  }

  lemma ViewHasKey(q: seq<Node>, key: Key)
    ensures Tracked(ViewOf(q), key) <==> exists n :: n in q && n.key == key
  {
    var z := ViewOf(q);
    if Tracked(z, key) {
      ViewAt(q, Position(z, key));
      assert q[Position(z, key)] in q;
    }
    if n :| n in q && n.key == key {
      var i :| 0 <= i < |q| && q[i] == n;
      ViewAt(q, i);
    }
  }

  lemma UpdateMiddle<T>(s: seq<T>, a: seq<T>, x: T, b: seq<T>, y: T)
    requires s == a + ([x] + b)
    ensures s[|a| := y] == a + ([y] + b)
    ensures a == [] ==> s[|a| := y] == [y] + s[1..]
  {
  }

  function Refreshed(z: Entries, i: nat, now: Clock): Entries
    requires i < |z|
  {
    z[i := z[i].(seen := now)]
  }

  /** One turn of the eviction scan, and its end. */
  lemma EvictTurn(z: Entries, now: Clock, limit: nat, left: nat)
    ensures limit == 0 || z == [] ==> EvictScan(z, now, limit, left) == Eviction(z, false)
    ensures limit > 0 && z != [] ==>
              var n := |z| - 1;
              var rotated := [z[n]] + Without(z, n);
              EvictScan(z, now, limit, left) ==
                if z[n].blocked <= now then Eviction(Without(z, n), true)
                else if left <= 1 then Eviction(rotated, false)
                else EvictScan(rotated, now, limit - 1, left - 1)
  {
    if z != [] { assert Without(z, |z| - 1) == z[..|z| - 1]; }
  }

  /** Pruning takes an old event off the head of the ring. */
  lemma PruneHead(ring: seq<int>, head: nat, count: nat, cutoff: int)
    requires head < |ring| && count > 0 && ring[head] <= cutoff
    ensures Prune(RingOf(ring, head, count), cutoff)
         == Prune(RingOf(ring, (head + 1) % |ring|, count - 1), cutoff)
  {
    assert RingOf(ring, head, count)[1..] == RingOf(ring, (head + 1) % |ring|, count - 1);
  }

  /** It stops at an empty ring or a young head. */
  lemma PruneNoMore(ring: seq<int>, head: nat, count: nat, cutoff: int)
    requires head < |ring| && (count == 0 || ring[head] > cutoff)
    ensures Prune(RingOf(ring, head, count), cutoff) == RingOf(ring, head, count)
  {
  }

  class Zone {
    const policy: Policy
    /** ngx_crc32_short. */
    const crc: Key -> nat
    /** The LRU queue, head first. */
    var queue: seq<Node>
    var root: Tree

    /** Index and queue hold the same nodes, each identity once, in tree order. */
    ghost predicate Valid()
      reads this, queue, Rings(queue)
    {
      && (forall n :: n in queue ==> NodeOk(n))
      && Distinct(queue)
      && Ordered(root)
      && (forall n :: n in Nodes(root) ==> n in queue)
      && (forall n :: n in queue ==> n in Nodes(root))
    }

    ghost predicate NodeOk(n: Node)
      reads n
    {
      n.Ok(policy.threshold) && |n.key| <= DIGEST_LEN && n.hash == crc(n.key)
    }

    ghost function View(): (z: Entries)
      reads this, queue, Rings(queue)
      ensures |z| == |queue|
    {
      ViewOf(queue)
    }

    constructor (policy: Policy, crc: Key -> nat)
      ensures Valid() && this.policy == policy && this.crc == crc && View() == []
    {
      this.policy, this.crc := policy, crc;
      queue, root := [], Leaf;
    }

    /** The tree finds the node a scan of the queue would find. */
    method Lookup(hash: nat, key: Key) returns (found: Node?)
      requires Valid() && hash == crc(key)
      ensures found == null <==> !Tracked(View(), key)
      ensures found != null ==>
        found in queue && found.key == key && IndexOf(queue, found) == Position(View(), key)
    {
      found := Find(root, hash, key);
      ViewHasKey(queue, key);
      if found != null {
        var z, i := View(), Position(View(), key);
        ViewAt(queue, i);
        IndexIsUnique(queue, i);
        assert queue[i] == found by { SameKeySameNode(queue, i, found); }
      }
    }

    static lemma SameKeySameNode(q: seq<Node>, i: nat, n: Node)
      requires Distinct(q) && i < |q| && n in q && q[i].key == n.key
      ensures q[i] == n
    {
    }

    method Touch(ean: Node)
      requires Valid() && ean in queue
      modifies this`queue
      ensures Valid() && queue == [ean] + Without(old(queue), IndexOf(old(queue), ean))
      ensures var z, i := old(View()), IndexOf(old(queue), ean); View() == [z[i]] + Without(z, i)
    {
      hide ViewOf, Without, NodeOk, Distinct;
      ToHead(IndexOf(queue, ean));
      queue := [ean] + Without(queue, IndexOf(queue, ean));
      SameView(queue);
    }

    /** What a move to the head does to queue and view. */
    lemma ToHead(i: nat)
      requires Valid() && i < |queue|
      ensures var q := [queue[i]] + Without(queue, i);
              && Distinct(q) && (forall n :: n in q <==> n in queue)
              && ViewOf(q) == [View()[i]] + Without(View(), i)
    {
      hide ViewOf, NodeOk;
      LeftOut(queue, i);
      IndexIsUnique(queue, i);
      ViewAt(queue, i);
      forall m | m in Without(queue, i) ensures m.key != queue[i].key && m.events != queue[i].events {
        var j :| 0 <= j < |queue| && queue[j] == m;
      }
      HeadAdded(Without(queue, i), queue[i]);
      ViewWithout(queue, i);
      ViewPrepend(Without(queue, i), queue[i]);
    }

    method DeleteNode(ean: Node)
      requires Valid() && ean in queue
      modifies this`queue, this`root
      ensures Valid() && queue == Without(old(queue), IndexOf(old(queue), ean))
      ensures View() == Without(old(View()), IndexOf(old(queue), ean))
    {
      hide ViewOf, Without, Delete, NodeOk;
      LeftOut(queue, IndexOf(queue, ean));
      ViewWithout(queue, IndexOf(queue, ean));
      DeleteKeepsOrder(root, ean);
      queue := Without(queue, IndexOf(queue, ean));
      root := Delete(root, ean);
      SameView(queue);
    }

    lemma TailFacts()
      requires Valid() && queue != []
      ensures var q, z, n := queue, View(), |queue| - 1;
              && IndexOf(q, q[n]) == n && Without(q, n) == q[..n] && Without(z, n) == z[..n]
              && z[n].blocked == q[n].blockedUntil && z[n].seen == q[n].lastSeen
              && forall i :: 0 <= i < n ==> q[i] != q[n]
    {
      IndexIsUnique(queue, |queue| - 1);
      ViewAt(queue, |queue| - 1);
    }

    method ExpireTail(now: Clock, limit: nat)
      requires Valid()
      modifies this`queue, this`root
      ensures Valid() && queue <= old(queue)
      ensures View() == Expire(policy, old(View()), now, limit)
    {
      hide Valid, View, Without;
      var left := limit;
      while left > 0 && queue != []
        invariant Valid() && queue <= old(queue)
        invariant Expire(policy, View(), now, left) == Expire(policy, old(View()), now, limit)
      {
        left := left - 1;
        var ean := queue[|queue| - 1];
        TailFacts();
        if ean.blockedUntil > now || AddSaturate(ean.lastSeen, policy.inactive) > now {
          return;
        }
        DeleteNode(ean);
      }
    }

    method EvictOneUnblocked(now: Clock) returns (freed: bool)
      requires Valid()
      modifies this`queue, this`root
      ensures Valid() && (forall n :: n in queue ==> n in old(queue))
      ensures Eviction(View(), freed) == Evict(old(View()), now)
      ensures freed ==> |queue| < |old(queue)|
    {
      hide Valid, View, Without, IndexOf, EvictScan;
      var limit := EVICT_SCAN_LIMIT;
      var q: Node? := if queue == [] then null else queue[|queue| - 1];
      var stop: Node? := if queue == [] then null else queue[0];
      ghost var ahead: nat := |queue|;
      while limit > 0 && q != null
        invariant Valid() && (forall n :: n in queue ==> n in old(queue))
        invariant q == null <==> queue == []
        invariant |queue| == |old(queue)|
        invariant q != null ==>
          1 <= ahead <= |queue| && q == queue[|queue| - 1] && stop == queue[|queue| - ahead]
        invariant EvictScan(View(), now, limit, ahead) == Evict(old(View()), now)
        decreases limit
      {
        EvictTurn(View(), now, limit, ahead);
        limit := limit - 1;
        TailFacts();
        var next := QueuePrev(queue, q);
        if q.blockedUntil <= now {
          DeleteNode(q);
          return true;
        }
        Touch(q);
        if q == stop {
          return false;
        }
        q := next;
        ahead := ahead - 1;
      }
      EvictTurn(View(), now, limit, ahead);
      return false;
    }

    /** Allocation attempt i succeeds iff the slab grants it. */
    method CreateNode(hash: nat, key: Key, now: Clock, grants: seq<bool>) returns (ean: Node?)
      requires Valid() && hash == crc(key) && !Tracked(View(), key)
      modifies this`queue, this`root
      ensures Valid()
      ensures Placed(View(), ean != null) == Create(policy, old(View()), key, now, grants)
      ensures forall n :: n in queue ==> n in old(queue) || (n == ean && fresh(n) && fresh(n.events))
      ensures ean != null ==> queue != [] && ean == queue[0] && ean.key == key
    {
      hide Valid, View, Squeeze, Expire;
      if |key| > DIGEST_LEN { return null; }
      NoSuchNode(key);
      var granted := Granted(grants, 0);
      if !granted {
        ExpireTail(now, CREATE_EXPIRE_LIMIT);
        granted := Granted(grants, 1);
      }
      if !granted {
        granted := ForceRoom(key, now, grants);
      }
      if !granted { return null; }
      ean := Enter(hash, key, now);
    }

    lemma NoSuchNode(key: Key)
      requires !Tracked(View(), key)
      ensures forall n :: n in queue ==> n.key != key
    {
      ViewHasKey(queue, key);
    }

    /** SEC-1: force out unblocked nodes from the tail until an allocation succeeds. */
    method ForceRoom(key: Key, now: Clock, grants: seq<bool>) returns (granted: bool)
      requires Valid()
      modifies this`queue, this`root
      ensures Valid() && (forall n :: n in queue ==> n in old(queue))
      ensures Squeeze(old(View()), key, now, grants, 2)
           == Placed(if granted then [Newcomer(key, now)] + View() else View(), granted)
    {
      hide Valid, View, EvictScan;
      granted := false;
      var attempt, room := 2, true;
      while !granted && room
        invariant Valid() && (forall n :: n in queue ==> n in old(queue))
        invariant room || !granted
        invariant Squeeze(old(View()), key, now, grants, 2)
               == if granted then Placed([Newcomer(key, now)] + View(), true)
                  else if room then Squeeze(View(), key, now, grants, attempt)
                  else Placed(View(), false)
        decreases !granted, |queue|, room
      {
        room := EvictOneUnblocked(now);
        if room {
          granted := Granted(grants, attempt);
          attempt := attempt + 1;
        }
      }
    }

    /** A zeroed node of the identity, in the index and at the head of the queue. */
    method Enter(hash: nat, key: Key, now: Clock) returns (ean: Node)
      requires Valid() && hash == crc(key) && |key| <= DIGEST_LEN
      requires forall n :: n in queue ==> n.key != key
      modifies this`queue, this`root
      ensures Valid() && queue == [ean] + old(queue) && fresh(ean) && fresh(ean.events) && ean.key == key
      ensures View() == [Newcomer(key, now)] + old(View())
    {
      hide ViewOf, Insert, Node.View, Ordered, Nodes, Distinct, RingOf;
      ean := new Node(key, hash, policy.threshold, now);
      root := RbtreeInsert(root, ean);
      InsertKeepsOrder(old(root), ean);
      HeadAdded(queue, ean);
      queue := [ean] + queue;
      ViewPrepend(old(queue), ean);
      SameView(old(queue));
    }

    method PruneEvents(ean: Node, now: Clock)
      requires ean.Ok(policy.threshold)
      modifies ean`eventHead, ean`eventCount
      ensures ean.Ok(policy.threshold)
      ensures ean.View() == old(ean.View()).(events := Prune(old(ean.View()).events, now - policy.interval))
    {
      hide RingOf, Prune;
      var cutoff := now - policy.interval;
      while ean.eventCount > 0 && ean.events[ean.eventHead] <= cutoff
        invariant ean.Ok(policy.threshold)
        invariant Prune(ean.Live(), cutoff) == Prune(old(ean.Live()), cutoff)
        decreases ean.eventCount
      {
        PruneHead(ean.events[..], ean.eventHead, ean.eventCount, cutoff);
        ean.eventHead := (ean.eventHead + 1) % policy.threshold;
        ean.eventCount := ean.eventCount - 1;
      }
      PruneNoMore(ean.events[..], ean.eventHead, ean.eventCount, cutoff);
    }

    /** Only the node at index i and its ring changed, and the node is still in order. */
    twostate lemma {:induction false} NodeChanged(i: nat)
      requires old(Valid()) && i < |queue| && queue == old(queue) && root == old(root)
      requires NodeOk(queue[i]) && Untouched(queue[..i] + queue[i + 1..])
      ensures Valid()
    {
      Cut(queue, i);
      IndexIsUnique(queue, i);
    }

    lemma NodeAt(i: nat)
      requires Valid() && i < |queue|
      ensures View()[i] == queue[i].View() && queue[i].Ok(policy.threshold)
    {
      ViewAt(queue, i);
      assert queue[i] in queue;
    }

    /** The node at index i among the others. */
    lemma Around(i: nat)
      requires Valid() && i < |queue|
      ensures var a, n, b := queue[..i], queue[i], queue[i + 1..];
              && queue == a + ([n] + b)
              && View() == ViewOf(a) + ([n.View()] + ViewOf(b))
              && NodeOk(n) && n.Ok(policy.threshold) && n in queue
              && View()[i] == n.View()
              && forall m :: m in a || m in b ==> m in queue && m != n && m.events != n.events
    {
      hide ViewOf;
      assert queue[i] in queue;
      Cut(queue, i);
      ViewOfMiddle(queue, queue[..i], queue[i], queue[i + 1..]);
      IndexIsUnique(queue, i);
    }

    method FindTouchLocked(hash: nat, key: Key, now: Clock) returns (ean: Node?)
      requires Valid() && hash == crc(key)
      modifies this`queue, this`root, queue
      ensures Valid() && (forall n :: n in queue ==> n in old(queue))
      ensures Placed(View(), ean != null) == Arrive(policy, old(View()), key, now)
      ensures ean != null ==> queue != [] && ean == queue[0]
    {
      hide Expire, NodeOk, ViewOf, Distinct;
      ExpireTail(now, TOUCH_EXPIRE_LIMIT);
      label expired:
      ean := Lookup(hash, key);
      SameView@expired(queue);
      if ean == null { return; }
      ghost var kept, i := View(), Position(View(), key);
      Refresh(ean, now);
      Touch(ean);
      assert Without(Refreshed(kept, i, now), i) == Without(kept, i);
    }

    method Refresh(ean: Node, now: Clock)
      requires Valid() && ean in queue
      modifies ean`lastSeen
      ensures Valid()
      ensures View() == Refreshed(old(View()), IndexOf(queue, ean), now)
    {
      hide ViewOf, Ordered, Nodes, Distinct, IndexOf, RingOf;
      ghost var i, e := IndexOf(queue, ean), ean.View();
      ghost var va, vb := ViewOf(queue[..i]), ViewOf(queue[i + 1..]);
      Around(i);
      UpdateMiddle(View(), va, e, vb, e.(seen := now));
      ean.lastSeen := now;
      NodeChanged(i);
      SameView(queue[..i]);
      SameView(queue[i + 1..]);
      Around(i);
    }

    method Record(key: Key, now: Clock, grants: seq<bool>) returns (reply: Reply)
      requires Valid()
      modifies this`queue, this`root, queue, Rings(queue)
      ensures Valid()
      ensures Outcome(View(), reply) == ZoneModel.Record(policy, old(View()), key, now, grants)
      ensures forall n :: n in queue ==> n in old(queue) || (fresh(n) && fresh(n.events))
    {
      hide Valid, View, Arrive, Create, Count;
      var hash := crc(key);
      var ean := FindTouchLocked(hash, key, now);
      if ean == null {
        Missed(policy, old(View()), key, now);
        ean := CreateNode(hash, key, now, grants);
        if ean == null { return NoRoom; }
      }
      assert ean in old(queue) ==> ean.events in old(Rings(queue));
      reply := RecordHeadNode(ean, now);
    }

    static lemma Missed(p: Policy, z: Entries, key: Key, now: Clock)
      requires !Arrive(p, z, key, now).ok
      ensures !Tracked(Arrive(p, z, key, now).zone, key)
    {
    }

    method RecordHeadNode(ean: Node, now: Clock) returns (reply: Reply)
      requires Valid() && queue != [] && ean == queue[0]
      modifies ean, ean.events
      ensures Valid()
      ensures Outcome(View(), reply) == RecordHead(policy, old(View()), now)
    {
      hide Count, RingOf, ViewOf, Ordered, Nodes, Distinct;
      Around(0);
      ghost var z, vb := View(), ViewOf(queue[1..]);
      if ean.blockedUntil > now {
        return Answer(BUSY, policy.threshold, ean.blockedUntil);
      }
      Tally(ean, now);
      NodeChanged(0);
      SameView(queue[1..]);
      Around(0);
      UpdateMiddle(z, [], z[0], vb, ean.View());
      reply := Answer(if ean.blockedUntil > now then BUSY else OK,
                      if ean.blockedUntil > now then policy.threshold else ean.eventCount,
                      ean.blockedUntil);
    }

    method Lapse(ean: Node)
      requires ean.Ok(policy.threshold)
      modifies ean`blockedUntil, ean`eventHead, ean`eventCount
      ensures ean.Ok(policy.threshold) && ean.View() == ZoneModel.Lapse(old(ean.View()))
    {
      if ean.blockedUntil != 0 {
        ean.blockedUntil := 0;
        ean.eventHead := 0;
        ean.eventCount := 0;
      }
    }

    /** The part of record() that changes the node it stands on. */
    method Tally(ean: Node, now: Clock)
      requires ean.Ok(policy.threshold) && ean.blockedUntil <= now
      modifies ean, ean.events
      ensures ean.Ok(policy.threshold)
      ensures ean.View() == Count(policy, old(ean.View()), now)
    {
      Lapse(ean);
      PruneEvents(ean, now);
      Push(ean, now);
      if ean.eventCount >= policy.threshold {
        ean.blockedUntil := AddSaturate(now, policy.block);
        ean.eventHead := 0;
        ean.eventCount := 0;
      }
    }

    /** Write the slot behind the last live event. */
    method Push(ean: Node, now: Clock)
      requires ean.Ok(policy.threshold)
      modifies ean`eventCount, ean.events
      ensures ean.events.Length == policy.threshold && ean.eventHead < policy.threshold
      ensures ean.eventCount == old(ean.eventCount) + 1
      ensures ean.eventCount <= policy.threshold ==> ean.Live() == old(ean.Live()) + [now]
    {
      hide RingOf;
      ghost var ring := ean.events[..];
      var index := (ean.eventHead + ean.eventCount) % policy.threshold;
      ean.events[index] := now;
      ean.eventCount := ean.eventCount + 1;
      if ean.eventCount <= policy.threshold {
        assert ean.events[..] == ring[index := now];
        RingAppend(ring, ean.eventHead, ean.eventCount - 1, now);
      }
    }

    method IsBlocked(key: Key, now: Clock) returns (reply: Reply)
      requires Valid()
      modifies this`queue, this`root, queue
      ensures Valid()
      ensures Outcome(View(), reply) == ZoneModel.IsBlocked(policy, old(View()), key, now)
      ensures forall n :: n in queue ==> n in old(queue)
    {
      hide Valid, View, Arrive;
      var ean := FindTouchLocked(crc(key), key, now);
      if ean == null { return Answer(DECLINED, 0, 0); }
      assert ean in queue;
      reply := IsBlockedHeadNode(ean, now);
    }

    method Settle(ean: Node, now: Clock)
      requires ean.Ok(policy.threshold)
      modifies ean
      ensures ean.Ok(policy.threshold)
      ensures ean.View() == Settled(policy, old(ean.View()), now)
    {
      if ean.blockedUntil != 0 {
        Lapse(ean);
      } else {
        PruneEvents(ean, now);
      }
    }

    method IsBlockedHeadNode(ean: Node, now: Clock) returns (reply: Reply)
      requires Valid() && queue != [] && ean == queue[0]
      modifies ean
      ensures Valid()
      ensures Outcome(View(), reply) == IsBlockedHead(policy, old(View()), now)
    {
      hide RingOf, Settled, ViewOf, Ordered, Nodes, Distinct;
      Around(0);
      ghost var z, vb := View(), ViewOf(queue[1..]);
      if ean.blockedUntil > now {
        return Answer(OK, policy.threshold, ean.blockedUntil);
      }
      Settle(ean, now);
      NodeChanged(0);
      SameView(queue[1..]);
      Around(0);
      UpdateMiddle(z, [], z[0], vb, ean.View());
      reply := Answer(DECLINED, ean.eventCount, 0);
    }

    /** COR-2: the read-only prediction; it changes nothing. */
    method Peek(key: Key, now: Clock) returns (reply: Reply)
      requires Valid()
      ensures reply == ZoneModel.Peek(policy, View(), key, now)
    {
      hide ViewOf, NodeOk, Ordered, Nodes, Distinct, Node.Live, CountAbove, IndexOf;
      var ean := Lookup(crc(key), key);
      SameView(queue);
      if ean == null {
        return if policy.threshold <= 1
               then Prediction(policy.threshold, AddSaturate(now, policy.block), true)
               else Prediction(1, 0, false);
      }
      NodeAt(IndexOf(queue, ean));
      if ean.blockedUntil > now { return Prediction(policy.threshold, ean.blockedUntil, true); }
      var valid := CountInWindow(ean, now - policy.interval);
      SameView(queue);
      var count := valid + 1;
      reply := Prediction(count, if count >= policy.threshold then AddSaturate(now, policy.block) else 0,
                          count >= policy.threshold);
    }

    method CountInWindow(ean: Node, cutoff: int) returns (valid: nat)
      requires ean.Ok(policy.threshold)
      ensures valid == CountAbove(ean.Live(), cutoff)
    {
      hide RingOf, CountAbove;
      valid := 0;
      ghost var live := ean.Live();
      CountNothing(cutoff);
      for i := 0 to ean.eventCount
        invariant valid == CountAbove(live[..i], cutoff)
      {
        RingAt(ean.events[..], ean.eventHead, ean.eventCount, i);
        CountSnoc(live, i, cutoff);
        if ean.events[(ean.eventHead + i) % policy.threshold] > cutoff { valid := valid + 1; }
      }
      assert live[..ean.eventCount] == live;
    }
  }

  lemma CountNothing(cutoff: int)
    ensures CountAbove([], cutoff) == 0
  {
  }

  lemma {:induction false} CountSnoc(events: seq<int>, i: nat, cutoff: int)
    requires i < |events|
    ensures CountAbove(events[..i + 1], cutoff)
         == CountAbove(events[..i], cutoff) + if events[i] > cutoff then 1 else 0
  {
    if i > 0 {
      CountSnoc(events[1..], i - 1, cutoff);
      TakeTail(events, i + 1);
      TakeTail(events, i);
    }
  }
}

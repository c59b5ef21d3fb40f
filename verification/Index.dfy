/** The index over a zone's nodes, keyed by (crc32, digest). Nodes are the shared heap objects; the
    tree's shape is a value, since rebalancing and unlinking belong to the nginx core. */
module Index {
  import opened Times
  import opened ZoneModel

  // ---------------------------------------------------------------- the ring

  /** count events of the ring from head on. */
  function RingOf(ring: seq<int>, head: nat, count: nat): (r: seq<int>)
    requires head < |ring|
    ensures |r| == count
    decreases count
  {
    if count == 0 then [] else [ring[head]] + RingOf(ring, (head + 1) % |ring|, count - 1)
  }

  lemma Wrap(x: nat, n: nat)
    requires x < 2 * n
    ensures x % n == if x < n then x else x - n
  {
    if x >= n {
      assert x == n * 1 + (x - n);
      assert x / n == 1;
    }
  }

  lemma {:induction false} RingAt(ring: seq<int>, head: nat, count: nat, i: nat)
    requires head < |ring| && i < count <= |ring|
    ensures RingOf(ring, head, count)[i] == ring[(head + i) % |ring|]
    decreases count
  {
    var n := |ring|;
    Wrap(head + 1, n);
    Wrap(head + i, n);
    if i > 0 {
      Wrap((head + 1) % n + (i - 1), n);
      RingAt(ring, (head + 1) % n, count - 1, i - 1);
    }
  }

  /** Writing the slot behind the last live one appends; no live slot is overwritten. */
  lemma {:induction false} RingAppend(ring: seq<int>, head: nat, count: nat, x: int)
    requires head < |ring| && count < |ring|
    ensures var slot := (head + count) % |ring|;
            RingOf(ring[slot := x], head, count + 1) == RingOf(ring, head, count) + [x]
  {
    hide RingOf;
    var n := |ring|;
    var slot := (head + count) % n;
    Wrap(head + count, n);
    var next := ring[slot := x];
    var r := RingOf(next, head, count + 1);
    forall i | 0 <= i <= count
      ensures r[i] == if i < count then RingOf(ring, head, count)[i] else x
    {
      RingAt(next, head, count + 1, i);
      Wrap(head + i, n);
      if i < count { RingAt(ring, head, count, i); }
    }
  }

  /** A ring filled from slot 0 reads as written. */
  lemma RingFromZero(ring: seq<int>, count: nat)
    requires count <= |ring| && |ring| > 0
    ensures RingOf(ring, 0, count) == ring[..count]
  {
    forall i | 0 <= i < count ensures RingOf(ring, 0, count)[i] == ring[i] {
      RingAt(ring, 0, count, i);
      Wrap(i, |ring|);
    }
  }

  // ---------------------------------------------------------------- nodes

  class Node {
    const key: Key
    const hash: nat
    const events: array<int>
    var blockedUntil: int
    var lastSeen: int
    var eventHead: nat
    var eventCount: nat

    ghost predicate Ok(threshold: nat)
      reads this
    {
      && events.Length == threshold
      && eventHead < threshold
      && eventCount <= threshold
    }

    /** The live part of the ring, oldest slot first. */
    ghost function Live(): seq<int>
      reads this, events
    {
      if eventHead < events.Length then RingOf(events[..], eventHead, eventCount) else []
    }

    ghost function View(): Entry
      reads this, events
    {
      Entry(key, blockedUntil, lastSeen, Live())
    }

    /** A zeroed node, then stamped with its identity and the time. */
    constructor (key: Key, hash: nat, threshold: nat, now: Clock)
      requires threshold > 0
      ensures Ok(threshold) && fresh(events)
      ensures this.key == key && this.hash == hash && View() == Newcomer(key, now)
    {
      this.key, this.hash := key, hash;
      events := new int[threshold](_ => 0);
      blockedUntil, eventHead, eventCount := 0, 0, 0;
      lastSeen := now;
    }
  }

  // ---------------------------------------------------------------- the order of the index

  /** ngx_memn2cmp: bytewise, a proper prefix first. */
  function Compare(a: Key, b: Key): int
  {
    if a == [] then (if b == [] then 0 else -1)
    else if b == [] then 1
    else if a[0] != b[0] then (if a[0] < b[0] then -1 else 1)
    else Compare(a[1..], b[1..])
  }

  predicate Before(h: nat, a: Key, g: nat, b: Key)
  {
    h < g || (h == g && Compare(a, b) < 0)
  }

  lemma {:induction false} CompareTotal(a: Key, b: Key)
    ensures Compare(a, b) == 0 <==> a == b
    ensures Compare(a, b) < 0 <==> Compare(b, a) > 0
  {
    if a != [] && b != [] && a[0] == b[0] {
      CompareTotal(a[1..], b[1..]);
      assert a == [a[0]] + a[1..] && b == [b[0]] + b[1..];
    }
  }

  /** The order is the dictionary's: the first byte that differs decides, a proper prefix comes first. */
  lemma {:induction false} CompareIsLexicographic(a: Key, b: Key)
    ensures Compare(a, b) < 0
       <==> exists k: nat :: k <= |a| && k < |b| && a[..k] == b[..k] && (k == |a| || a[k] < b[k])
  {
    if a == [] {
      if b != [] { assert a[..0] == b[..0]; }
    } else if b != [] {
      if a[0] == b[0] {
        CompareIsLexicographic(a[1..], b[1..]);
        if k: nat :| k <= |a[1..]| && k < |b[1..]| && a[1..][..k] == b[1..][..k]
                     && (k == |a[1..]| || a[1..][k] < b[1..][k]) {
          assert a[..k + 1] == [a[0]] + a[1..][..k] && b[..k + 1] == [b[0]] + b[1..][..k];
        }
        if k: nat :| k <= |a| && k < |b| && a[..k] == b[..k] && (k == |a| || a[k] < b[k]) {
          assert k > 0;
          assert a[1..][..k - 1] == a[..k][1..] && b[1..][..k - 1] == b[..k][1..];
        }
      } else {
        assert a[..0] == b[..0];
        if k: nat :| k <= |a| && k < |b| && a[..k] == b[..k] && (k == |a| || a[k] < b[k]) {
          if k > 0 { assert a[..k][0] == b[..k][0]; }
        }
      }
    }
  }

  lemma {:induction false} CompareTransitive(a: Key, b: Key, c: Key)
    requires Compare(a, b) < 0 && Compare(b, c) < 0
    ensures Compare(a, c) < 0
  {
    if a != [] && a[0] == b[0] == c[0] { CompareTransitive(a[1..], b[1..], c[1..]); }
  }

  // ---------------------------------------------------------------- the tree

  datatype Tree = Leaf | Branch(left: Tree, node: Node, right: Tree)

  ghost function Nodes(t: Tree): set<Node>
  {
    match t
    case Leaf => {}
    case Branch(l, n, r) => Nodes(l) + {n} + Nodes(r)
  }

  ghost predicate NodeBefore(m: Node, n: Node)
  {
    Before(m.hash, m.key, n.hash, n.key)
  }

  /** Strictly ordered by (hash, key), so without a repeated identity. */
  ghost predicate Ordered(t: Tree)
  {
    match t
    case Leaf => true
    case Branch(l, n, r) =>
      && Ordered(l) && Ordered(r)
      && (forall m :: m in Nodes(l) ==> NodeBefore(m, n))
      && (forall m :: m in Nodes(r) ==> NodeBefore(n, m))
  }

  /** The walk of lookup(): left and right by hash, then by key. */
  method Find(root: Tree, hash: nat, key: Key) returns (found: Node?)
    requires Ordered(root)
    ensures found != null ==> found in Nodes(root) && found.hash == hash && found.key == key
    ensures found == null ==> forall m :: m in Nodes(root) ==> !(m.hash == hash && m.key == key)
  {
    var t := root;
    while t.Branch?
      invariant Ordered(t) && Nodes(t) <= Nodes(root)
      invariant forall m :: m in Nodes(root) && m.hash == hash && m.key == key ==> m in Nodes(t)
      decreases t
    {
      var node := t.node;
      CompareTotal(key, node.key);
      if hash < node.hash {
        t := t.left;
      } else if hash > node.hash {
        t := t.right;
      } else {
        var rc := Compare(key, node.key);
        if rc == 0 { return node; }
        t := if rc < 0 then t.left else t.right;
      }
    }
    return null;
  }

  datatype Side = L | R

  ghost predicate IsPath(t: Tree, path: seq<Side>)
  {
    path == [] || (t.Branch? && IsPath(if path[0] == L then t.left else t.right, path[1..]))
  }

  ghost function At(t: Tree, path: seq<Side>): Tree
    requires IsPath(t, path)
  {
    if path == [] then t else At(if path[0] == L then t.left else t.right, path[1..])
  }

  /** t with the link at the end of the path set to point to u. */
  function Plug(t: Tree, path: seq<Side>, u: Tree): Tree
  {
    if path == [] || t.Leaf? then u
    else if path[0] == L then t.(left := Plug(t.left, path[1..], u))
    else t.(right := Plug(t.right, path[1..], u))
  }

  /** Where a new node belongs. */
  function Insert(t: Tree, n: Node): Tree
  {
    match t
    case Leaf => Branch(Leaf, n, Leaf)
    case Branch(l, m, r) =>
      if Before(n.hash, n.key, m.hash, m.key) then Branch(Insert(l, n), m, r)
      else Branch(l, m, Insert(r, n))
  }

  lemma {:induction false} PathExtends(t: Tree, path: seq<Side>, s: Side)
    requires IsPath(t, path) && At(t, path).Branch?
    ensures IsPath(t, path + [s])
    ensures At(t, path + [s]) == if s == L then At(t, path).left else At(t, path).right
    ensures forall u: Tree :: Plug(t, path + [s], u) ==
              Plug(t, path, if s == L then At(t, path).(left := u) else At(t, path).(right := u))
  {
    if path == [] {
      assert path + [s] == [s];
    } else {
      assert (path + [s])[1..] == path[1..] + [s] && (path + [s])[0] == path[0];
      PathExtends(if path[0] == L then t.left else t.right, path[1..], s);
    }
  }

  /** The insert callback: walk to the sentinel the node belongs at and hang it there. */
  method RbtreeInsert(root: Tree, n: Node) returns (r: Tree)
    ensures r == Insert(root, n)
  {
    var temp := root;
    var path: seq<Side> := [];
    while temp.Branch?
      invariant IsPath(root, path) && At(root, path) == temp
      invariant Plug(root, path, Insert(temp, n)) == Insert(root, n)
      decreases temp
    {
      var m := temp.node;
      var side := if n.hash < m.hash then L
                  else if n.hash > m.hash then R
                  else if Compare(n.key, m.key) < 0 then L else R;
      PathExtends(root, path, side);
      path := path + [side];
      temp := if side == L then temp.left else temp.right;
    }
    r := Plug(root, path, Branch(Leaf, n, Leaf));
  }

  lemma {:induction false} InsertKeepsOrder(t: Tree, n: Node)
    requires Ordered(t)
    requires forall m :: m in Nodes(t) ==> !(m.hash == n.hash && m.key == n.key)
    ensures Ordered(Insert(t, n)) && Nodes(Insert(t, n)) == Nodes(t) + {n}
  {
    match t
    case Leaf =>
    case Branch(l, m, r) =>
      CompareTotal(n.key, m.key);
      CompareTotal(m.key, n.key);
      assert m in Nodes(t);
      if Before(n.hash, n.key, m.hash, m.key) { InsertKeepsOrder(l, n); } else { InsertKeepsOrder(r, n); }
  }

  /** An order-preserving removal, standing for ngx_rbtree_delete. */
  function Join(l: Tree, r: Tree): Tree
  {
    match l
    case Leaf => r
    case Branch(a, m, b) => Branch(a, m, Join(b, r))
  }

  function Delete(t: Tree, n: Node): Tree
  {
    match t
    case Leaf => Leaf
    case Branch(l, m, r) =>
      if m == n then Join(l, r)
      else if Before(n.hash, n.key, m.hash, m.key) then Branch(Delete(l, n), m, r)
      else Branch(l, m, Delete(r, n))
  }

  lemma {:induction false} JoinKeepsOrder(l: Tree, r: Tree)
    requires Ordered(l) && Ordered(r)
    requires forall a, b :: a in Nodes(l) && b in Nodes(r) ==> NodeBefore(a, b)
    ensures Ordered(Join(l, r)) && Nodes(Join(l, r)) == Nodes(l) + Nodes(r)
  {
    match l
    case Leaf =>
    case Branch(a, m, b) => JoinKeepsOrder(b, r);
  }

  lemma BeforeTransitive(a: Node, b: Node, c: Node)
    requires NodeBefore(a, b) && NodeBefore(b, c)
    ensures NodeBefore(a, c) && a != c
  {
    CompareTotal(a.key, c.key);
    if a.hash == b.hash == c.hash { CompareTransitive(a.key, b.key, c.key); }
  }

  lemma {:induction false} DeleteKeepsOrder(t: Tree, n: Node)
    requires Ordered(t) && n in Nodes(t)
    ensures Ordered(Delete(t, n)) && Nodes(Delete(t, n)) == Nodes(t) - {n}
  {
    match t
    case Branch(l, m, r) =>
      forall a, b | a in Nodes(l) && b in Nodes(r) ensures NodeBefore(a, b) && a != b {
        BeforeTransitive(a, m, b);
      }
      CompareTotal(m.key, m.key);
      CompareTotal(n.key, m.key);
      if m == n {
        JoinKeepsOrder(l, r);
      } else if Before(n.hash, n.key, m.hash, m.key) {
        DeleteKeepsOrder(l, n);
      } else {
        DeleteKeepsOrder(r, n);
      }
  }
}

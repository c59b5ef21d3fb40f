/** What a client of the zone can tell about one identity, and the ideal limiter every operation
    refines: the LRU queue, lazy expiry, pruning and the order of nodes are not observable. */
module Observation {
  import opened Times
  import opened ZoneModel
  import opened Upkeep
  import opened Durability

  /** The observable state of an identity: banned until a deadline, or its in-window events. */
  datatype Obs = Banned(until: int) | Open(window: seq<int>)

  function ObsOfEntry(p: Policy, e: Entry, now: Clock): Obs
  {
    if e.blocked > now then Banned(e.blocked)
    else if e.blocked != 0 then Open([])
    else Open(Prune(e.events, now - p.interval))
  }

  function ObsOf(p: Policy, z: Entries, key: Key, now: Clock): Obs
  {
    if Tracked(z, key) then ObsOfEntry(p, z[Position(z, key)], now) else Open([])
  }

  /** The passage of time, all that happens to an identity left alone. */
  function Age(p: Policy, o: Obs, now: Clock): Obs
  {
    match o
    case Banned(until) => if until > now then o else Open([])
    case Open(window) => Open(Prune(window, now - p.interval))
  }

  // ---------------------------------------------------------------- the ideal limiter

  function IdealReply(p: Policy, op: Op, o: Obs): Reply
  {
    match (op, o)
    case (DoRecord(_, _, _), Banned(until)) => Answer(BUSY, p.threshold, until)
    case (DoRecord(_, now, _), Open(window)) =>
      if |window| + 1 >= p.threshold then Answer(BUSY, p.threshold, AddSaturate(now, p.block))
      else Answer(OK, |window| + 1, 0)
    case (DoIsBlocked(_, _), Banned(until)) => Answer(OK, p.threshold, until)
    case (DoIsBlocked(_, _), Open(window)) => Answer(DECLINED, |window|, 0)
    case (DoPeek(_, _), Banned(until)) => Prediction(p.threshold, until, true)
    case (DoPeek(_, now), Open(window)) =>
      if |window| + 1 >= p.threshold then Prediction(p.threshold, AddSaturate(now, p.block), true)
      else Prediction(|window| + 1, 0, false)
  }

  function IdealNext(p: Policy, op: Op, o: Obs): Obs
  {
    if op.DoRecord? && o.Open? then
      if |o.window| + 1 >= p.threshold then Banned(AddSaturate(op.now, p.block))
      else Open(o.window + [op.now])
    else o
  }

  // ---------------------------------------------------------------- the strong invariant

  ghost predicate Ascending(events: seq<int>)
  {
    forall i, j :: 0 <= i < j < |events| ==> events[i] <= events[j]
  }

  /** A node as the module itself leaves it, with the clock never past t so far. */
  ghost predicate Healthy(p: Policy, e: Entry, t: Clock)
  {
    && |e.key| <= DIGEST_LEN
    && 0 <= e.seen <= t
    && |e.events| < p.threshold
    && Ascending(e.events)
    && (forall x :: x in e.events ==> 0 <= x <= e.seen)
    && 0 <= e.blocked <= AddSaturate(t, p.block)
    && (e.blocked != 0 ==> e.events == [])
  }

  ghost predicate Strong(p: Policy, z: Entries, t: Clock)
  {
    && Unique(z)
    && forall e :: e in z ==> Healthy(p, e, t)
  }

  // ---------------------------------------------------------------- pruning

  lemma {:induction false} PruneDropsPrefix(events: seq<int>, cutoff: int)
    ensures exists n :: 0 <= n <= |events| && Prune(events, cutoff) == events[n..]
                     && forall i :: 0 <= i < n ==> events[i] <= cutoff
    ensures var r := Prune(events, cutoff); r != [] ==> r[0] > cutoff
  {
    if events == [] || events[0] > cutoff {
      assert events == events[0..];
    } else {
      PruneDropsPrefix(events[1..], cutoff);
      var n :| 0 <= n <= |events[1..]| && Prune(events[1..], cutoff) == events[1..][n..]
            && forall i :: 0 <= i < n ==> events[1..][i] <= cutoff;
      assert events[1..][n..] == events[n + 1..];
      assert forall i :: 0 < i < n + 1 ==> events[i] == events[1..][i - 1];
    }
  }

  lemma PruneKeepsOrder(events: seq<int>, cutoff: int)
    requires Ascending(events)
    ensures var r := Prune(events, cutoff);
            && Ascending(r) && |r| <= |events|
            && (forall x :: x in r ==> x in events && x > cutoff)
  {
    PruneDropsPrefix(events, cutoff);
    var r := Prune(events, cutoff);
    forall x | x in r ensures x in events && x > cutoff {
      var i :| 0 <= i < |r| && r[i] == x;
      assert r[0] <= r[i];
    }
  }

  lemma {:induction false} PruneAll(events: seq<int>, cutoff: int)
    requires forall x :: x in events ==> x <= cutoff
    ensures Prune(events, cutoff) == []
  {
    if events != [] {
      assert forall x :: x in events[1..] ==> x in events;
      assert events[0] in events;
      PruneAll(events[1..], cutoff);
    }
  }

  lemma {:induction false} PruneTwice(events: seq<int>, c: int, d: int)
    requires c <= d
    ensures Prune(Prune(events, c), d) == Prune(events, d)
  {
    if events != [] && events[0] <= c { PruneTwice(events[1..], c, d); }
  }

  /** On a sorted ring the count peek takes over the whole ring is what pruning would leave. */
  lemma {:induction false} CountIsPrune(events: seq<int>, cutoff: int)
    requires Ascending(events)
    ensures CountAbove(events, cutoff) == |Prune(events, cutoff)|
  {
    if events != [] {
      CountIsPrune(events[1..], cutoff);
      if events[0] > cutoff {
        assert forall i :: 0 < i < |events| ==> events[i] > cutoff;
        assert events[1..] == [] || events[1..][0] > cutoff;
      }
    }
  }

  // ---------------------------------------------------------------- observing a zone

  lemma ObsOfMember(p: Policy, z: Entries, e: Entry, now: Clock)
    requires Unique(z) && e in z
    ensures ObsOf(p, z, e.key, now) == ObsOfEntry(p, e, now)
  {
    MemberIsFound(z, e);
  }

  lemma ObsOfStranger(p: Policy, z: Entries, key: Key, now: Clock)
    requires forall e :: e in z ==> e.key != key
    ensures ObsOf(p, z, key, now) == Open([])
  {
    Untracked(z, key);
  }

  /** A node past its inactivity time shows neither a ban nor an in-window event, then or later. */
  lemma StaleIsInvisible(p: Policy, e: Entry, t: Clock, now: Clock, later: Clock)
    requires Healthy(p, e, t) && Stale(p, e, now) && now <= later
    ensures ObsOfEntry(p, e, later) == Open([])
  {
    assert e.seen + p.inactive <= now;
    if e.blocked == 0 { PruneAll(e.events, later - p.interval); }
  }

  /** Dropping stale nodes changes no observation, at that moment or later. */
  lemma DroppingStaleIsInvisible(p: Policy, z: Entries, w: Entries, t: Clock, now: Clock,
                                 key: Key, later: Clock)
    requires Strong(p, w, t) && DropsFrom(z, w) && DropsOnlyStale(p, z, w, now) && now <= later
    ensures ObsOf(p, z, key, later) == ObsOf(p, w, key, later)
  {
    Untracked(z, key);
    Untracked(w, key);
    if e :| e in w && e.key == key {
      ObsOfMember(p, w, e, later);
      if e in z {
        ObsOfMember(p, z, e, later);
      } else {
        MemberIsFound(w, e);
        StaleIsInvisible(p, e, t, now, later);
      }
    } else {
      assert forall e :: e in z ==> e in w;
    }
  }

  /** Lazy expiry is observationally transparent, however many nodes it deletes. */
  lemma ExpiryIsTransparent(p: Policy, z: Entries, t: Clock, now: Clock, limit: nat,
                            key: Key, later: Clock)
    requires Strong(p, z, t) && now <= later
    ensures ObsOf(p, Expire(p, z, now, limit), key, later) == ObsOf(p, z, key, later)
    ensures Strong(p, Expire(p, z, now, limit), t)
  {
    ExpireDrops(p, z, now, limit);
    DroppingStaleIsInvisible(p, Expire(p, z, now, limit), z, t, now, key, later);
  }

  /** Observing later is observing now and letting time pass. */
  lemma ObservationAges(p: Policy, z: Entries, t: Clock, key: Key, now: Clock, later: Clock)
    requires Strong(p, z, t) && now <= later
    ensures ObsOf(p, z, key, later) == Age(p, ObsOf(p, z, key, now), later)
  {
    if Tracked(z, key) {
      var e := z[Position(z, key)];
      assert e in z;
      PruneTwice(e.events, now - p.interval, later - p.interval);
    }
  }

  // ---------------------------------------------------------------- one call

  /** The call treats the identity as the ideal limiter would: it does not force the identity's node
      out while that is not stale, and does not refuse its record for want of memory. */
  predicate Spares(p: Policy, z: Entries, op: Op, key: Key)
  {
    var o := Step(p, z, op);
    && (Tracked(z, key) && !Stale(p, z[Position(z, key)], op.now) ==> Tracked(o.zone, key))
    && (op.DoRecord? && op.key == key ==> o.reply != NoRoom)
  }

  lemma HealthyLater(p: Policy, z: Entries, t: Clock, now: Clock)
    requires Strong(p, z, t) && t <= now
    ensures Strong(p, z, now)
  {
  }

  /** Putting an entry at the head of a zone it has no rival in. */
  lemma ObsWithHead(p: Policy, h: Entry, rest: Entries, key: Key, now: Clock)
    requires Unique([h] + rest)
    ensures ObsOf(p, [h] + rest, key, now)
         == if key == h.key then ObsOfEntry(p, h, now) else ObsOf(p, rest, key, now)
  {
    var z := [h] + rest;
    assert z[1..] == rest;
    if key != h.key { assert Position(z, key) == 1 + Position(rest, key); }
  }

  lemma StrongSplit(p: Policy, h: Entry, rest: Entries, t: Clock)
    ensures Strong(p, [h] + rest, t)
        <==> Healthy(p, h, t) && Strong(p, rest, t) && forall e :: e in rest ==> e.key != h.key
  {
    var z := [h] + rest;
    assert forall i :: 0 <= i < |rest| ==> z[i + 1] == rest[i];
    assert h in z;
    if Strong(p, z, t) {
      forall e | e in rest ensures e.key != h.key {
        var i :| 0 <= i < |rest| && rest[i] == e;
        assert z[0].key != z[i + 1].key;
      }
      assert Unique(rest) by {
        forall i, j | 0 <= i < j < |rest| ensures rest[i].key != rest[j].key {
          assert z[i + 1].key != z[j + 1].key;
        }
      }
    }
  }

  lemma TouchedIsHealthy(p: Policy, e: Entry, t: Clock, now: Clock)
    requires Healthy(p, e, t) && t <= now
    ensures Healthy(p, e.(seen := now), now)
    ensures ObsOfEntry(p, e.(seen := now), now) == ObsOfEntry(p, e, now)
  {
  }

  /** Moving an entry to the head and refreshing it. */
  lemma TouchIsInvisible(p: Policy, z: Entries, t: Clock, i: nat, now: Clock)
    requires Strong(p, z, t) && t <= now && i < |z|
    ensures var r := [z[i].(seen := now)] + Without(z, i);
            && Strong(p, r, now)
            && ObsOfEntry(p, r[0], now) == ObsOf(p, z, z[i].key, now)
            && forall k :: ObsOf(p, r, k, now) == ObsOf(p, z, k, now)
  {
    hide Healthy, ObsOf, ObsOfEntry, Without;
    var h, rest := z[i].(seen := now), Without(z, i);
    assert z[i] in z;
    TouchedIsHealthy(p, z[i], t, now);
    WithoutKeeps(z, i);
    HealthyLater(p, z, t, now);
    StrongSplit(p, h, rest, now);
    ObsOfMember(p, z, z[i], now);
    forall k ensures ObsOf(p, [h] + rest, k, now) == ObsOf(p, z, k, now) {
      ObsWithHead(p, h, rest, k, now);
      if k != h.key {
        assert forall e :: e in rest <==> e in z && e.key != h.key;
        DroppedOnlyOthers(p, rest, z, h.key, k, now);
      }
    }
  }

  /** The zone at the moment a hit stands at the head looks to everyone as it did before. */
  lemma ArriveIsInvisible(p: Policy, z: Entries, t: Clock, key: Key, now: Clock)
    requires Strong(p, z, t) && t <= now
    ensures var a := Arrive(p, z, key, now);
            && Strong(p, a.zone, now)
            && (a.ok ==> ObsOfEntry(p, a.zone[0], now) == ObsOf(p, z, key, now))
            && (!a.ok ==> ObsOf(p, z, key, now) == Open([]) && !Tracked(a.zone, key))
            && forall k :: ObsOf(p, a.zone, k, now) == ObsOf(p, z, k, now)
  {
    hide Expire, Healthy, ObsOfEntry, Without;
    var kept := Expire(p, z, now, TOUCH_EXPIRE_LIMIT);
    forall k ensures Strong(p, kept, t) && ObsOf(p, kept, k, now) == ObsOf(p, z, k, now) {
      ExpiryIsTransparent(p, z, t, now, TOUCH_EXPIRE_LIMIT, k, now);
    }
    ExpiryIsTransparent(p, z, t, now, TOUCH_EXPIRE_LIMIT, key, now);
    HealthyLater(p, kept, t, now);
    if Tracked(kept, key) { TouchIsInvisible(p, kept, t, Position(kept, key), now); }
  }

  lemma DroppedOnlyOthers(p: Policy, z: Entries, w: Entries, gone: Key, key: Key, now: Clock)
    requires Unique(z) && Unique(w) && key != gone
    requires forall e :: e in z <==> e in w && e.key != gone
    ensures ObsOf(p, z, key, now) == ObsOf(p, w, key, now)
  {
    if e :| e in w && e.key == key {
      ObsOfMember(p, w, e, now);
      ObsOfMember(p, z, e, now);
    } else {
      ObsOfStranger(p, w, key, now);
      ObsOfStranger(p, z, key, now);
    }
  }

  /** Creation shows nothing either, unless it had to force out an unblocked node. */
  lemma CreateIsInvisible(p: Policy, z: Entries, key: Key, now: Clock, grants: seq<bool>)
    requires Strong(p, z, now) && !Tracked(z, key)
    ensures var b := Create(p, z, key, now, grants);
            && Strong(p, b.zone, now)
            && (b.ok ==> ObsOfEntry(p, b.zone[0], now) == Open([]))
            && (Granted(grants, 0) || Granted(grants, 1) ==>
                  forall k :: ObsOf(p, b.zone, k, now) == ObsOf(p, z, k, now))
  {
    var b := Create(p, z, key, now, grants);
    var rest := if b.ok then b.zone[1..] else b.zone;
    CreateDrops(p, z, key, now, grants);
    Untracked(z, key);
    assert Strong(p, rest, now);
    if b.ok { StrongSplit(p, b.zone[0], rest, now); }
    if Granted(grants, 0) || Granted(grants, 1) {
      forall k ensures ObsOf(p, b.zone, k, now) == ObsOf(p, z, k, now) {
        DroppingStaleIsInvisible(p, rest, z, now, now, k, now);
        if b.ok { ObsWithHead(p, b.zone[0], rest, k, now); }
      }
    }
  }

  /** Where a call finds its entry. */
  function Locate(p: Policy, z: Entries, op: Op): (r: Placed)
    requires !op.DoPeek?
    ensures r.ok ==> r.zone != [] && r.zone[0].key == op.key && r.zone[0].seen == op.now
  {
    if op.DoRecord? then FindOrCreate(p, z, op.key, op.now, op.grants)
    else Arrive(p, z, op.key, op.now)
  }

  lemma LocateIsInvisible(p: Policy, z: Entries, t: Clock, op: Op)
    requires Strong(p, z, t) && t <= op.now && !op.DoPeek?
    ensures var b := Locate(p, z, op);
            && Strong(p, b.zone, op.now)
            && (b.ok ==> ObsOfEntry(p, b.zone[0], op.now) == ObsOf(p, z, op.key, op.now))
            && (!b.ok && op.DoIsBlocked? ==>
                  ObsOf(p, z, op.key, op.now) == Open([]) && !Tracked(b.zone, op.key))
  {
    ArriveIsInvisible(p, z, t, op.key, op.now);
    var a := Arrive(p, z, op.key, op.now);
    if op.DoRecord? && !a.ok {
      ArriveDrops(p, z, op.key, op.now);
      CreateIsInvisible(p, a.zone, op.key, op.now, op.grants);
    }
  }

  /** Other identities' nodes are old ones, untouched. */
  lemma LocateInvents(p: Policy, z: Entries, op: Op)
    requires Unique(z) && !op.DoPeek?
    ensures forall e :: e in Locate(p, z, op).zone && e.key != op.key ==> e in z
  {
    hide Arrive, Create, Expire;
    var b := Locate(p, z, op);
    var kept := Expire(p, z, op.now, TOUCH_EXPIRE_LIMIT);
    ArriveDrops(p, z, op.key, op.now);
    if op.DoRecord? { CreateDrops(p, kept, op.key, op.now, op.grants); }
    if b.ok { assert b.zone == [b.zone[0]] + b.zone[1..]; }
  }

  /** An identity whose node is still there, or was stale, looks as before. */
  lemma OthersAreSpared(p: Policy, z: Entries, t: Clock, op: Op, key: Key)
    requires Strong(p, z, t) && t <= op.now && !op.DoPeek? && op.key != key
    requires Tracked(z, key) && !Stale(p, z[Position(z, key)], op.now) ==>
               Tracked(Locate(p, z, op).zone, key)
    ensures ObsOf(p, Locate(p, z, op).zone, key, op.now) == ObsOf(p, z, key, op.now)
  {
    hide Locate, ObsOfEntry, Healthy, Stale;
    var r := Locate(p, z, op).zone;
    LocateIsInvisible(p, z, t, op);
    LocateInvents(p, z, op);
    if Tracked(r, key) {
      var e := r[Position(r, key)];
      assert e in r && e.key == key;
      ObsOfMember(p, r, e, op.now);
      ObsOfMember(p, z, e, op.now);
    } else if Tracked(z, key) {
      var e := z[Position(z, key)];
      assert e in z;
      StaleIsInvisible(p, e, t, op.now, op.now);
    }
  }

  /** What a call leaves in the entry it stands on. */
  function ActOnEntry(p: Policy, op: Op, e: Entry): Entry
  {
    if e.blocked > op.now || op.DoPeek? then e
    else if op.DoRecord? then Count(p, e, op.now)
    else Settled(p, e, op.now)
  }

  /** What the caller is told, read off the entry as the call leaves it. */
  function ReplyFrom(p: Policy, op: Op, e: Entry): Reply
  {
    if op.DoRecord? then
      if e.blocked > op.now then Answer(BUSY, p.threshold, e.blocked)
      else Answer(OK, |e.events|, e.blocked)
    else
      if e.blocked > op.now then Answer(OK, p.threshold, e.blocked)
      else Answer(DECLINED, |e.events|, 0)
  }

  lemma StepActs(p: Policy, z: Entries, op: Op)
    requires !op.DoPeek?
    ensures var b, o := Locate(p, z, op), Step(p, z, op);
            if b.ok then
              var e := ActOnEntry(p, op, b.zone[0]);
              o == Outcome([e] + b.zone[1..], ReplyFrom(p, op, e))
            else o == Outcome(b.zone, if op.DoRecord? then NoRoom else Answer(DECLINED, 0, 0))
  {
    hide Arrive, FindOrCreate, Count, Prune;
    var b := Locate(p, z, op);
    if b.ok { assert b.zone == [b.zone[0]] + b.zone[1..]; }
  }

  lemma CountIsIdeal(p: Policy, op: Op, e: Entry)
    requires Healthy(p, e, op.now) && e.seen == op.now && op.DoRecord? && e.blocked <= op.now
    ensures var e' := Count(p, e, op.now);
            && Healthy(p, e', op.now) && e'.key == e.key
            && ObsOfEntry(p, e', op.now) == IdealNext(p, op, ObsOfEntry(p, e, op.now))
            && IdealReply(p, op, ObsOfEntry(p, e, op.now))
               == if e'.blocked > op.now then Answer(BUSY, p.threshold, e'.blocked)
                  else Answer(OK, |e'.events|, e'.blocked)
  {
    var cutoff := op.now - p.interval;
    var prior := Lapse(e).events;
    assert ObsOfEntry(p, e, op.now) == Open(Prune(prior, cutoff));
    DeadlineAhead(op.now, p.block);
    WindowGrows(prior, cutoff, op.now);
  }

  lemma WindowGrows(events: seq<int>, cutoff: int, now: Clock)
    requires Ascending(events) && cutoff < now && forall x :: x in events ==> 0 <= x <= now
    ensures var w := Prune(events, cutoff) + [now];
            && Ascending(w) && |w| <= |events| + 1 && Prune(w, cutoff) == w
            && forall x :: x in w ==> 0 <= x <= now
  {
    PruneKeepsOrder(events, cutoff);
    var r := Prune(events, cutoff);
    assert forall i :: 0 <= i < |r| ==> r[i] in r;
    assert (r + [now])[0] > cutoff;
  }

  lemma InquiryIsIdeal(p: Policy, op: Op, e: Entry)
    requires Healthy(p, e, op.now) && op.DoIsBlocked? && e.blocked <= op.now
    ensures var e' := ActOnEntry(p, op, e);
            && Healthy(p, e', op.now) && e'.key == e.key
            && ObsOfEntry(p, e', op.now) == ObsOfEntry(p, e, op.now)
            && ObsOfEntry(p, e, op.now) == Open(e'.events)
  {
    var cutoff := op.now - p.interval;
    PruneKeepsOrder(e.events, cutoff);
    PruneTwice(e.events, cutoff, cutoff);
  }

  lemma ActIsIdeal(p: Policy, op: Op, e: Entry)
    requires Healthy(p, e, op.now) && e.seen == op.now && !op.DoPeek?
    ensures var e' := ActOnEntry(p, op, e);
            && Healthy(p, e', op.now) && e'.key == e.key
            && ObsOfEntry(p, e', op.now) == IdealNext(p, op, ObsOfEntry(p, e, op.now))
            && ReplyFrom(p, op, e') == IdealReply(p, op, ObsOfEntry(p, e, op.now))
  {
    hide Count, Prune, Lapse;
    if e.blocked <= op.now {
      if op.DoRecord? { CountIsIdeal(p, op, e); } else { InquiryIsIdeal(p, op, e); }
    }
  }

  lemma PeekIsIdeal(p: Policy, z: Entries, t: Clock, op: Op)
    requires Strong(p, z, t) && t <= op.now && op.DoPeek?
    ensures Peek(p, z, op.key, op.now) == IdealReply(p, op, ObsOf(p, z, op.key, op.now))
  {
    if Tracked(z, op.key) {
      var e := z[Position(z, op.key)];
      assert e in z;
      var cutoff := op.now - p.interval;
      CountIsPrune(e.events, cutoff);
      PruneKeepsOrder(e.events, cutoff);
    }
  }

  /** What the ideal limiter asks of one call, given what it answered and left. */
  ghost predicate Ideal(p: Policy, z: Entries, op: Op, o: Outcome)
  {
    && Strong(p, o.zone, op.now)
    && (o.reply == NoRoom ==> op.DoRecord?)
    && (o.reply != NoRoom ==> o.reply == IdealReply(p, op, ObsOf(p, z, op.key, op.now)))
    && forall k :: Spares(p, z, op, k) ==>
         ObsOf(p, o.zone, k, op.now)
         == if k == op.key then IdealNext(p, op, ObsOf(p, z, k, op.now)) else ObsOf(p, z, k, op.now)
  }

  /** An entry replaced at the head changes the view of its own identity only. */
  lemma ObsAfterAct(p: Policy, h: Entry, h': Entry, rest: Entries, t: Clock)
    requires Strong(p, [h] + rest, t) && Healthy(p, h', t) && h'.key == h.key
    ensures Strong(p, [h'] + rest, t)
    ensures forall k :: ObsOf(p, [h'] + rest, k, t)
              == if k == h.key then ObsOfEntry(p, h', t) else ObsOf(p, [h] + rest, k, t)
  {
    hide Healthy, ObsOf, ObsOfEntry;
    StrongSplit(p, h, rest, t);
    StrongSplit(p, h', rest, t);
    forall k ensures ObsOf(p, [h'] + rest, k, t)
              == if k == h.key then ObsOfEntry(p, h', t) else ObsOf(p, [h] + rest, k, t)
    {
      ObsWithHead(p, h', rest, k, t);
      ObsWithHead(p, h, rest, k, t);
    }
  }

  lemma SameKeysTracked(h: Entry, h': Entry, rest: Entries, key: Key)
    requires h.key == h'.key
    ensures Tracked([h] + rest, key) <==> Tracked([h'] + rest, key)
  {
    assert ([h] + rest)[1..] == rest == ([h'] + rest)[1..];
  }

  lemma CallIsIdeal(p: Policy, z: Entries, t: Clock, op: Op)
    requires Strong(p, z, t) && t <= op.now && !op.DoPeek?
    ensures Ideal(p, z, op, Step(p, z, op))
  {
    hide Step, Locate, ActOnEntry, IdealReply, IdealNext, Healthy, ObsOfEntry, ObsOf, Stale;
    LocateIsInvisible(p, z, t, op);
    StepActs(p, z, op);
    var b := Locate(p, z, op);
    if b.ok {
      var h, rest := b.zone[0], b.zone[1..];
      assert b.zone == [h] + rest && h in b.zone;
      ActIsIdeal(p, op, h);
      ObsAfterAct(p, h, ActOnEntry(p, op, h), rest, op.now);
      forall k | Spares(p, z, op, k) && k != op.key
        ensures ObsOf(p, Step(p, z, op).zone, k, op.now) == ObsOf(p, z, k, op.now)
      {
        SameKeysTracked(h, ActOnEntry(p, op, h), rest, k);
        OthersAreSpared(p, z, t, op, k);
      }
    } else {
      forall k | Spares(p, z, op, k) && k != op.key
        ensures ObsOf(p, Step(p, z, op).zone, k, op.now) == ObsOf(p, z, k, op.now)
      {
        OthersAreSpared(p, z, t, op, k);
      }
      if op.DoIsBlocked? {
        MissIsIdeal(p, op);
        UntrackedIsOpen(p, b.zone, op.key, op.now);
      }
    }
  }

  lemma UntrackedIsOpen(p: Policy, z: Entries, key: Key, now: Clock)
    requires !Tracked(z, key)
    ensures ObsOf(p, z, key, now) == Open([])
  {
  }

  lemma MissIsIdeal(p: Policy, op: Op)
    requires op.DoIsBlocked?
    ensures IdealReply(p, op, Open([])) == Answer(DECLINED, 0, 0)
    ensures forall o :: IdealNext(p, op, o) == o
  {
  }

  /** Every call keeps the strong invariant and, unless it was refused a node, answers exactly what
      the ideal limiter answers for that identity. Every identity it spared looks afterwards as the
      ideal limiter leaves it: only the one called for can have changed. */
  lemma StepIsIdeal(p: Policy, z: Entries, t: Clock, op: Op)
    requires Strong(p, z, t) && t <= op.now
    ensures Ideal(p, z, op, Step(p, z, op))
  {
    if op.DoPeek? {
      HealthyLater(p, z, t, op.now);
      PeekIsIdeal(p, z, t, op);
    } else {
      CallIsIdeal(p, z, t, op);
    }
  }

  lemma ActKeepsKey(p: Policy, op: Op, e: Entry)
    ensures ActOnEntry(p, op, e).key == e.key
  {
  }

  lemma StepTracks(p: Policy, z: Entries, op: Op, key: Key)
    requires !op.DoPeek?
    ensures Tracked(Step(p, z, op).zone, key) <==> Tracked(Locate(p, z, op).zone, key)
    ensures Step(p, z, op).reply == NoRoom <==> op.DoRecord? && !Locate(p, z, op).ok
  {
    hide Locate, ActOnEntry, Step, Tracked;
    var b := Locate(p, z, op);
    StepActs(p, z, op);
    if b.ok {
      assert b.zone == [b.zone[0]] + b.zone[1..];
      ActKeepsKey(p, op, b.zone[0]);
      SameKeysTracked(b.zone[0], ActOnEntry(p, op, b.zone[0]), b.zone[1..], key);
    }
  }

  /** A ban that has ended takes the whole ring with it, also that of a node out of a foreign snapshot:
      record counts from one, is_blocked from nothing. */
  lemma LapsedStartsAfresh(p: Policy, e: Entry, rest: Entries, now: Clock)
    requires e.blocked != 0 && e.blocked <= now
    ensures IsBlockedHead(p, [e] + rest, now)
         == Outcome([Entry(e.key, 0, e.seen, [])] + rest, Answer(DECLINED, 0, 0))
    ensures RecordHead(p, [e] + rest, now)
         == if p.threshold > 1 then Outcome([Entry(e.key, 0, e.seen, [now])] + rest, Answer(OK, 1, 0))
            else Outcome([Entry(e.key, AddSaturate(now, p.block), e.seen, [])] + rest,
                         Answer(BUSY, 1, AddSaturate(now, p.block)))
  {
    hide AddSaturateAt;
    assert ([e] + rest)[1..] == rest;
    assert Prune([], now - p.interval) + [now] == [now];
    DeadlineAhead(now, p.block);
  }

  /** A record call can only fail to spare an identity when its first two allocations are refused. */
  lemma CalmSparesAll(p: Policy, z: Entries, op: Op, key: Key)
    requires Unique(z)
    requires op.DoRecord? && !Tracked(Expire(p, z, op.now, TOUCH_EXPIRE_LIMIT), op.key) ==>
               |op.key| <= DIGEST_LEN && (Granted(op.grants, 0) || Granted(op.grants, 1))
    ensures Spares(p, z, op, key)
  {
    hide Expire, Stale, Squeeze, Step, Tracked;
    if !op.DoPeek? {
      StepTracks(p, z, op, key);
      CalmKeepsFresh(p, z, op);
      Untracked(Locate(p, z, op).zone, key);
      if Tracked(z, key) { MemberAt(z, key); }
    } else {
      PeekChangesNothing(p, z, op);
    }
  }

  lemma MemberAt(z: Entries, key: Key)
    requires Tracked(z, key)
    ensures z[Position(z, key)] in z && z[Position(z, key)].key == key
  {
  }

  lemma PeekChangesNothing(p: Policy, z: Entries, op: Op)
    requires op.DoPeek?
    ensures Step(p, z, op).zone == z
  {
  }

  lemma CalmKeepsFresh(p: Policy, z: Entries, op: Op)
    requires Unique(z) && !op.DoPeek?
    requires op.DoRecord? && !Tracked(Expire(p, z, op.now, TOUCH_EXPIRE_LIMIT), op.key) ==>
               |op.key| <= DIGEST_LEN && (Granted(op.grants, 0) || Granted(op.grants, 1))
    ensures op.DoRecord? ==> Locate(p, z, op).ok
    ensures forall e :: e in z && !Stale(p, e, op.now) ==>
              exists f :: f in Locate(p, z, op).zone && f.key == e.key
  {
    hide Expire, Stale, Squeeze;
    var b, kept := Locate(p, z, op), Expire(p, z, op.now, TOUCH_EXPIRE_LIMIT);
    ArriveDrops(p, z, op.key, op.now);
    if op.DoRecord? { CreateDrops(p, kept, op.key, op.now, op.grants); }
    assert b.ok ==> b.zone == [b.zone[0]] + b.zone[1..];
    forall e | e in z && !Stale(p, e, op.now)
      ensures exists f :: f in b.zone && f.key == e.key
    {
      assert e in kept;
      if e.key == op.key {
        Untracked(kept, op.key);
        assert b.zone[0] in b.zone;
      } else {
        assert e in b.zone;
      }
    }
  }
}

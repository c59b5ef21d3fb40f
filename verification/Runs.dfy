/** Whole runs of the zone against an ideal limiter that never forgets: exact for every identity that
    keeps its node, however full the zone, and never a false ban for any. */
module Runs {
  import opened Times
  import opened ZoneModel
  import opened Upkeep
  import opened Observation

  /** COR-2: what dry-run reports is what enforcement would have answered at that moment. */
  lemma DryRunIsExact(p: Policy, z: Entries, t: Clock, key: Key, now: Clock, grants: seq<bool>)
    requires Strong(p, z, t) && t <= now
    requires Record(p, z, key, now, grants).reply != NoRoom
    ensures var r := Record(p, z, key, now, grants).reply;
            r.Answer? && Peek(p, z, key, now) == Prediction(r.count, r.until, r.rc == BUSY)
  {
    hide Record, Peek, Strong, ObsOf;
    StepIsIdeal(p, z, t, DoRecord(key, now, grants));
    StepIsIdeal(p, z, t, DoPeek(key, now));
  }

  // ---------------------------------------------------------------- indistinguishable zones

  ghost predicate Alike(p: Policy, z: Entries, w: Entries, t: Clock)
  {
    forall k :: ObsOf(p, z, k, t) == ObsOf(p, w, k, t)
  }

  /** No call of the run forces the identity's node out while it is not stale, nor refuses its record;
      whatever happens to the others. */
  predicate SparedRun(p: Policy, z: Entries, ops: seq<Op>, key: Key)
    decreases |ops|
  {
    ops != [] ==> Spares(p, z, ops[0], key) && SparedRun(p, Step(p, z, ops[0]).zone, ops[1..], key)
  }

  lemma AlikeStep(p: Policy, z: Entries, w: Entries, t: Clock, op: Op, key: Key)
    requires Strong(p, z, t) && Strong(p, w, t) && ObsOf(p, z, key, t) == ObsOf(p, w, key, t)
    requires t <= op.now && Spares(p, z, op, key) && Spares(p, w, op, key)
    ensures var a, b := Step(p, z, op), Step(p, w, op);
            && (op.key == key ==> a.reply == b.reply)
            && Strong(p, a.zone, op.now) && Strong(p, b.zone, op.now)
            && ObsOf(p, a.zone, key, op.now) == ObsOf(p, b.zone, key, op.now)
  {
    hide Step, Strong, IdealReply, IdealNext, ObsOf, Stale, Tracked;
    ObservationAges(p, z, t, key, t, op.now);
    ObservationAges(p, w, t, key, t, op.now);
    StepIsIdeal(p, z, t, op);
    StepIsIdeal(p, w, t, op);
  }

  /** Zones in which an identity looks the same answer every later call on it alike, as long as they
      both keep its node. */
  lemma {:induction false} AlikeRuns(p: Policy, z: Entries, w: Entries, t: Clock, ops: seq<Op>, key: Key)
    requires Strong(p, z, t) && Strong(p, w, t) && ObsOf(p, z, key, t) == ObsOf(p, w, key, t)
    requires Monotone(ops, t) && SparedRun(p, z, ops, key) && SparedRun(p, w, ops, key)
    ensures |Replies(p, z, ops)| == |Replies(p, w, ops)| == |ops|
    ensures forall i :: 0 <= i < |ops| && ops[i].key == key ==> Replies(p, z, ops)[i] == Replies(p, w, ops)[i]
    decreases |ops|
  {
    hide Step, Strong, Spares, ObsOf;
    if ops != [] {
      AlikeStep(p, z, w, t, ops[0], key);
      AlikeRuns(p, Step(p, z, ops[0]).zone, Step(p, w, ops[0]).zone, ops[0].now, ops[1..], key);
    }
  }

  lemma {:induction false} StrongAlways(p: Policy, z: Entries, t: Clock, ops: seq<Op>)
    requires Strong(p, z, t) && Monotone(ops, t)
    ensures Strong(p, After(p, z, ops), if ops == [] then t else ops[|ops| - 1].now)
    decreases |ops|
  {
    hide Step, Strong;
    if ops != [] {
      StepIsIdeal(p, z, t, ops[0]);
      StrongAlways(p, Step(p, z, ops[0]).zone, ops[0].now, ops[1..]);
    }
  }

  // ---------------------------------------------------------------- the reference limiter

  /** All that was recorded for an identity since its last ban ended, and that ban. */
  datatype Log = Log(ban: int, times: seq<int>)

  type Logs = map<Key, Log>

  function LogOf(m: Logs, key: Key): Log
  {
    if key in m then m[key] else Log(0, [])
  }

  function Lapsed(l: Log, now: Clock): Log
  {
    if l.ban != 0 && l.ban <= now then Log(0, []) else l
  }

  /** The n-th record since the reset trips the limit iff n >= threshold and it came less than an
      interval after the record threshold - 1 places before it. */
  predicate Trips(p: Policy, times: seq<int>)
  {
    var n := |times|;
    n >= p.threshold && times[n - 1] - times[n - p.threshold] < p.interval
  }

  function LogReply(p: Policy, op: Op, l: Log): Reply
    requires l.ban <= op.now
  {
    var hits := CountAbove(l.times, op.now - p.interval);
    var tripped := Trips(p, l.times + [op.now]);
    match op
    case DoRecord(_, now, _) =>
      if tripped then Answer(BUSY, p.threshold, AddSaturate(now, p.block)) else Answer(OK, hits + 1, 0)
    case DoIsBlocked(_, _) => Answer(DECLINED, hits, 0)
    case DoPeek(_, now) =>
      Prediction(hits + 1, if tripped then AddSaturate(now, p.block) else 0, tripped)
  }

  function LogNext(p: Policy, op: Op, l: Log): Log
  {
    if l.ban > op.now || !op.DoRecord? then l
    else if Trips(p, l.times + [op.now]) then Log(AddSaturate(op.now, p.block), [])
    else Log(0, l.times + [op.now])
  }

  function LogStep(p: Policy, m: Logs, op: Op): (Logs, Reply)
  {
    var l := Lapsed(LogOf(m, op.key), op.now);
    (m[op.key := LogNext(p, op, l)],
     if l.ban > op.now then IdealReply(p, op, Banned(l.ban)) else LogReply(p, op, l))
  }

  function LogReplies(p: Policy, m: Logs, ops: seq<Op>): seq<Reply>
    decreases |ops|
  {
    if ops == [] then []
    else
      var (m', reply) := LogStep(p, m, ops[0]);
      [reply] + LogReplies(p, m', ops[1..])
  }

  function ObsOfLog(p: Policy, l: Log, now: Clock): Obs
  {
    if l.ban > now then Banned(l.ban)
    else if l.ban != 0 then Open([])
    else Open(Prune(l.times, now - p.interval))
  }

  ghost predicate GoodLog(l: Log, t: Clock)
  {
    && l.ban >= 0
    && Ascending(l.times)
    && forall x :: x in l.times ==> 0 <= x <= t
  }

  /** The identity looks as its full log says it should. */
  ghost predicate Mirrors(p: Policy, z: Entries, l: Log, key: Key, t: Clock)
  {
    GoodLog(l, t) && ObsOf(p, z, key, t) == ObsOfLog(p, l, t)
  }

  /** The window holds the threshold iff the record that far back is younger than the interval. */
  lemma {:induction false} TripsMeansWindow(p: Policy, times: seq<int>, now: int)
    requires Ascending(times + [now])
    ensures Trips(p, times + [now]) <==> |Prune(times, now - p.interval)| + 1 >= p.threshold
  {
    var all := times + [now];
    var cutoff := now - p.interval;
    PruneDropsPrefix(times, cutoff);
    var n :| 0 <= n <= |times| && Prune(times, cutoff) == times[n..]
          && forall i :: 0 <= i < n ==> times[i] <= cutoff;
    var k := |all| - p.threshold;
    if n <= k < |times| { assert all[n] <= all[k] && all[n] == times[n]; }
    if 0 <= k < n { assert all[k] == times[k]; }
  }

  lemma LogAges(p: Policy, l: Log, t: Clock, now: Clock)
    requires GoodLog(l, t) && t <= now
    ensures ObsOfLog(p, l, now) == Age(p, ObsOfLog(p, l, t), now)
    ensures ObsOfLog(p, Lapsed(l, now), now) == ObsOfLog(p, l, now)
    ensures GoodLog(Lapsed(l, now), now)
  {
    PruneTwice(l.times, t - p.interval, now - p.interval);
  }

  /** A log observed as the ideal limiter's window answers and moves as the ideal limiter does. */
  lemma LogIsIdeal(p: Policy, l: Log, op: Op)
    requires GoodLog(l, op.now) && (l.ban == 0 || l.ban > op.now)
    requires l.ban == 0 ==> |Prune(l.times, op.now - p.interval)| < p.threshold
    ensures var o := ObsOfLog(p, l, op.now);
            && (l.ban <= op.now ==> LogReply(p, op, l) == IdealReply(p, op, o))
            && ObsOfLog(p, LogNext(p, op, l), op.now) == IdealNext(p, op, o)
            && GoodLog(LogNext(p, op, l), op.now)
  {
    hide Prune, CountAbove, Trips, AddSaturateAt;
    if l.ban <= op.now {
      var cutoff := op.now - p.interval;
      var times := l.times + [op.now];
      assert forall i :: 0 <= i < |l.times| ==> l.times[i] in l.times;
      assert Ascending(times);
      TripsMeansWindow(p, l.times, op.now);
      CountIsPrune(l.times, cutoff);
      DeadlineAhead(op.now, p.block);
      PruneAppend(l.times, op.now, cutoff);
    }
  }

  lemma {:induction false} PruneAppend(events: seq<int>, x: int, cutoff: int)
    requires x > cutoff
    ensures Prune(events + [x], cutoff) == Prune(events, cutoff) + [x]
  {
    if events == [] {
      assert events + [x] == [x];
    } else {
      assert (events + [x])[1..] == events[1..] + [x];
      PruneAppend(events[1..], x, cutoff);
    }
  }

  lemma MirrorsStep(p: Policy, z: Entries, m: Logs, t: Clock, op: Op, key: Key)
    requires Strong(p, z, t) && Mirrors(p, z, LogOf(m, key), key, t) && t <= op.now && Spares(p, z, op, key)
    ensures var o := Step(p, z, op);
            var (m', reply) := LogStep(p, m, op);
            && (op.key == key ==> o.reply == reply)
            && Strong(p, o.zone, op.now) && Mirrors(p, o.zone, LogOf(m', key), key, op.now)
  {
    hide Step, ObsOf, LogNext, LogReply, Prune, Strong, Stale, Tracked;
    StepIsIdeal(p, z, t, op);
    ObservationAges(p, z, t, key, t, op.now);
    LogAges(p, LogOf(m, key), t, op.now);
    var (m', _) := LogStep(p, m, op);
    if key == op.key {
      WindowBelowThreshold(p, z, t, key, op.now);
      LogIsIdeal(p, Lapsed(LogOf(m, key), op.now), op);
    } else {
      assert LogOf(m', key) == LogOf(m, key);
    }
  }

  lemma WindowBelowThreshold(p: Policy, z: Entries, t: Clock, key: Key, now: Clock)
    requires Strong(p, z, t)
    ensures match ObsOf(p, z, key, now) case Banned(_) => true case Open(w) => |w| < p.threshold
  {
    if Tracked(z, key) {
      var e := z[Position(z, key)];
      assert e in z;
      PruneKeepsOrder(e.events, now - p.interval);
    }
  }

  /** The zone with its bounded rings, pruning, LRU queue, lazy expiry and forced eviction answers
      every call on a spared identity as the reference limiter with its complete logs. */
  lemma {:induction false} RunRefinesLog(p: Policy, z: Entries, m: Logs, t: Clock, ops: seq<Op>, key: Key)
    requires Strong(p, z, t) && Mirrors(p, z, LogOf(m, key), key, t)
    requires Monotone(ops, t) && SparedRun(p, z, ops, key)
    ensures |Replies(p, z, ops)| == |LogReplies(p, m, ops)| == |ops|
    ensures forall i :: 0 <= i < |ops| && ops[i].key == key
              ==> Replies(p, z, ops)[i] == LogReplies(p, m, ops)[i]
    decreases |ops|
  {
    hide Step, Strong, Mirrors, LogStep, Spares;
    if ops != [] {
      MirrorsStep(p, z, m, t, ops[0], key);
      var (m', _) := LogStep(p, m, ops[0]);
      RunRefinesLog(p, Step(p, z, ops[0]).zone, m', ops[0].now, ops[1..], key);
    }
  }

  /** From a fresh zone. */
  lemma FreshZoneIsExact(p: Policy, ops: seq<Op>, key: Key)
    requires Monotone(ops, 0) && SparedRun(p, [], ops, key)
    ensures |Replies(p, [], ops)| == |LogReplies(p, map[], ops)| == |ops|
    ensures forall i :: 0 <= i < |ops| && ops[i].key == key
              ==> Replies(p, [], ops)[i] == LogReplies(p, map[], ops)[i]
  {
    RunRefinesLog(p, [], map[], 0, ops, key);
  }

  // ---------------------------------------------------------------- no false bans

  /** A call and what its caller was told. */
  datatype Exchange = Exchange(op: Op, reply: Reply)
  {
    predicate Recorded(key: Key)
    {
      op.DoRecord? && op.key == key && reply.Answer?
    }
  }

  function Transcript(p: Policy, z: Entries, ops: seq<Op>): (h: seq<Exchange>)
    ensures |h| == |ops|
    decreases |ops|
  {
    if ops == [] then []
    else
      var o := Step(p, z, ops[0]);
      [Exchange(ops[0], o.reply)] + Transcript(p, o.zone, ops[1..])
  }

  lemma {:induction false} TranscriptIs(p: Policy, z: Entries, ops: seq<Op>)
    ensures |Replies(p, z, ops)| == |ops|
    ensures forall i :: 0 <= i < |ops| ==> Transcript(p, z, ops)[i] == Exchange(ops[i], Replies(p, z, ops)[i])
    decreases |ops|
  {
    hide Step;
    if ops != [] { TranscriptIs(p, Step(p, z, ops[0]).zone, ops[1..]); }
  }

  /** Record calls for key answered OK after cutoff, since the last one answered BUSY. */
  function Since(hist: seq<Exchange>, key: Key, cutoff: int): nat
  {
    if hist == [] then 0
    else
      var x, before := hist[|hist| - 1], hist[..|hist| - 1];
      if !x.Recorded(key) then Since(before, key, cutoff)
      else if x.reply.rc == BUSY then 0
      else Since(before, key, cutoff) + if x.op.now > cutoff then 1 else 0
  }

  /** Enough records for a ban now, this one included. */
  predicate Suffices(p: Policy, hist: seq<Exchange>, key: Key, now: Clock)
  {
    Since(hist, key, now - p.interval) + 1 >= p.threshold
  }

  /** Some record call i of the history, told so, set this deadline: with it, the identity had at least
      threshold counted records inside the interval since it was last told of a ban. */
  ghost predicate Justified(p: Policy, hist: seq<Exchange>, key: Key, deadline: int)
  {
    exists i :: 0 <= i < |hist| && JustifiedAt(p, hist, i, key, deadline)
  }

  ghost predicate JustifiedAt(p: Policy, hist: seq<Exchange>, i: nat, key: Key, deadline: int)
    requires i < |hist|
  {
    var op := hist[i].op;
    && op.DoRecord? && op.key == key
    && deadline == AddSaturate(op.now, p.block) && hist[i].reply == Answer(BUSY, p.threshold, deadline)
    && Suffices(p, hist[..i], key, op.now)
  }

  /** A ban the last call of the history was told of is justified; a ban a peek predicts is either that
      or one a record call now would justify. */
  ghost predicate Earned(p: Policy, hist: seq<Exchange>)
    requires hist != []
  {
    var op, reply := hist[|hist| - 1].op, hist[|hist| - 1].reply;
    match op
    case DoRecord(key, _, _) => reply.Answer? && reply.rc == BUSY ==> Justified(p, hist, key, reply.until)
    case DoIsBlocked(key, _) => reply.Answer? && reply.rc == OK ==> Justified(p, hist, key, reply.until)
    case DoPeek(key, now) =>
      reply.Prediction? && reply.wouldBlock ==>
        || Justified(p, hist, key, reply.until)
        || (reply.until == AddSaturate(now, p.block) && Suffices(p, hist, key, now))
  }

  ghost predicate BackedEntry(p: Policy, e: Entry, hist: seq<Exchange>)
  {
    && (forall c :: CountAbove(e.events, c) <= Since(hist, e.key, c))
    && (e.blocked != 0 ==> Justified(p, hist, e.key, e.blocked))
  }

  ghost predicate Backed(p: Policy, z: Entries, hist: seq<Exchange>)
  {
    forall e :: e in z ==> BackedEntry(p, e, hist)
  }

  lemma JustifiedLater(p: Policy, hist: seq<Exchange>, x: Exchange, key: Key, deadline: int)
    requires Justified(p, hist, key, deadline)
    ensures Justified(p, hist + [x], key, deadline)
  {
    var h := hist + [x];
    var i :| 0 <= i < |hist| && JustifiedAt(p, hist, i, key, deadline);
    assert h[..i] == hist[..i];
    assert JustifiedAt(p, h, i, key, deadline);
  }

  lemma SinceMore(hist: seq<Exchange>, x: Exchange, key: Key, cutoff: int)
    ensures Since(hist + [x], key, cutoff)
         == if !x.Recorded(key) then Since(hist, key, cutoff)
            else if x.reply.rc == BUSY then 0
            else Since(hist, key, cutoff) + if x.op.now > cutoff then 1 else 0
  {
    var h := hist + [x];
    assert h[..|h| - 1] == hist;
  }

  lemma HistoryGrows(p: Policy, e: Entry, hist: seq<Exchange>, x: Exchange)
    requires BackedEntry(p, e, hist) && !x.Recorded(e.key)
    ensures BackedEntry(p, e, hist + [x])
  {
    hide JustifiedAt, Since, Justified;
    forall c ensures Since(hist + [x], e.key, c) == Since(hist, e.key, c) {
      SinceMore(hist, x, e.key, c);
    }
    if e.blocked != 0 { JustifiedLater(p, hist, x, e.key, e.blocked); }
  }

  lemma {:induction false} CountAfterPrune(events: seq<int>, cutoff: int, x: int, c: int)
    ensures CountAbove(Prune(events, cutoff) + [x], c) <= CountAbove(events, c) + if x > c then 1 else 0
  {
    if events == [] {
      assert Prune(events, cutoff) + [x] == [x];
    } else if events[0] <= cutoff {
      CountAfterPrune(events[1..], cutoff, x, c);
    } else {
      CountAppend(events, x, c);
    }
  }

  lemma {:induction false} CountAppend(events: seq<int>, x: int, c: int)
    ensures CountAbove(events + [x], c) == CountAbove(events, c) + if x > c then 1 else 0
  {
    if events == [] {
      assert events + [x] == [x];
    } else {
      assert (events + [x])[1..] == events[1..] + [x];
      CountAppend(events[1..], x, c);
    }
  }

  lemma {:induction false} CountAll(events: seq<int>, c: int)
    requires forall x :: x in events ==> x > c
    ensures CountAbove(events, c) == |events|
  {
    if events != [] {
      assert events[0] in events;
      assert forall x :: x in events[1..] ==> x in events;
      CountAll(events[1..], c);
    }
  }

  /** record() on an entry without an active ban. */
  lemma CountIsBacked(p: Policy, e: Entry, op: Op, hist: seq<Exchange>)
    requires Healthy(p, e, op.now) && BackedEntry(p, e, hist)
    requires op.DoRecord? && op.key == e.key && e.blocked <= op.now
    ensures var e' := Count(p, e, op.now);
            BackedEntry(p, e', hist + [Exchange(op, ReplyFrom(p, op, e'))])
  {
    hide Justified, Since, Prune, AddSaturateAt;
    var e' := Count(p, e, op.now);
    var x := Exchange(op, ReplyFrom(p, op, e'));
    var h := hist + [x];
    var prior, cutoff := Lapse(e).events, op.now - p.interval;
    var events := Prune(prior, cutoff) + [op.now];
    DeadlineAhead(op.now, p.block);
    forall c ensures CountAbove(events, c) <= Since(hist, e.key, c) + if op.now > c then 1 else 0 {
      CountAfterPrune(prior, cutoff, op.now, c);
      assert CountAbove(prior, c) <= CountAbove(e.events, c);
    }
    forall c ensures CountAbove(e'.events, c) <= Since(h, e.key, c) { SinceMore(hist, x, e.key, c); }
    if e'.blocked != 0 {
      PruneKeepsOrder(prior, cutoff);
      CountAll(events, cutoff);
      assert |events| >= p.threshold;
      NowJustified(p, hist, x, e.key);
    }
  }

  lemma NowJustified(p: Policy, hist: seq<Exchange>, x: Exchange, key: Key)
    requires x.op.DoRecord? && x.op.key == key && Suffices(p, hist, key, x.op.now)
    requires x.reply == Answer(BUSY, p.threshold, AddSaturate(x.op.now, p.block))
    ensures Justified(p, hist + [x], key, AddSaturate(x.op.now, p.block))
  {
    var h := hist + [x];
    assert h[..|hist|] == hist;
    assert JustifiedAt(p, h, |hist|, key, AddSaturate(x.op.now, p.block));
  }

  /** A call told of an active ban, whose ring is empty. */
  lemma BanIsBacked(p: Policy, e: Entry, x: Exchange, hist: seq<Exchange>)
    requires e.blocked != 0 && e.events == [] && BackedEntry(p, e, hist)
    ensures BackedEntry(p, e, hist + [x])
  {
    hide Since, Justified;
    JustifiedLater(p, hist, x, e.key, e.blocked);
    assert forall c :: CountAbove(e.events, c) == 0;
  }

  lemma InquiryIsBacked(p: Policy, e: Entry, op: Op, hist: seq<Exchange>)
    requires BackedEntry(p, e, hist) && op.DoIsBlocked?
    ensures BackedEntry(p, ActOnEntry(p, op, e), hist)
  {
    hide Since, Justified;
    var e' := ActOnEntry(p, op, e);
    forall c ensures CountAbove(e'.events, c) <= CountAbove(e.events, c) {
      PruneShrinksCount(e.events, op.now - p.interval, c);
    }
  }

  lemma {:induction false} PruneShrinksCount(events: seq<int>, cutoff: int, c: int)
    ensures CountAbove(Prune(events, cutoff), c) <= CountAbove(events, c)
  {
    if events != [] && events[0] <= cutoff { PruneShrinksCount(events[1..], cutoff, c); }
  }

  lemma LocateIsBacked(p: Policy, z: Entries, t: Clock, op: Op, hist: seq<Exchange>)
    requires Strong(p, z, t) && t <= op.now && Backed(p, z, hist) && !op.DoPeek?
    ensures Backed(p, Locate(p, z, op).zone, hist)
  {
    hide Expire, Create, Since, Justified;
    var b := Locate(p, z, op);
    var kept := Expire(p, z, op.now, TOUCH_EXPIRE_LIMIT);
    ArriveDrops(p, z, op.key, op.now);
    if op.DoRecord? { CreateDrops(p, kept, op.key, op.now, op.grants); }
    forall e | e in b.zone ensures BackedEntry(p, e, hist) {
      if b.ok && e == b.zone[0] {
        if Arrive(p, z, op.key, op.now).ok {
          var o :| o in kept && o.key == op.key && e == o.(seen := op.now);
          assert BackedEntry(p, o, hist);
        } else {
          assert e == Newcomer(op.key, op.now);
        }
      } else {
        assert b.ok ==> b.zone == [b.zone[0]] + b.zone[1..];
        assert e in z;
      }
    }
  }

  lemma HeadIsBacked(p: Policy, h: Entry, op: Op, hist: seq<Exchange>)
    requires Healthy(p, h, op.now) && BackedEntry(p, h, hist) && op.key == h.key && !op.DoPeek?
    ensures var h' := ActOnEntry(p, op, h);
            BackedEntry(p, h', hist + [Exchange(op, ReplyFrom(p, op, h'))])
  {
    hide BackedEntry, Count, Settled;
    var h' := ActOnEntry(p, op, h);
    var x := Exchange(op, ReplyFrom(p, op, h'));
    if h.blocked > op.now {
      BanIsBacked(p, h, x, hist);
    } else if op.DoRecord? {
      CountIsBacked(p, h, op, hist);
    } else {
      InquiryIsBacked(p, h, op, hist);
      HistoryGrows(p, h', hist, x);
    }
  }

  lemma BackedBan(p: Policy, e: Entry, hist: seq<Exchange>)
    requires BackedEntry(p, e, hist) && e.blocked != 0
    ensures Justified(p, hist, e.key, e.blocked)
  {
  }

  /** record and is_blocked, once the entry stands at the head. */
  lemma CallIsBacked(p: Policy, z: Entries, t: Clock, op: Op, hist: seq<Exchange>)
    requires Strong(p, z, t) && t <= op.now && Backed(p, z, hist) && !op.DoPeek?
    ensures var o := Step(p, z, op);
            var h := hist + [Exchange(op, o.reply)];
            Backed(p, o.zone, h) && Earned(p, h)
  {
    hide Step, Locate, ActOnEntry, BackedEntry, Healthy, Justified, Since;
    var b, o := Locate(p, z, op), Step(p, z, op);
    var x := Exchange(op, o.reply);
    LocateIsBacked(p, z, t, op, hist);
    LocateIsInvisible(p, z, t, op);
    StepActs(p, z, op);
    if b.ok {
      var h, rest := b.zone[0], b.zone[1..];
      assert h in b.zone && b.zone == [h] + rest;
      StrongSplit(p, h, rest, op.now);
      ActKeepsKey(p, op, h);
      HeadIsBacked(p, h, op, hist);
      if o.zone[0].blocked > op.now { BackedBan(p, o.zone[0], hist + [x]); }
    }
    forall e | e in o.zone ensures BackedEntry(p, e, hist + [x]) {
      if !(b.ok && e == o.zone[0]) {
        assert e in b.zone;
        HistoryGrows(p, e, hist, x);
      }
    }
  }

  lemma PeekIsEarned(p: Policy, z: Entries, t: Clock, op: Op, hist: seq<Exchange>)
    requires Strong(p, z, t) && t <= op.now && Backed(p, z, hist) && op.DoPeek?
    ensures Earned(p, hist + [Exchange(op, Peek(p, z, op.key, op.now))])
  {
    hide Since, Justified;
    var x := Exchange(op, Peek(p, z, op.key, op.now));
    SinceMore(hist, x, op.key, op.now - p.interval);
    if Tracked(z, op.key) {
      MemberAt(z, op.key);
      var e := z[Position(z, op.key)];
      assert BackedEntry(p, e, hist);
      if e.blocked > op.now { JustifiedLater(p, hist, x, op.key, e.blocked); }
    }
  }

  lemma StepIsBacked(p: Policy, z: Entries, t: Clock, op: Op, hist: seq<Exchange>)
    requires Strong(p, z, t) && t <= op.now && Backed(p, z, hist)
    ensures var o := Step(p, z, op);
            var h := hist + [Exchange(op, o.reply)];
            Backed(p, o.zone, h) && Earned(p, h)
  {
    hide Peek, Earned, BackedEntry;
    if op.DoPeek? {
      PeekIsEarned(p, z, t, op, hist);
      forall e | e in z ensures BackedEntry(p, e, hist + [Exchange(op, Step(p, z, op).reply)]) {
        HistoryGrows(p, e, hist, Exchange(op, Step(p, z, op).reply));
      }
    } else {
      CallIsBacked(p, z, t, op, hist);
    }
  }

  lemma {:induction false} RunIsBacked(p: Policy, z: Entries, t: Clock, hist: seq<Exchange>, ops: seq<Op>)
    requires Strong(p, z, t) && Backed(p, z, hist) && Monotone(ops, t)
    ensures var h := hist + Transcript(p, z, ops);
            && Backed(p, After(p, z, ops), h)
            && forall i :: |hist| < i <= |h| ==> Earned(p, h[..i])
    decreases |ops|
  {
    hide Step, Strong, Backed, Earned;
    if ops == [] {
      assert hist + [] == hist;
    } else {
      var o := Step(p, z, ops[0]);
      var first, rest := [Exchange(ops[0], o.reply)], Transcript(p, o.zone, ops[1..]);
      StepIsBacked(p, z, t, ops[0], hist);
      StepIsIdeal(p, z, t, ops[0]);
      RunIsBacked(p, o.zone, ops[0].now, hist + first, ops[1..]);
      var h := hist + Transcript(p, z, ops);
      assert h == (hist + first) + rest;
      assert h[..|hist| + 1] == hist + first;
    }
  }

  /** From a fresh zone, whatever allocations were refused and whatever nodes were forced out along
      the way, every ban the run reports, predicts or leaves behind was earned. */
  lemma NoFalseBans(p: Policy, ops: seq<Op>)
    requires Monotone(ops, 0)
    ensures var h := Transcript(p, [], ops);
            && |h| == |Replies(p, [], ops)| == |ops|
            && (forall i :: 0 <= i < |h| ==> h[i] == Exchange(ops[i], Replies(p, [], ops)[i]))
            && (forall i :: 0 < i <= |h| ==> Earned(p, h[..i]))
            && forall e :: e in After(p, [], ops) && e.blocked != 0 ==> Justified(p, h, e.key, e.blocked)
  {
    hide Justified, Earned, Transcript, After;
    TranscriptIs(p, [], ops);
    RunIsBacked(p, [], 0, [], ops);
    assert [] + Transcript(p, [], ops) == Transcript(p, [], ops);
  }
}

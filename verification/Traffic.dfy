/** Any number of requests interleaved over one zone, the zone answering each call they make on it:
    bans that records earn are enforced on every request, and only earned bans are. */
module Traffic {
  import opened Times
  import opened Wrappers
  import opened ZoneModel
  import opened Upkeep
  import opened Runs
  import opened RequestModel
  import Durability
  import Observation
  import Statuses

  /** A request, and its origin read off its events. */
  datatype Party = Party(req: Req, origin: Origin)

  /** The zone, the calls made on it so far, and the requests in flight. */
  datatype World = World(entries: Entries, calls: seq<Op>, parties: map<nat, Party>)

  datatype Move = Enter(id: nat, loc: Location) | Happen(id: nat, event: Event)

  function Start(): World
  {
    World([], [], map[])
  }

  /** The effects an event adds. */
  function Added(q: Req, e: Event): seq<Effect>
  {
    var after := Handle(q, e).trace;
    if |after| >= |q.trace| then after[|q.trace|..] else []
  }

  /** The first call among these effects on this zone. */
  function CallOn(zone: ZoneConf, added: seq<Effect>): Option<Op>
  {
    if added == [] then None
    else if added[0].Called? && added[0].zone == zone then Some(added[0].op)
    else CallOn(zone, added[1..])
  }

  function SaidIn(e: Event): Reply
  {
    match e
    case AtPreaccess(_, _, _, _, said) => said
    case AtFilter(_, _, _, _, _, said, _) => said
    case _ => NoRoom
  }

  function Saying(e: Event, said: Reply): Event
  {
    match e
    case AtPreaccess(main, s, queued, now, _) => AtPreaccess(main, s, queued, now, said)
    case AtFilter(main, s, status, now, grants, _, fit) => AtFilter(main, s, status, now, grants, said, fit)
    case _ => e
  }

  /** The request is there, and if it calls the zone now, what it is told is the zone's reply, at a time
      no earlier than the last call. */
  predicate Truthful(zone: ZoneConf, w: World, m: Move)
  {
    match m
    case Enter(_, _) => true
    case Happen(id, e) =>
      && id in w.parties
      && match CallOn(zone, Added(w.parties[id].req, e))
         case None => true
         case Some(op) => EndOf(w.calls) <= op.now && SaidIn(e) == Step(zone.policy, w.entries, op).reply
  }

  function Next(zone: ZoneConf, w: World, m: Move): World
  {
    match m
    case Enter(id, loc) =>
      w.(parties := w.parties[id := Party(Fresh(loc), Undecided(loc, false))])
    case Happen(id, e) =>
      if id !in w.parties then w
      else
        var party := w.parties[id];
        var parties := w.parties[id := Party(Handle(party.req, e), OriginStep(party.origin, e))];
        match CallOn(zone, Added(party.req, e))
        case None => w.(parties := parties)
        case Some(op) =>
          World(Step(zone.policy, w.entries, op).zone, w.calls + [op], parties)
  }

  predicate TruthfulRun(zone: ZoneConf, w: World, ms: seq<Move>)
    decreases |ms|
  {
    ms != [] ==> Truthful(zone, w, ms[0]) && TruthfulRun(zone, Next(zone, w, ms[0]), ms[1..])
  }

  function WorldAfter(zone: ZoneConf, w: World, ms: seq<Move>): World
    decreases |ms|
  {
    if ms == [] then w else WorldAfter(zone, Next(zone, w, ms[0]), ms[1..])
  }

  // ---------------------------------------------------------------- what is asked

  lemma CallFirst(zone: ZoneConf, x: Effect, rest: seq<Effect>)
    ensures CallOn(zone, [x] + rest)
         == if x.Called? && x.zone == zone then Some(x.op) else CallOn(zone, rest)
  {
    assert ([x] + rest)[1..] == rest;
  }

  lemma CallBehind(zone: ZoneConf, trace: seq<Effect>, more: seq<Effect>)
    ensures (trace + more)[|trace|..] == more
  {
  }

  /** The effects of the end of preaccess. */
  function BarEffects(c: Context, loc: Location): seq<Effect>
  {
    if EffectiveDryRun(c, loc) then [] else [Rejection]
  }

  lemma WeighAdds(q: Req, c: Context, own: ZoneConf, now: Clock, said: Reply)
    ensures var t := Weigh(q, c, own, now, said).0.trace;
            t == q.trace +
              if c.redisBlocked then BarEffects(c, q.loc)
              else [Called(own, DoIsBlocked(c.key, now))]
                   + if SaysBlocked(said) then BarEffects(c, q.loc) else []
  {
  }

  /** Unless Redis has banned the client, preaccess asks the zone, and rejects only if told so. */
  lemma WeighAsks(q: Req, c: Context, own: ZoneConf, now: Clock, said: Reply, zone: ZoneConf)
    ensures var t := Weigh(q, c, own, now, said).0.trace;
            && |t| >= |q.trace|
            && CallOn(zone, t[|q.trace|..])
               == (if c.redisBlocked || own != zone then None else Some(DoIsBlocked(c.key, now)))
            && (!c.redisBlocked && Rejection in t[|q.trace|..] ==> SaysBlocked(said))
  {
    hide Weigh;
    WeighAdds(q, c, own, now, said);
    var bar := BarEffects(c, q.loc);
    var told := if SaysBlocked(said) then bar else [];
    CallBehind(zone, q.trace, bar);
    CallBehind(zone, q.trace, [Called(own, DoIsBlocked(c.key, now))] + told);
    CallFirst(zone, Called(own, DoIsBlocked(c.key, now)), told);
    NoCallInBar(zone, c, q.loc);
  }

  lemma NoCallInBar(zone: ZoneConf, c: Context, loc: Location)
    ensures CallOn(zone, BarEffects(c, loc)) == None && CallOn(zone, []) == None
  {
    assert [Rejection][1..] == [];
  }

  lemma JudgeAsks(q: Req, queued: bool, now: Clock, said: Reply, other: Reply, zone: ZoneConf)
    requires q.held.Some? && q.held.value.zone.Some?
    ensures var t, u := Judge(q, queued, now, said).0.trace, Judge(q, queued, now, other).0.trace;
            && |t| >= |q.trace| && |u| >= |q.trace|
            && CallOn(zone, t[|q.trace|..]) == CallOn(zone, u[|q.trace|..])
            && (CallOn(zone, t[|q.trace|..]).Some? ==>
                  && CallOn(zone, t[|q.trace|..]) == Some(DoIsBlocked(q.held.value.key, now))
                  && (Rejection in t[|q.trace|..] ==> SaysBlocked(said)))
            && (CallOn(zone, t[|q.trace|..]).None? && q.held.value.zone.value == zone ==>
                  Judge(q, queued, now, said) == Judge(q, queued, now, other))
  {
    hide Weigh;
    var c := q.held.value;
    var own := c.zone.value;
    assert q.trace[|q.trace|..] == [];
    var asked := if own.redis && !c.redisChecked then AskRedis(c, queued) else c;
    if !own.redis || asked.redisChecked {
      WeighAsks(q, asked, own, now, said, zone);
      WeighAsks(q, asked, own, now, other, zone);
      UnaskedIgnoresSaid(q, asked, own, now, said, other);
    }
  }

  lemma UnaskedIgnoresSaid(q: Req, c: Context, own: ZoneConf, now: Clock, said: Reply, other: Reply)
    ensures c.redisBlocked ==> Weigh(q, c, own, now, said) == Weigh(q, c, own, now, other)
  {
  }

  lemma ConcludeAdds(q: Req, c: Context, own: ZoneConf, said: Reply)
    ensures var t := Conclude(q, c, own, said).0.trace; t == q.trace || t == q.trace + [Rejection]
  {
  }

  /** The header filter never asks whether the client is banned. */
  lemma RecordOrPeekAsks(q: Req, c: Context, own: ZoneConf, now: Clock, grants: seq<bool>, said: Reply,
                         zone: ZoneConf)
    ensures var t := RecordOrPeek(q, c, own, now, grants, said).0.trace;
            && |t| >= |q.trace|
            && CallOn(zone, t[|q.trace|..])
               == if own != zone then None
                  else Some(if c.dryRun then DoPeek(c.key, now) else DoRecord(c.key, now, grants))
  {
    hide Conclude;
    var call := Called(own, if c.dryRun then DoPeek(c.key, now) else DoRecord(c.key, now, grants));
    var sent := if !c.dryRun && own.redis then [Mirrored(own, c.key)] else [];
    var t := RecordOrPeek(q, c, own, now, grants, said).0.trace;
    ConcludeAdds(q.(trace := q.trace + [call] + sent), c, own, said);
    assert q.trace + [call] + sent == q.trace + ([call] + sent);
    assert q.trace + [call] + sent + [Rejection] == q.trace + ([call] + (sent + [Rejection]));
    CallBehind(zone, q.trace, [call] + sent);
    CallBehind(zone, q.trace, [call] + (sent + [Rejection]));
    CallFirst(zone, call, sent);
    CallFirst(zone, call, sent + [Rejection]);
    NoCallAfter(zone, own, c.key);
    assert [call] + [] == [call];
  }

  lemma NoCallAfter(zone: ZoneConf, own: ZoneConf, key: Key)
    ensures CallOn(zone, []) == None && CallOn(zone, [Rejection]) == None
    ensures CallOn(zone, [Mirrored(own, key)]) == None
    ensures CallOn(zone, [Mirrored(own, key)] + [Rejection]) == None && [] + [Rejection] == [Rejection]
  {
    CallFirst(zone, Mirrored(own, key), [Rejection]);
    CallFirst(zone, Mirrored(own, key), []);
    assert [Mirrored(own, key)] + [] == [Mirrored(own, key)];
    assert [Rejection][1..] == [];
  }

  lemma RespondAsks(q: Req, e: Event, other: Reply, zone: ZoneConf)
    requires e.AtFilter? && q.held.Some? && q.held.value.zone.Some?
    ensures var t := Respond(q, e.status, e.now, e.grants, e.said, e.headersFit).0.trace;
            var u := Respond(q, e.status, e.now, e.grants, other, e.headersFit).0.trace;
            && |t| >= |q.trace| && |u| >= |q.trace|
            && CallOn(zone, t[|q.trace|..]) == CallOn(zone, u[|q.trace|..])
            && (CallOn(zone, t[|q.trace|..]).Some? ==> !CallOn(zone, t[|q.trace|..]).value.DoIsBlocked?)
  {
    hide RecordOrPeek, Statuses.StatusMatches;
    var c := q.held.value.(responseSeen := true, dryRun := EffectiveDryRun(q.held.value, q.loc));
    var seen := q.(held := Some(c));
    assert q.trace[|q.trace|..] == [];
    RecordOrPeekAsks(seen, c, c.zone.value, e.now, e.grants, e.said, zone);
    RecordOrPeekAsks(seen, c, c.zone.value, e.now, e.grants, other, zone);
  }

  /** What an event is told has no bearing on what it asks. */
  lemma SaidDoesNotAsk(zone: ZoneConf, q: Req, e: Event, said: Reply)
    ensures |Handle(q, e).trace| >= |q.trace|
    ensures CallOn(zone, Added(q, Saying(e, said))) == CallOn(zone, Added(q, e))
    ensures CallOn(zone, Added(q, e)).Some? ==> (e.AtPreaccess? || e.AtFilter?) && e.main
    ensures CallOn(zone, Added(q, e)).Some? && CallOn(zone, Added(q, e)).value.DoIsBlocked? ==>
              && e.AtPreaccess? && CallOn(zone, Added(q, e)).value.now == e.now
              && (Rejection in Added(q, e) ==> SaysBlocked(SaidIn(e)))
  {
    hide Prepare, Judge, Respond;
    assert q.trace[|q.trace|..] == [];
    if (e.AtPreaccess? || e.AtFilter?) && e.main {
      var (q1, ready) := Prepare(q, e.supplies);
      if ready && q1.held.value.zone.Some? {
        if e.AtPreaccess? { JudgeAsks(q1, e.queued, e.now, e.said, said, zone); }
        else { RespondAsks(q1, e, said, zone); }
      }
    }
  }

  /** For every event there is an answer, and exactly one for a call on the zone, that is truthful. */
  lemma SomeAnswerIsTruthful(zone: ZoneConf, w: World, id: nat, e: Event)
    requires id in w.parties
    requires match CallOn(zone, Added(w.parties[id].req, e))
             case None => true
             case Some(op) => EndOf(w.calls) <= op.now
    ensures exists said :: Truthful(zone, w, Happen(id, Saying(e, said)))
  {
    hide Added, CallOn, Step;
    var q := w.parties[id].req;
    match CallOn(zone, Added(q, e))
    case None =>
      SaidDoesNotAsk(zone, q, e, NoRoom);
      assert Truthful(zone, w, Happen(id, Saying(e, NoRoom)));
    case Some(op) =>
      var said := Step(zone.policy, w.entries, op).reply;
      SaidDoesNotAsk(zone, q, e, said);
      assert Truthful(zone, w, Happen(id, Saying(e, said)));
  }

  // ---------------------------------------------------------------- every reachable world

  ghost predicate Sane(zone: ZoneConf, w: World)
  {
    && Monotone(w.calls, 0) && w.entries == After(zone.policy, [], w.calls)
    && forall id :: id in w.parties ==> Follows(w.parties[id].req, w.parties[id].origin)
  }

  lemma {:induction false} MonotoneMore(ops: seq<Op>, t: Clock, op: Op)
    requires Monotone(ops, t) && (if ops == [] then t else EndOf(ops)) <= op.now
    ensures Monotone(ops + [op], t)
  {
    if ops == [] {
      assert [op][1..] == [];
    } else {
      assert (ops + [op])[1..] == ops[1..] + [op];
      MonotoneMore(ops[1..], ops[0].now, op);
    }
  }

  lemma {:induction false} AfterMore(p: Policy, z: Entries, ops: seq<Op>, op: Op)
    ensures After(p, z, ops + [op]) == Step(p, After(p, z, ops), op).zone
    ensures |Replies(p, z, ops + [op])| == |ops| + 1
    ensures Replies(p, z, ops + [op])[|ops|] == Step(p, After(p, z, ops), op).reply
    decreases |ops|
  {
    hide Step;
    if ops == [] {
      assert [op][1..] == [] && [] + [op] == [op];
    } else {
      assert (ops + [op])[1..] == ops[1..] + [op];
      AfterMore(p, Step(p, z, ops[0]).zone, ops[1..], op);
    }
  }

  lemma NextIsSane(zone: ZoneConf, w: World, m: Move)
    requires Sane(zone, w) && Truthful(zone, w, m)
    ensures Sane(zone, Next(zone, w, m))
  {
    hide Step, After, Follows, Handle, OriginStep, Added, CallOn;
    match m
    case Enter(_, loc) => FreshFollows(loc);
    case Happen(id, e) =>
      var party := w.parties[id];
      HandleFollows(party.req, party.origin, e);
      match CallOn(zone, Added(party.req, e))
      case None =>
      case Some(op) =>
        MonotoneMore(w.calls, 0, op);
        AfterMore(zone.policy, [], w.calls, op);
  }

  lemma FreshFollows(loc: Location)
    ensures Follows(Fresh(loc), Undecided(loc, false))
  {
  }

  lemma {:induction false} WorldIsSane(zone: ZoneConf, w: World, ms: seq<Move>)
    requires Sane(zone, w) && TruthfulRun(zone, w, ms)
    ensures Sane(zone, WorldAfter(zone, w, ms))
    decreases |ms|
  {
    hide Sane, Truthful, Next;
    if ms != [] {
      NextIsSane(zone, w, ms[0]);
      WorldIsSane(zone, Next(zone, w, ms[0]), ms[1..]);
    }
  }

  // ---------------------------------------------------------------- only earned bans

  /** Whatever requests are interleaved: when preaccess asks the zone and rejects the client, some record
      call that a request made for it set the deadline it was told of, with at least threshold counted
      records inside the interval. */
  lemma RejectionIsEarned(zone: ZoneConf, ms: seq<Move>, id: nat, e: Event, key: Key, now: Clock)
    requires TruthfulRun(zone, Start(), ms)
    requires var w := WorldAfter(zone, Start(), ms);
             && Truthful(zone, w, Happen(id, e))
             && CallOn(zone, Added(w.parties[id].req, e)) == Some(DoIsBlocked(key, now))
             && Rejection in Added(w.parties[id].req, e)
    ensures var w := WorldAfter(zone, Start(), ms);
            && SaysBlocked(SaidIn(e))
            && Justified(zone.policy, Transcript(zone.policy, [], w.calls + [DoIsBlocked(key, now)]), key,
                         SaidIn(e).until)
  {
    hide Added, CallOn, Step, WorldAfter, TruthfulRun, Transcript, Justified, After;
    var p, w, op := zone.policy, WorldAfter(zone, Start(), ms), DoIsBlocked(key, now);
    StartIsSane(zone);
    WorldIsSane(zone, Start(), ms);
    SaidDoesNotAsk(zone, w.parties[id].req, e, NoRoom);
    MonotoneMore(w.calls, 0, op);
    AfterMore(p, [], w.calls, op);
    NoFalseBans(p, w.calls + [op]);
    var h := Transcript(p, [], w.calls + [op]);
    assert h[..|h|] == h;
  }

  lemma StartIsSane(zone: ZoneConf)
    ensures Sane(zone, Start())
  {
  }

  // ---------------------------------------------------------------- every earned ban

  lemma {:induction false} MonotoneBound(ops: seq<Op>, t: Clock)
    requires Monotone(ops, t)
    ensures forall op :: op in ops ==> op.now <= EndOf(ops)
  {
    if ops != [] {
      MonotoneBound(ops[1..], ops[0].now);
      if |ops| > 1 { assert ops[1] == ops[1..][0] && ops[1..][0] in ops[1..]; }
      assert forall op :: op in ops ==> op == ops[0] || op in ops[1..];
    }
  }

  /** A record told BUSY leaves the ban behind. */
  lemma BusyBans(p: Policy, z: Entries, t: Clock, op: Op)
    requires Observation.Strong(p, z, t) && t <= op.now && op.DoRecord?
    requires var reply := Step(p, z, op).reply; reply.Answer? && reply.rc == BUSY
    ensures Durability.BannedUntil(Step(p, z, op).zone, op.key, Step(p, z, op).reply.until)
  {
    hide Step, Observation.Locate, Observation.ActOnEntry;
    Observation.StepActs(p, z, op);
    var b, r := Observation.Locate(p, z, op), Step(p, z, op).zone;
    if b.ok {
      Observation.ActKeepsKey(p, op, b.zone[0]);
      assert r[0] in r;
    }
  }

  /** And it lasts while the clock is below the deadline. */
  lemma {:induction false} BusyLasts(p: Policy, z: Entries, t: Clock, ops: seq<Op>, i: nat, deadline: int)
    requires Observation.Strong(p, z, t) && Monotone(ops, t) && i < |ops| && EndOf(ops) < deadline
    requires |Replies(p, z, ops)| == |ops| && ops[i].DoRecord?
    requires var reply := Replies(p, z, ops)[i];
             reply.Answer? && reply.rc == BUSY && reply.until == deadline
    ensures Unique(After(p, z, ops)) && Durability.BannedUntil(After(p, z, ops), ops[i].key, deadline)
    decreases |ops|
  {
    hide Step, Observation.Strong, Durability.BannedUntil;
    var o := Step(p, z, ops[0]);
    ReplyAt(p, z, ops, i);
    MonotoneBound(ops, t);
    Observation.StepIsIdeal(p, z, t, ops[0]);
    if i == 0 {
      BusyBans(p, z, t, ops[0]);
      StrongIsUnique(p, o.zone, ops[0].now);
      assert forall op :: op in ops[1..] ==> op in ops;
      Durability.BanSurvivesRun(p, o.zone, ops[1..], ops[0].key, deadline);
    } else {
      assert ops[i] == ops[1..][i - 1];
      BusyLasts(p, o.zone, ops[0].now, ops[1..], i - 1, deadline);
    }
  }

  /** Whatever requests are interleaved: once a record made for a client was told of a ban, by whichever
      request, every preaccess of every request of that client with an enforcing origin rejects it until
      the deadline, unless it is parked for Redis. */
  lemma BanIsEnforced(zone: ZoneConf, ms: seq<Move>, id: nat, e: Event, i: nat, key: Key, deadline: int)
    requires TruthfulRun(zone, Start(), ms)
    requires var w := WorldAfter(zone, Start(), ms);
             && Truthful(zone, w, Happen(id, e))
             && i < |w.calls| == |Replies(zone.policy, [], w.calls)|
             && w.calls[i].DoRecord? && w.calls[i].key == key
             && Replies(zone.policy, [], w.calls)[i] == Answer(BUSY, zone.policy.threshold, deadline)
             && e.AtPreaccess? && e.main && e.now < deadline
             && var d := Decide(w.parties[id].origin, e.supplies);
                HasClient(d) && d.client.value == Client(zone, key) && !d.dryRun
    ensures var q := WorldAfter(zone, Start(), ms).parties[id].req;
            var (r, verdict) := Preaccess(q, true, e.supplies, e.queued, e.now, e.said);
            verdict != Await ==> verdict == Status(q.loc.rejectStatus) && Rejection in r.trace
  {
    hide Added, CallOn, Step, WorldAfter, TruthfulRun, After, Preaccess, Durability.BannedUntil, Replies;
    var p, w := zone.policy, WorldAfter(zone, Start(), ms);
    var q, o := w.parties[id].req, w.parties[id].origin;
    StartIsSane(zone);
    WorldIsSane(zone, Start(), ms);
    StrongAtStart(p);
    var told := Answer(OK, p.threshold, deadline);
    var e' := Saying(e, told);
    RejectedIff(q, o, e');
    match CallOn(zone, Added(q, e))
    case Some(op) =>
      PreaccessAsks(zone, q, o, e, told);
      BusyLasts(p, [], 0, w.calls, i, deadline);
      Durability.StepKeepsBan(p, w.entries, op, key, deadline);
    case None =>
      PreaccessAsks(zone, q, o, e, told);
  }

  lemma StrongAtStart(p: Policy)
    ensures Observation.Strong(p, [], 0)
  {
  }

  /** For a client of this zone preaccess asks about that client, or is not told anything. */
  lemma PreaccessAsks(zone: ZoneConf, q: Req, o: Origin, e: Event, told: Reply)
    requires Follows(q, o) && e.AtPreaccess? && e.main
    requires var d := Decide(o, e.supplies); HasClient(d) && d.client.value.zone == zone
    ensures match CallOn(zone, Added(q, e))
            case Some(op) => op == DoIsBlocked(Decide(o, e.supplies).client.value.key, e.now)
            case None =>
              Preaccess(q, true, e.supplies, e.queued, e.now, e.said)
              == Preaccess(q, true, e.supplies, e.queued, e.now, told)
  {
    hide Prepare, Judge, Decide, Accounts;
    PrepareFollows(q, o, e.supplies);
    var (q1, ready) := Prepare(q, e.supplies);
    var d := Decide(o, e.supplies);
    FollowsClient(q1, d);
    ClientOf(q1.held.value, q1.trace, d.client.value, d.dryRun, d.answered);
    JudgeAsks(q1, e.queued, e.now, e.said, told, zone);
  }
}

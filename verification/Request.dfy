/** The request context as the module keeps it: an object the context slot and a cleanup record may
    both refer to, changed in place by the two phases and the Redis callback. */
module Requests {
  import opened Times
  import opened Wrappers
  import opened ZoneModel
  import opened RequestModel
  import RedisScript
  import Statuses

  class RequestContext {
    var zone: Option<ZoneConf>
    var key: Key
    var count: nat
    var until: int
    var state: State
    var responseSeen: bool
    var ownRejection: bool
    var dryRun: bool
    var redisPending: bool
    var redisChecked: bool
    var redisBlocked: bool
    var fromAnchor: bool

    /** All zero, as ngx_pcalloc leaves it. */
    constructor ()
      ensures View() == Blank(false)
    {
      zone, key, count, until, state := None, [], 0, 0, Bypassed;
      responseSeen, ownRejection, dryRun := false, false, false;
      redisPending, redisChecked, redisBlocked, fromAnchor := false, false, false, false;
    }

    function View(): Context
      reads this
    {
      Context(zone, key, count, until, state, responseSeen, ownRejection, dryRun,
              redisPending, redisChecked, redisBlocked, fromAnchor)
    }

    /** The zone's answer arrives in the caller's count and deadline. */
    method Take(said: Reply)
      modifies this
      ensures View() == Told(old(View()), said)
    {
      if !said.NoRoom? { count, until := said.count, said.until; }
    }

    /** redis_check(); false to park the request. */
    method RedisCheck(queued: bool) returns (go: bool)
      requires !redisChecked
      modifies this
      ensures View() == AskRedis(old(View()), queued) && go == redisChecked
    {
      if redisPending { return false; }
      if queued {
        redisPending := true;
        return false;
      }
      redisChecked := true;
      return true;
    }

    method HearRedis(answer: Lookup, now: Clock)
      requires zone.Some?
      modifies this
      ensures View() == Heard(old(View()), old(zone.value.policy), answer, now)
    {
      redisPending := false;
      redisChecked := true;
      redisBlocked := false;
      if answer.Text? {
        var ceiling := AddSaturate(now, zone.value.policy.block);
        redisBlocked := true;
        until := if answer.deadline > 0 then answer.deadline else ceiling;
        if until > ceiling { until := ceiling; }
        count := zone.value.policy.threshold;
      }
    }
  }

  /** A cleanup record: another module's, or ours. */
  datatype Cleanup = Foreign | Anchor(ctx: RequestContext)

  function AnchoredIn(cleanups: seq<Cleanup>): RequestContext?
  {
    if cleanups == [] then null
    else if cleanups[0].Anchor? then cleanups[0].ctx
    else AnchoredIn(cleanups[1..])
  }

  lemma BarIgnoresHeld(q: Req, r: Req)
    requires r.held.Some? && r == q.(held := r.held)
    ensures Bar(q, r.held.value) == Bar(r, r.held.value)
  {
  }

  lemma WeighIgnoresHeld(q: Req, r: Req, zone: ZoneConf, now: Clock, said: Reply)
    requires r.held.Some? && r == q.(held := r.held)
    ensures RequestModel.Weigh(q, r.held.value, zone, now, said)
         == RequestModel.Weigh(r, r.held.value, zone, now, said)
  {
  }

  class Request {
    var loc: Location
    var ctx: RequestContext?
    var cleanups: seq<Cleanup>
    ghost var trace: seq<Effect>

    predicate Valid()
      reads this
    {
      ctx == null || AnchoredIn(cleanups) == null || ctx == AnchoredIn(cleanups)
    }

    /** The request, what it has done so far included. */
    ghost function State(): Req
      reads this, ctx, AnchoredIn(cleanups)
    {
      var anchor := AnchoredIn(cleanups);
      Req(loc,
          if ctx != null then Some(ctx.View()) else if anchor != null then Some(anchor.View()) else None,
          ctx != null, anchor != null, trace)
    }

    constructor (at: Location)
      ensures Valid() && State() == Fresh(at)
    {
      loc, ctx, cleanups, trace := at, null, [], [];
    }

    /** An internal redirect. */
    method Redirect(to: Location)
      requires Valid()
      modifies this
      ensures Valid() && State() == Redirected(old(State()), to)
    {
      loc, ctx := to, null;
    }

    /** Another module registers a cleanup of its own. */
    method AddCleanup()
      requires Valid()
      modifies this
      ensures Valid() && State() == old(State())
    {
      cleanups := [Foreign] + cleanups;
      assert cleanups[1..] == old(cleanups);
    }

    /** find_anchor_ctx(). */
    method FindAnchorCtx() returns (c: RequestContext?)
      ensures c == AnchoredIn(cleanups)
    {
      for i := 0 to |cleanups|
        invariant AnchoredIn(cleanups) == AnchoredIn(cleanups[i..])
      {
        if cleanups[i].Anchor? { return cleanups[i].ctx; }
      }
      return null;
    }

    /** prepare_ctx(). */
    method PrepareCtx(s: Supplies) returns (c: RequestContext?)
      requires Valid()
      modifies this, AnchoredIn(cleanups)
      ensures Valid() && (State(), c != null) == Prepare(old(State()), s)
      ensures c != null ==> c == ctx
      ensures ctx == null || ctx == old(ctx) || ctx == old(AnchoredIn(cleanups)) || fresh(ctx)
      ensures trace == old(trace)
    {
      if ctx != null { return ctx; }
      c := FindAnchorCtx();
      if c != null {
        c.fromAnchor := true;
        ctx := c;
        assert c.View() == old(AnchoredIn(cleanups).View()).(fromAnchor := true);
        return;
      }
      if !loc.enabled || loc.zone.None? || s.raw.None? || !s.context { return null; }
      c := new RequestContext();
      c.dryRun := loc.dryRun;
      ctx := c;
      if !s.anchor { return null; }
      cleanups := [Anchor(c)] + cleanups;
      if s.raw.value == [] { return; }
      if !s.digestRoom { return null; }
      c.key := s.digest;
      if !s.logKeyRoom { return null; }
      c.zone := loc.zone;
      c.state := Passed;
    }

    method EffectiveDryRun(c: RequestContext) returns (dry: bool)
      ensures dry == RequestModel.EffectiveDryRun(c.View(), loc)
    {
      return if c.fromAnchor then c.dryRun else loc.dryRun;
    }

    /** The end of preaccess for a banned identity. */
    method Reject(c: RequestContext) returns (v: Verdict)
      requires Valid() && c == ctx
      modifies this`trace, c
      ensures Valid() && (State(), v) == Bar(old(State()), old(c.View()))
    {
      var dry := EffectiveDryRun(c);
      if dry {
        c.state := DryRun;
        return Proceed;
      }
      c.state := Barred;
      c.ownRejection := true;
      trace := trace + [Rejection];
      return Status(loc.rejectStatus);
    }

    method Weigh(c: RequestContext, now: Clock, said: Reply) returns (v: Verdict)
      requires Valid() && c == ctx && c.zone.Some?
      modifies this`trace, c
      ensures Valid()
      ensures (State(), v) == RequestModel.Weigh(old(State()), old(c.View()), old(c.zone.value), now, said)
    {
      hide Bar;
      ghost var q := State();
      if c.redisBlocked {
        c.count := c.zone.value.policy.threshold;
        BarIgnoresHeld(q, State());
        v := Reject(c);
        return;
      }
      trace := trace + [Called(c.zone.value, DoIsBlocked(c.key, now))];
      c.Take(said);
      if SaysBlocked(said) {
        BarIgnoresHeld(q.(trace := trace), State());
        v := Reject(c);
        return;
      }
      return Proceed;
    }

    method Judge(c: RequestContext, queued: bool, now: Clock, said: Reply) returns (v: Verdict)
      requires Valid() && c == ctx && c.zone.Some?
      modifies this`trace, c
      ensures Valid() && (State(), v) == RequestModel.Judge(old(State()), queued, now, said)
    {
      hide RequestModel.Weigh;
      ghost var q := State();
      if c.zone.value.redis && !c.redisChecked {
        var go := c.RedisCheck(queued);
        if !go { return Await; }
        WeighIgnoresHeld(q, State(), c.zone.value, now, said);
      }
      v := Weigh(c, now, said);
    }

    /** preaccess(); said is what the zone answers if asked. */
    method Preaccess(main: bool, s: Supplies, queued: bool, now: Clock, said: Reply) returns (v: Verdict)
      requires Valid()
      modifies this, ctx, AnchoredIn(cleanups)
      ensures Valid() && (State(), v) == RequestModel.Preaccess(old(State()), main, s, queued, now, said)
    {
      hide Prepare, RequestModel.Judge;
      if !main { return Proceed; }
      var c := PrepareCtx(s);
      if c == null { return if loc.enabled && loc.zone.Some? then Status(500) else Proceed; }
      if c.zone.None? { return Proceed; }
      v := Judge(c, queued, now, said);
    }

    /** record() has answered. */
    method Conclude(c: RequestContext, said: Reply) returns (v: Verdict)
      requires Valid() && c == ctx && c.zone.Some?
      modifies this`trace, c
      ensures Valid()
      ensures (State(), v) == RequestModel.Conclude(old(State()), old(c.View()), old(c.zone.value), said)
    {
      if said.NoRoom? {
        if c.zone.value.rejectWhenFull {
          c.state := Barred;
          c.ownRejection := true;
          c.responseSeen := false;
          trace := trace + [Rejection];
          return Status(loc.rejectStatus);
        }
        return Proceed;
      }
      c.Take(said);
      c.state := if said.Answer? && said.rc == BUSY then Barred else Counted;
      return Proceed;
    }

    /** A tracked error response. */
    method RecordOrPeek(c: RequestContext, now: Clock, grants: seq<bool>, said: Reply) returns (v: Verdict)
      requires Valid() && c == ctx && c.zone.Some?
      modifies this`trace, c
      ensures Valid()
      ensures (State(), v)
           == RequestModel.RecordOrPeek(old(State()), old(c.View()), old(c.zone.value), now, grants, said)
    {
      hide RequestModel.Conclude;
      if c.dryRun {
        trace := trace + [Called(c.zone.value, DoPeek(c.key, now))];
        c.Take(said);
        c.state := DryRun;
        return Proceed;
      }
      trace := trace + [Called(c.zone.value, DoRecord(c.key, now, grants))];
      if c.zone.value.redis { trace := trace + [Mirrored(c.zone.value, c.key)]; }
      v := Conclude(c, said);
    }

    method Respond(c: RequestContext, status: nat, now: Clock, grants: seq<bool>, said: Reply,
                   headersFit: bool) returns (v: Verdict)
      requires Valid() && c == ctx && c.zone.Some? && !c.responseSeen
      modifies this`trace, c
      ensures Valid()
      ensures (State(), v) == RequestModel.Respond(old(State()), status, now, grants, said, headersFit)
    {
      hide RequestModel.RecordOrPeek, Statuses.StatusMatches;
      c.responseSeen := true;
      if !c.fromAnchor { c.dryRun := loc.dryRun; }
      if c.ownRejection { return if headersFit then Proceed else Abort; }
      if c.state == DryRun { return Proceed; }
      if !Statuses.StatusMatches(c.zone.value.statuses, status) { return Proceed; }
      v := RecordOrPeek(c, now, grants, said);
    }

    /** header_filter(); said is what the zone answers to the call made, grants what the slab does. */
    method HeaderFilter(main: bool, s: Supplies, status: nat, now: Clock, grants: seq<bool>, said: Reply,
                        headersFit: bool) returns (v: Verdict)
      requires Valid()
      modifies this, ctx, AnchoredIn(cleanups)
      ensures Valid()
      ensures (State(), v) == RequestModel.HeaderFilter(old(State()), main, s, status, now, grants, said,
                                                        headersFit)
    {
      hide Prepare, RequestModel.Respond;
      if !main { return Proceed; }
      var c := PrepareCtx(s);
      if c == null || c.zone.None? || c.responseSeen { return Proceed; }
      v := Respond(c, status, now, grants, said, headersFit);
    }

    /** The block-key lookup comes back; a request whose slot was wiped meanwhile ignores it. */
    method RedisCheckCallback(answer: Lookup, now: Clock)
      requires Valid() && (ctx != null ==> ctx.redisPending && ctx.zone.Some?)
      modifies ctx
      ensures Valid() && State() == Answered(old(State()), answer, now)
    {
      if ctx == null { return; }
      ctx.HearRedis(answer, now);
    }
  }
}

/** Exactly what each phase of a request answers, does and remembers, told from the request's origin
    and from what the zone and Redis said. */
module RequestLaws {
  import opened Times
  import opened Wrappers
  import opened ZoneModel
  import opened RequestModel
  import RedisScript
  import Statuses

  // ---------------------------------------------------------------- what the context remembers

  /** The lookup is outstanding; it has been answered or given up; it brought a ban. */
  predicate Pending(q: Req) { q.held.Some? && q.held.value.redisPending }
  predicate Checked(q: Req) { q.held.Some? && q.held.value.redisChecked }
  predicate RedisBan(q: Req) { q.held.Some? && q.held.value.redisBlocked }

  predicate Seen(q: Req) { q.held.Some? && q.held.value.responseSeen }

  /** The state shown for the client; that of a new context is Passed. */
  function StateOf(q: Req): State
  {
    if q.held.Some? then q.held.value.state else Passed
  }

  function CountOf(q: Req): nat
  {
    if q.held.Some? then q.held.value.count else 0
  }

  function UntilOf(q: Req): int
  {
    if q.held.Some? then q.held.value.until else 0
  }

  predicate Told(said: Reply)
  {
    said.Answer? && said.rc == OK
  }

  lemma PrepareRemembers(q: Req, o: Origin, s: Supplies)
    requires Follows(q, o) && HasClient(Decide(o, s))
    ensures var (r, ready) := Prepare(q, s);
            && ready && r.held.Some? && r.inSlot && r.loc == q.loc && r.trace == q.trace
            && r.held.value.zone == Some(Decide(o, s).client.value.zone)
            && r.held.value.key == Decide(o, s).client.value.key
            && r.held.value.redisPending == Pending(q) && r.held.value.redisChecked == Checked(q)
            && r.held.value.redisBlocked == RedisBan(q) && r.held.value.responseSeen == Seen(q)
            && r.held.value.state == StateOf(q) && r.held.value.count == CountOf(q)
            && r.held.value.until == UntilOf(q)
            && EffectiveDryRun(r.held.value, r.loc) == Decide(o, s).dryRun
            && (r.held.value.ownRejection <==> Rejection in q.trace)
  {
    hide Lawful, Allowed;
  }

  // ---------------------------------------------------------------- preaccess

  /** The client's lookup is outstanding, or is queued by this call. */
  predicate Parks(q: Req, zone: ZoneConf, queued: bool)
  {
    zone.redis && !Checked(q) && (Pending(q) || queued)
  }

  /** Everything preaccess does for a client. */
  ghost predicate PreaccessIs(q: Req, e: Event, who: Client, dryRun: bool, r: Req, verdict: Verdict)
    requires e.AtPreaccess?
  {
    var parks := Parks(q, who.zone, e.queued);
    var banned := RedisBan(q) || Told(e.said);
    var reject := !parks && banned && !dryRun;
    && verdict == (if parks then Await else if reject then Status(q.loc.rejectStatus) else Proceed)
    && r.trace == q.trace
         + (if parks || RedisBan(q) then [] else [Called(who.zone, DoIsBlocked(who.key, e.now))])
         + (if reject then [Rejection] else [])
    && r.held.Some?
    && r.held.value.redisPending == (parks || (Pending(q) && (!who.zone.redis || Checked(q))))
    && r.held.value.redisChecked == (Checked(q) || (who.zone.redis && !parks))
    && r.held.value.redisBlocked == RedisBan(q)
    && r.held.value.responseSeen == Seen(q)
    && r.held.value.state == (if parks || !banned then StateOf(q) else if dryRun then DryRun else Barred)
    && r.held.value.count == (if parks then CountOf(q) else if RedisBan(q) then who.zone.policy.threshold
                              else if e.said.NoRoom? then CountOf(q) else e.said.count)
    && r.held.value.until == (if parks || RedisBan(q) || e.said.NoRoom? then UntilOf(q) else e.said.until)
  }

  lemma BarIs(q: Req, c: Context, dryRun: bool)
    requires EffectiveDryRun(c, q.loc) == dryRun
    ensures var (r, verdict) := Bar(q, c);
            && r.trace == q.trace + (if dryRun then [] else [Rejection])
            && verdict == (if dryRun then Proceed else Status(q.loc.rejectStatus))
            && r.held == Some(if dryRun then c.(state := DryRun) else c.(state := Barred, ownRejection := true))
  {
  }

  /** The context after the end of preaccess. */
  function Judged(c: Context, banned: bool, dryRun: bool): Context
  {
    if !banned then c else if dryRun then c.(state := DryRun) else c.(state := Barred, ownRejection := true)
  }

  lemma WeighUnasked(q: Req, c: Context, zone: ZoneConf, now: Clock, said: Reply, dryRun: bool)
    requires EffectiveDryRun(c, q.loc) == dryRun && c.redisBlocked
    ensures var (r, verdict) := Weigh(q, c, zone, now, said);
            && verdict == (if dryRun then Proceed else Status(q.loc.rejectStatus))
            && r.trace == q.trace + (if dryRun then [] else [Rejection])
            && r.held == Some(Judged(c.(count := zone.policy.threshold), true, dryRun))
  {
    hide Bar;
    BarIs(q, c.(count := zone.policy.threshold), dryRun);
  }

  lemma WeighAsked(q: Req, c: Context, zone: ZoneConf, now: Clock, said: Reply, dryRun: bool)
    requires EffectiveDryRun(c, q.loc) == dryRun && !c.redisBlocked
    ensures var (r, verdict) := Weigh(q, c, zone, now, said);
            && verdict == (if Told(said) && !dryRun then Status(q.loc.rejectStatus) else Proceed)
            && r.trace == q.trace + [Called(zone, DoIsBlocked(c.key, now))]
                                  + (if Told(said) && !dryRun then [Rejection] else [])
            && r.held == Some(Judged(RequestModel.Told(c, said), Told(said), dryRun))
  {
    hide Bar;
    var asked := q.trace + [Called(zone, DoIsBlocked(c.key, now))];
    assert asked + [] == asked;
    if Told(said) { BarIs(q.(trace := asked), RequestModel.Told(c, said), dryRun); }
  }

  lemma WeighIs(q: Req, c: Context, zone: ZoneConf, now: Clock, said: Reply, dryRun: bool)
    requires EffectiveDryRun(c, q.loc) == dryRun
    ensures var (r, verdict) := Weigh(q, c, zone, now, said);
            var banned := c.redisBlocked || Told(said);
            && verdict == (if banned && !dryRun then Status(q.loc.rejectStatus) else Proceed)
            && r.trace == q.trace + (if c.redisBlocked then [] else [Called(zone, DoIsBlocked(c.key, now))])
                                  + (if banned && !dryRun then [Rejection] else [])
            && r.held.Some?
            && r.held.value.redisPending == c.redisPending && r.held.value.redisChecked == c.redisChecked
            && r.held.value.redisBlocked == c.redisBlocked && r.held.value.responseSeen == c.responseSeen
            && r.held.value.state == (if !banned then c.state else if dryRun then DryRun else Barred)
            && r.held.value.count == (if c.redisBlocked then zone.policy.threshold
                                      else if said.NoRoom? then c.count else said.count)
            && r.held.value.until == (if c.redisBlocked || said.NoRoom? then c.until else said.until)
  {
    hide Weigh;
    if c.redisBlocked {
      WeighUnasked(q, c, zone, now, said, dryRun);
      assert q.trace + [] == q.trace;
    } else {
      WeighAsked(q, c, zone, now, said, dryRun);
    }
  }

  lemma PreaccessStep(q: Req, o: Origin, e: Event)
    requires Follows(q, o) && e.AtPreaccess? && e.main && HasClient(Decide(o, e.supplies))
    ensures var d := Decide(o, e.supplies);
            var (r, verdict) := Preaccess(q, true, e.supplies, e.queued, e.now, e.said);
            PreaccessIs(q, e, d.client.value, d.dryRun, r, verdict)
  {
    hide Prepare, Decide, Weigh, Follows;
    PrepareRemembers(q, o, e.supplies);
    var (q1, _) := Prepare(q, e.supplies);
    var d := Decide(o, e.supplies);
    var c := q1.held.value;
    var zone := d.client.value.zone;
    WeighIs(q1, c, zone, e.now, e.said, d.dryRun);
    WeighIs(q1, AskRedis(c, e.queued), zone, e.now, e.said, d.dryRun);
  }

  /** The location wants a client, but its key or memory for the context cannot be had. */
  predicate Fails(o: Origin, s: Supplies)
  {
    && o.Undecided? && !o.blocked && o.loc.enabled && o.loc.zone.Some?
    && !(s.raw == Some([]) && s.context && s.anchor)
  }

  /** Without a client preaccess does nothing and passes the request, unless preparing one has failed. */
  lemma PreaccessWithoutClient(q: Req, o: Origin, e: Event)
    requires Follows(q, o) && e.AtPreaccess? && (e.main ==> !HasClient(Decide(o, e.supplies)))
    ensures var (r, verdict) := Preaccess(q, e.main, e.supplies, e.queued, e.now, e.said);
            && r.trace == q.trace && (!e.main ==> r == q)
            && verdict == if e.main && Fails(o, e.supplies) then Status(500) else Proceed
  {
    hide Judge, Accounts;
  }

  // ---------------------------------------------------------------- the header filter

  /** Everything the header filter does for a client. */
  ghost predicate FilterIs(q: Req, e: Event, d: Origin, r: Req, verdict: Verdict)
    requires e.AtFilter? && HasClient(d)
  {
    var who := d.client.value;
    var tracked := Statuses.StatusMatches(who.zone.statuses, e.status);
    var rejected := Rejection in q.trace;
    var records := !d.answered && !rejected && !d.dryRun && tracked;
    var peeks := !d.answered && d.dryRun && tracked && StateOf(q) != DryRun;
    var full := records && e.said.NoRoom? && who.zone.rejectWhenFull;
    && verdict == (if full then Status(q.loc.rejectStatus)
                   else if rejected && !Seen(q) && !e.headersFit then Abort
                   else Proceed)
    && r.trace == q.trace
         + (if records then [Called(who.zone, DoRecord(who.key, e.now, e.grants))] else [])
         + (if records && who.zone.redis then [Mirrored(who.zone, who.key)] else [])
         + (if full then [Rejection] else [])
         + (if peeks then [Called(who.zone, DoPeek(who.key, e.now))] else [])
    && r.held.Some?
    && r.held.value.responseSeen == !full
    && r.held.value.redisPending == Pending(q) && r.held.value.redisChecked == Checked(q)
    && r.held.value.redisBlocked == RedisBan(q)
    && r.held.value.state
       == (if peeks then DryRun
           else if !records then StateOf(q)
           else if e.said.NoRoom? then (if full then Barred else StateOf(q))
           else if e.said.Answer? && e.said.rc == BUSY then Barred else Counted)
    && (r.held.value.count, r.held.value.until)
       == (if (peeks || records) && !e.said.NoRoom? then (e.said.count, e.said.until)
           else (CountOf(q), UntilOf(q)))
  }

  lemma ConcludeIs(q: Req, c: Context, zone: ZoneConf, said: Reply)
    ensures var (r, verdict) := Conclude(q, c, zone, said);
            var full := said.NoRoom? && zone.rejectWhenFull;
            && verdict == (if full then Status(q.loc.rejectStatus) else Proceed)
            && r.trace == q.trace + (if full then [Rejection] else [])
            && r.held.Some?
            && r.held.value.responseSeen == (c.responseSeen && !full)
            && r.held.value.redisPending == c.redisPending && r.held.value.redisChecked == c.redisChecked
            && r.held.value.redisBlocked == c.redisBlocked
            && r.held.value.state == (if said.NoRoom? then (if full then Barred else c.state)
                                      else if said.Answer? && said.rc == BUSY then Barred else Counted)
            && (r.held.value.count, r.held.value.until)
               == (if said.NoRoom? then (c.count, c.until) else (said.count, said.until))
  {
  }

  lemma RecordOrPeekIs(q: Req, c: Context, zone: ZoneConf, now: Clock, grants: seq<bool>, said: Reply)
    requires c.responseSeen
    ensures var (r, verdict) := RecordOrPeek(q, c, zone, now, grants, said);
            var full := !c.dryRun && said.NoRoom? && zone.rejectWhenFull;
            && verdict == (if full then Status(q.loc.rejectStatus) else Proceed)
            && r.trace == q.trace
                 + (if c.dryRun then [] else [Called(zone, DoRecord(c.key, now, grants))])
                 + (if !c.dryRun && zone.redis then [Mirrored(zone, c.key)] else [])
                 + (if full then [Rejection] else [])
                 + (if c.dryRun then [Called(zone, DoPeek(c.key, now))] else [])
            && r.held.Some?
            && r.held.value.responseSeen == !full
            && r.held.value.redisPending == c.redisPending && r.held.value.redisChecked == c.redisChecked
            && r.held.value.redisBlocked == c.redisBlocked
            && r.held.value.state == (if c.dryRun then DryRun
                                      else if said.NoRoom? then (if full then Barred else c.state)
                                      else if said.Answer? && said.rc == BUSY then Barred else Counted)
            && (r.held.value.count, r.held.value.until)
               == (if said.NoRoom? then (c.count, c.until) else (said.count, said.until))
  {
    hide Conclude;
    var recorded := q.trace + [Called(zone, DoRecord(c.key, now, grants))];
    ConcludeIs(q.(trace := if zone.redis then recorded + [Mirrored(zone, c.key)] else recorded), c, zone, said);
    assert q.trace + [] + [] + [] == q.trace;
  }

  lemma FilterStep(q: Req, o: Origin, e: Event)
    requires Follows(q, o) && e.AtFilter? && e.main && HasClient(Decide(o, e.supplies))
    ensures var (r, verdict) := HeaderFilter(q, true, e.supplies, e.status, e.now, e.grants, e.said,
                                             e.headersFit);
            FilterIs(q, e, Decide(o, e.supplies), r, verdict)
  {
    hide Prepare, Decide, RecordOrPeek, Follows, Statuses.StatusMatches;
    PrepareRemembers(q, o, e.supplies);
    PrepareFollows(q, o, e.supplies);
    var (q1, _) := Prepare(q, e.supplies);
    var d := Decide(o, e.supplies);
    FollowsClient(q1, d);
    Flags(q1.held.value, q1.trace, d.client.value, d.dryRun, d.answered);
    ClientOf(q1.held.value, q1.trace, d.client.value, d.dryRun, d.answered);
    var c := q1.held.value.(responseSeen := true, dryRun := d.dryRun);
    RecordOrPeekIs(q1.(held := Some(c)), c, d.client.value.zone, e.now, e.grants, e.said);
  }

  /** Without a client the header filter does nothing. */
  lemma FilterWithoutClient(q: Req, o: Origin, e: Event)
    requires Follows(q, o) && e.AtFilter? && (e.main ==> !HasClient(Decide(o, e.supplies)))
    ensures var (r, verdict) := HeaderFilter(q, e.main, e.supplies, e.status, e.now, e.grants, e.said,
                                             e.headersFit);
            r.trace == q.trace && (!e.main ==> r == q) && verdict == Proceed
  {
    hide Respond, Accounts;
  }

  // ---------------------------------------------------------------- over every run

  /** In every reachable state: what preaccess does and answers. */
  lemma PreaccessExactly(loc: Location, es: seq<Event>, e: Event)
    requires e.AtPreaccess?
    ensures var q, o := Run(Fresh(loc), es), OriginOf(Undecided(loc, false), es);
            var d := Decide(o, e.supplies);
            var (r, verdict) := Preaccess(q, e.main, e.supplies, e.queued, e.now, e.said);
            if e.main && HasClient(d) then PreaccessIs(q, e, d.client.value, d.dryRun, r, verdict)
            else && r.trace == q.trace && (!e.main ==> r == q)
                 && verdict == if e.main && Fails(o, e.supplies) then Status(500) else Proceed
  {
    hide Run, OriginOf, Preaccess, PreaccessIs, Follows;
    var q, o := Run(Fresh(loc), es), OriginOf(Undecided(loc, false), es);
    FreshFollows(loc);
    RunFollows(Fresh(loc), Undecided(loc, false), es);
    if e.main && HasClient(Decide(o, e.supplies)) { PreaccessStep(q, o, e); }
    else { PreaccessWithoutClient(q, o, e); }
  }

  /** And what the header filter does and answers. */
  lemma FilterExactly(loc: Location, es: seq<Event>, e: Event)
    requires e.AtFilter?
    ensures var q, o := Run(Fresh(loc), es), OriginOf(Undecided(loc, false), es);
            var d := Decide(o, e.supplies);
            var (r, verdict) := HeaderFilter(q, e.main, e.supplies, e.status, e.now, e.grants, e.said,
                                             e.headersFit);
            if e.main && HasClient(d) then FilterIs(q, e, d, r, verdict)
            else r.trace == q.trace && (!e.main ==> r == q) && verdict == Proceed
  {
    hide Run, OriginOf, HeaderFilter, FilterIs, Follows;
    var q, o := Run(Fresh(loc), es), OriginOf(Undecided(loc, false), es);
    FreshFollows(loc);
    RunFollows(Fresh(loc), Undecided(loc, false), es);
    if e.main && HasClient(Decide(o, e.supplies)) { FilterStep(q, o, e); }
    else { FilterWithoutClient(q, o, e); }
  }

  lemma FreshFollows(loc: Location)
    ensures Follows(Fresh(loc), Undecided(loc, false))
  {
  }

  /** The location a request is in: where its last redirect led. */
  function LastTarget(loc: Location, es: seq<Event>): Location
  {
    if es == [] then loc
    else if es[|es| - 1].GoTo? then es[|es| - 1].to
    else LastTarget(loc, es[..|es| - 1])
  }

  lemma HandleMoves(q: Req, e: Event)
    ensures Handle(q, e).loc == if e.GoTo? then e.to else q.loc
  {
    hide Statuses.StatusMatches;
  }

  lemma {:induction false} LastTargetShift(loc: Location, es: seq<Event>)
    requires es != []
    ensures LastTarget(loc, es) == LastTarget(if es[0].GoTo? then es[0].to else loc, es[1..])
  {
    if |es| > 1 {
      var front := es[..|es| - 1];
      assert es[1..][..|es| - 2] == front[1..] && es[1..][|es| - 2] == es[|es| - 1] && front[0] == es[0];
      if !es[|es| - 1].GoTo? { LastTargetShift(loc, front); }
    } else {
      assert es[1..] == [] && es[..0] == [];
    }
  }

  lemma {:induction false} RunMoves(q: Req, es: seq<Event>)
    ensures Run(q, es).loc == LastTarget(q.loc, es)
    decreases |es|
  {
    hide Handle;
    if es != [] {
      HandleMoves(q, es[0]);
      RunMoves(Handle(q, es[0]), es[1..]);
      LastTargetShift(q.loc, es);
    }
  }

  /** Preaccess finds the client banned. */
  predicate FindsBan(q: Req, o: Origin, e: Event)
  {
    e.AtPreaccess? && e.main && HasClient(Decide(o, e.supplies)) &&
    !Parks(q, Decide(o, e.supplies).client.value.zone, e.queued) && (RedisBan(q) || Told(e.said))
  }

  predicate FoundBan(q: Req, o: Origin, es: seq<Event>)
    decreases |es|
  {
    es != [] && (FindsBan(q, o, es[0]) || FoundBan(Handle(q, es[0]), OriginStep(o, es[0]), es[1..]))
  }

  predicate ShowsDryRun(q: Req, o: Origin)
  {
    HasClient(o) && StateOf(q) == DryRun
  }

  lemma ShowsStep(q: Req, o: Origin, e: Event)
    requires Follows(q, o)
    ensures var o' := OriginStep(o, e);
            HasClient(o') && o'.dryRun && !o'.answered ==>
              (ShowsDryRun(Handle(q, e), o') <==> ShowsDryRun(q, o) || FindsBan(q, o, e))
  {
    hide Preaccess, HeaderFilter, Decide, Accounts;
    if e.AtPreaccess? && !e.main {
      PreaccessWithoutClient(q, o, e);
    } else if e.AtFilter? && !e.main {
      FilterWithoutClient(q, o, e);
    } else if e.AtPreaccess? {
      DecideKeeps(o, e.supplies);
      if HasClient(Decide(o, e.supplies)) {
        PreaccessStep(q, o, e);
        if !HasClient(o) { FirstIsPassed(q, o, e.supplies); }
      }
    }
  }

  lemma DecideKeeps(o: Origin, s: Supplies)
    ensures o.Decided? ==> Decide(o, s) == o
  {
  }

  /** A client just found has had nothing shown for it. */
  lemma FirstIsPassed(q: Req, o: Origin, s: Supplies)
    requires Follows(q, o) && !HasClient(o) && HasClient(Decide(o, s))
    ensures StateOf(q) == Passed
  {
  }

  lemma {:induction false} ClientStays(o: Origin, es: seq<Event>)
    requires HasClient(o)
    ensures var r := OriginOf(o, es);
            HasClient(r) && r.client == o.client && r.dryRun == o.dryRun && (o.answered ==> r.answered)
    decreases |es|
  {
    if es != [] { ClientStays(OriginStep(o, es[0]), es[1..]); }
  }

  /** For a dry-run origin with no response answered yet, what is shown tells whether some preaccess of
      the request has found the client banned; then the filter does not ask again. */
  lemma {:induction false} StateTellsBan(q: Req, o: Origin, es: seq<Event>)
    requires Follows(q, o)
    ensures var r := OriginOf(o, es);
            HasClient(r) && r.dryRun && !r.answered ==>
              (ShowsDryRun(Run(q, es), r) <==> ShowsDryRun(q, o) || FoundBan(q, o, es))
    decreases |es|
  {
    hide Handle, OriginStep, Follows, ShowsDryRun, FindsBan, HasClient;
    if es != [] {
      var q', o' := Handle(q, es[0]), OriginStep(o, es[0]);
      HandleFollows(q, o, es[0]);
      StateTellsBan(q', o', es[1..]);
      if HasClient(o') { ClientStays(o', es[1..]); ShowsStep(q, o, es[0]); }
      else { NoClientYet(q, o, es[0]); }
    }
  }

  lemma NoClientYet(q: Req, o: Origin, e: Event)
    requires !HasClient(OriginStep(o, e))
    ensures !ShowsDryRun(q, o) && !FindsBan(q, o, e) && !ShowsDryRun(Handle(q, e), OriginStep(o, e))
  {
    hide Handle;
  }
}

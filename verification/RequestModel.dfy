/** One client request through the module's two phases, across internal redirects that wipe its
    context slot: the state machine, and what it does to zones and clients over any sequence of
    events. */
module RequestModel {
  import opened Times
  import opened Wrappers
  import opened ZoneModel
  import Durability
  import Observation
  import RedisScript
  import Statuses

  type Bitmap = b: seq<bv8> | |b| == Statuses.STATUS_BYTES
    witness seq(Statuses.STATUS_BYTES, _ => 0)

  datatype ZoneConf = ZoneConf(name: seq<byte>, policy: Policy, statuses: Bitmap, redis: bool,
                               rejectWhenFull: bool)

  datatype Location = Location(enabled: bool, zone: Option<ZoneConf>, dryRun: bool, rejectStatus: nat)

  datatype State = Bypassed | Passed | Counted | Barred | DryRun

  /** The request context. */
  datatype Context = Context(zone: Option<ZoneConf>, key: Key, count: nat, until: int, state: State,
                             responseSeen: bool, ownRejection: bool, dryRun: bool,
                             redisPending: bool, redisChecked: bool, redisBlocked: bool,
                             fromAnchor: bool)

  /** What preparing a context draws on: the evaluated key unless evaluation fails, its SHA-256, and
      whether each pool allocation succeeds. */
  datatype Supplies = Supplies(raw: Option<seq<byte>>, digest: Key, context: bool, anchor: bool,
                               digestRoom: bool, logKeyRoom: bool)

  /** What the request does to the outside: a call on a zone, a record sent to Redis, a rejection of
      the client. */
  datatype Effect = Called(zone: ZoneConf, op: Op) | Mirrored(zone: ZoneConf, key: Key) | Rejection

  datatype Verdict = Proceed | Await | Status(code: nat) | Abort

  /** A request: its location, its context as long as something refers to it, whether the context
      slot does, whether the cleanup anchor does, and what it has done so far. */
  datatype Req = Req(loc: Location, held: Option<Context>, inSlot: bool, anchored: bool,
                     trace: seq<Effect>)

  function Fresh(loc: Location): Req
  {
    Req(loc, None, false, false, [])
  }

  // ---------------------------------------------------------------- the two phases on values

  function Blank(dryRun: bool): Context
  {
    Context(None, [], 0, 0, Bypassed, false, false, dryRun, false, false, false, false)
  }

  /** prepare_ctx(); the flag says whether it returned a context. */
  function Prepare(q: Req, s: Supplies): (r: (Req, bool))
    ensures r.1 ==> r.0.held.Some? && r.0.inSlot
    ensures r.0.trace == q.trace && r.0.loc == q.loc
  {
    if q.held.Some? then
      if q.inSlot then (q, true)
      else (q.(held := Some(q.held.value.(fromAnchor := true)), inSlot := true), true)
    else if !q.loc.enabled || q.loc.zone.None? || s.raw.None? || !s.context then (q, false)
    else
      var bare := Blank(q.loc.dryRun);
      if !s.anchor then (q.(held := Some(bare), inSlot := true), false)
      else
        var c :=
          if s.raw.value == [] || !s.digestRoom then bare
          else if !s.logKeyRoom then bare.(key := s.digest)
          else bare.(key := s.digest, zone := q.loc.zone, state := Passed);
        (q.(held := Some(c), inSlot := true, anchored := true), s.raw.value == [] || c.zone.Some?)
  }

  function EffectiveDryRun(c: Context, loc: Location): bool
  {
    if c.fromAnchor then c.dryRun else loc.dryRun
  }

  /** The end of preaccess for a banned identity. */
  function Bar(q: Req, c: Context): (Req, Verdict)
  {
    if EffectiveDryRun(c, q.loc) then (q.(held := Some(c.(state := DryRun))), Proceed)
    else (q.(held := Some(c.(state := Barred, ownRejection := true)), trace := q.trace + [Rejection]),
          Status(q.loc.rejectStatus))
  }

  function Told(c: Context, said: Reply): Context
  {
    if said.NoRoom? then c else c.(count := said.count, until := said.until)
  }

  predicate SaysBlocked(said: Reply)
  {
    said.Answer? && said.rc == OK
  }

  /** redis_check(): park the request, or go on without Redis. */
  function AskRedis(c: Context, queued: bool): Context
  {
    if c.redisPending then c
    else if queued then c.(redisPending := true)
    else c.(redisChecked := true)
  }

  /** preaccess with Redis heard or left aside: a ban known from there, or else the zone's answer. */
  function Weigh(q: Req, c: Context, zone: ZoneConf, now: Clock, said: Reply): (Req, Verdict)
  {
    if c.redisBlocked then Bar(q, c.(count := zone.policy.threshold))
    else
      var asked := q.(trace := q.trace + [Called(zone, DoIsBlocked(c.key, now))]);
      if SaysBlocked(said) then Bar(asked, Told(c, said))
      else (asked.(held := Some(Told(c, said))), Proceed)
  }

  /** preaccess on the context that stands in the slot. */
  function Judge(q: Req, queued: bool, now: Clock, said: Reply): (Req, Verdict)
    requires q.held.Some? && q.held.value.zone.Some?
  {
    var c := q.held.value;
    var zone := c.zone.value;
    if zone.redis && !c.redisChecked then
      var asked := AskRedis(c, queued);
      if !asked.redisChecked then (q.(held := Some(asked)), Await)
      else Weigh(q, asked, zone, now, said)
    else Weigh(q, c, zone, now, said)
  }

  function Preaccess(q: Req, main: bool, s: Supplies, queued: bool, now: Clock, said: Reply): (Req, Verdict)
  {
    if !main then (q, Proceed)
    else
      var (q1, ready) := Prepare(q, s);
      if !ready then (q1, if q.loc.enabled && q.loc.zone.Some? then Status(500) else Proceed)
      else if q1.held.value.zone.None? then (q1, Proceed)
      else Judge(q1, queued, now, said)
  }

  /** The zone answered record(). */
  function Conclude(q: Req, c: Context, zone: ZoneConf, said: Reply): (Req, Verdict)
  {
    if said.NoRoom? then
      if zone.rejectWhenFull then
        (q.(held := Some(c.(state := Barred, ownRejection := true, responseSeen := false)),
            trace := q.trace + [Rejection]), Status(q.loc.rejectStatus))
      else (q.(held := Some(c)), Proceed)
    else
      (q.(held := Some(Told(c, said).(state := if said.Answer? && said.rc == BUSY then Barred else Counted))),
       Proceed)
  }

  /** A tracked error response: only predicted under dry run, else recorded. */
  function RecordOrPeek(q: Req, c: Context, zone: ZoneConf, now: Clock, grants: seq<bool>, said: Reply)
    : (Req, Verdict)
  {
    if c.dryRun then
      (q.(held := Some(Told(c, said).(state := DryRun)),
          trace := q.trace + [Called(zone, DoPeek(c.key, now))]), Proceed)
    else
      var recorded := q.trace + [Called(zone, DoRecord(c.key, now, grants))];
      var sent := if zone.redis then recorded + [Mirrored(zone, c.key)] else recorded;
      Conclude(q.(trace := sent), c, zone, said)
  }

  /** The header filter on the context that stands in the slot, which has seen no response yet. */
  function Respond(q: Req, status: nat, now: Clock, grants: seq<bool>, said: Reply, headersFit: bool)
    : (Req, Verdict)
    requires q.held.Some? && q.held.value.zone.Some?
  {
    var zone := q.held.value.zone.value;
    var c := q.held.value.(responseSeen := true, dryRun := EffectiveDryRun(q.held.value, q.loc));
    var seen := q.(held := Some(c));
    if c.ownRejection then (seen, if headersFit then Proceed else Abort)
    else if c.state == DryRun || !Statuses.StatusMatches(zone.statuses, status) then (seen, Proceed)
    else RecordOrPeek(seen, c, zone, now, grants, said)
  }

  function HeaderFilter(q: Req, main: bool, s: Supplies, status: nat, now: Clock, grants: seq<bool>,
                        said: Reply, headersFit: bool): (Req, Verdict)
  {
    if !main then (q, Proceed)
    else
      var (q1, ready) := Prepare(q, s);
      if !ready || q1.held.value.zone.None? || q1.held.value.responseSeen then (q1, Proceed)
      else Respond(q1, status, now, grants, said, headersFit)
  }

  /** What the block-key lookup brought: the text's value for a string, or something else. */
  datatype Lookup = Text(deadline: int) | NotText

  function Heard(c: Context, p: Policy, answer: Lookup, now: Clock): Context
  {
    var done := c.(redisPending := false, redisChecked := true, redisBlocked := answer.Text?);
    if answer.Text? then
      done.(until := RedisScript.Bounded(p, answer.deadline, now), count := p.threshold)
    else done
  }

  /** The lookup's callback, on the context then in the slot. */
  function Answered(q: Req, answer: Lookup, now: Clock): Req
  {
    if q.held.None? || !q.inSlot || !q.held.value.redisPending || q.held.value.zone.None? then q
    else q.(held := Some(Heard(q.held.value, q.held.value.zone.value.policy, answer, now)))
  }

  /** An internal redirect wipes the slot; a context nothing anchors is gone. */
  function Redirected(q: Req, to: Location): Req
  {
    q.(loc := to, inSlot := false, held := if q.anchored then q.held else None)
  }

  datatype Event =
    | GoTo(to: Location)
    | AtPreaccess(main: bool, supplies: Supplies, queued: bool, now: Clock, said: Reply)
    | AtFilter(main: bool, supplies: Supplies, status: nat, now: Clock, grants: seq<bool>, said: Reply,
               headersFit: bool)
    | RedisAnswer(answer: Lookup, now: Clock)

  function Handle(q: Req, e: Event): Req
  {
    match e
    case GoTo(to) => Redirected(q, to)
    case AtPreaccess(main, s, queued, now, said) => Preaccess(q, main, s, queued, now, said).0
    case AtFilter(main, s, status, now, grants, said, fit) =>
      HeaderFilter(q, main, s, status, now, grants, said, fit).0
    case RedisAnswer(answer, now) => Answered(q, answer, now)
  }

  function Run(q: Req, es: seq<Event>): Req
    decreases |es|
  {
    if es == [] then q else Run(Handle(q, es[0]), es[1..])
  }

  // ---------------------------------------------------------------- the origin

  datatype Client = Client(zone: ZoneConf, key: Key)

  /** Who a request is accounted to, read off the events alone. Undecided until some location has
      anchored a context; blocked while a context that could not be anchored fills the slot. Then the
      client, unless the key was empty or did not fit, the dry-run setting of that location, and
      whether a response has passed. */
  datatype Origin =
    | Undecided(loc: Location, blocked: bool)
    | Decided(client: Option<Client>, dryRun: bool, answered: bool)

  function Decide(o: Origin, s: Supplies): Origin
  {
    if o.Decided? || o.blocked || !o.loc.enabled || o.loc.zone.None? || s.raw.None? || !s.context then o
    else if !s.anchor then Undecided(o.loc, true)
    else if s.raw.value == [] || !s.digestRoom || !s.logKeyRoom then Decided(None, o.loc.dryRun, false)
    else Decided(Some(Client(o.loc.zone.value, s.digest)), o.loc.dryRun, false)
  }

  function MarkAnswered(o: Origin): Origin
  {
    if o.Decided? then o.(answered := true) else o
  }

  function OriginStep(o: Origin, e: Event): Origin
  {
    match e
    case GoTo(to) => if o.Undecided? then Undecided(to, false) else o
    case AtPreaccess(main, s, _, _, _) => if main then Decide(o, s) else o
    case AtFilter(main, s, _, _, _, _, _) => if main then MarkAnswered(Decide(o, s)) else o
    case RedisAnswer(_, _) => o
  }

  function OriginOf(o: Origin, es: seq<Event>): Origin
    decreases |es|
  {
    if es == [] then o else OriginOf(OriginStep(o, es[0]), es[1..])
  }

  // ---------------------------------------------------------------- lawful traces

  predicate IsRecord(e: Effect)
  {
    e.Called? && e.op.DoRecord?
  }

  /** An effect that a request of this origin may have. */
  predicate Allowed(e: Effect, client: Client, dryRun: bool)
  {
    match e
    case Called(zone, op) =>
      zone == client.zone && op.key == client.key && if dryRun then !op.DoRecord? else !op.DoPeek?
    case Mirrored(zone, key) => zone == client.zone && key == client.key && !dryRun
    case Rejection => !dryRun
  }

  /** At most one record, and none after a rejection; each record sent to Redis follows one. */
  ghost predicate Lawful(trace: seq<Effect>)
  {
    && (forall i, j :: 0 <= i < j < |trace| && (IsRecord(trace[i]) || trace[i].Rejection?)
          ==> !IsRecord(trace[j]))
    && forall i :: 0 <= i < |trace| && trace[i].Mirrored? ==> i > 0 && IsRecord(trace[i - 1])
  }

  /** The trace belongs to this origin, and the context shows what it has come to. */
  ghost predicate Accounts(c: Context, trace: seq<Effect>, client: Client, dryRun: bool, answered: bool)
  {
    && c.zone == Some(client.zone) && c.key == client.key
    && (forall e :: e in trace ==> Allowed(e, client, dryRun))
    && Lawful(trace)
    && (c.ownRejection <==> Rejection in trace)
    && (c.responseSeen ==> answered)
    && (answered ==> c.responseSeen || c.ownRejection)
    && ((exists e :: e in trace && IsRecord(e)) ==> answered)
    && (c.state == DryRun ==> dryRun)
  }

  ghost predicate Follows(q: Req, o: Origin)
  {
    match o
    case Undecided(loc, blocked) =>
      && q.loc == loc && !q.anchored && q.held.Some? == blocked && q.trace == []
      && (blocked ==> q.inSlot && q.held.value.zone.None?)
    case Decided(client, dryRun, answered) =>
      && q.anchored && q.held.Some?
      && q.held.value.dryRun == dryRun
      && (q.inSlot && !q.held.value.fromAnchor ==> q.loc.dryRun == dryRun)
      && match client
         case None => q.held.value.zone.None? && q.trace == []
         case Some(who) => Accounts(q.held.value, q.trace, who, dryRun, answered)
  }

  lemma LawfulMore(trace: seq<Effect>, e: Effect)
    requires Lawful(trace)
    requires IsRecord(e) ==> forall x :: x in trace ==> !IsRecord(x) && !x.Rejection?
    requires e.Mirrored? ==> trace != [] && IsRecord(trace[|trace| - 1])
    ensures Lawful(trace + [e])
  {
    var more := trace + [e];
    assert forall i :: 0 <= i < |trace| ==> more[i] == trace[i] && trace[i] in trace;
  }

  lemma PrepareFollows(q: Req, o: Origin, s: Supplies)
    requires Follows(q, o)
    ensures var (r, ready) := Prepare(q, s);
            && Follows(r, Decide(o, s))
            && (ready && r.held.value.zone.Some? <==> HasClient(Decide(o, s)))
  {
  }

  predicate HasClient(o: Origin)
  {
    o.Decided? && o.client.Some?
  }

  lemma FollowsClient(q: Req, o: Origin)
    requires HasClient(o)
    ensures Follows(q, o)
       <==> (&& q.anchored && q.held.Some? && q.held.value.dryRun == o.dryRun
             && (q.inSlot && !q.held.value.fromAnchor ==> q.loc.dryRun == o.dryRun)
             && Accounts(q.held.value, q.trace, o.client.value, o.dryRun, o.answered))
  {
    hide Accounts;
  }

  /** Effects that are neither a record nor a rejection leave the accounts in order. */
  lemma AskingAccounts(c: Context, trace: seq<Effect>, who: Client, dryRun: bool, answered: bool, e: Effect)
    requires Accounts(c, trace, who, dryRun, answered)
    requires e.Called? && !IsRecord(e) && Allowed(e, who, dryRun)
    ensures Accounts(c, trace + [e], who, dryRun, answered)
  {
    hide Allowed;
    LawfulMore(trace, e);
  }

  /** Only these fields of the context are accounted for. */
  lemma SameAccounts(c: Context, d: Context, trace: seq<Effect>, who: Client, dryRun: bool, answered: bool)
    requires Accounts(c, trace, who, dryRun, answered)
    requires c.zone == d.zone && c.key == d.key
    requires c.responseSeen == d.responseSeen && c.ownRejection == d.ownRejection
    requires d.state == DryRun ==> dryRun
    ensures Accounts(d, trace, who, dryRun, answered)
  {
    hide Allowed, Lawful;
  }

  lemma BarAccounts(q: Req, c: Context, o: Origin)
    requires q.inSlot && q.anchored && HasClient(o) && c.dryRun == o.dryRun
    requires !c.fromAnchor ==> q.loc.dryRun == o.dryRun
    requires Accounts(c, q.trace, o.client.value, o.dryRun, o.answered)
    ensures Follows(Bar(q, c).0, o)
  {
    LawfulMore(q.trace, Rejection);
  }

  lemma WeighFollows(q: Req, c: Context, o: Origin, now: Clock, said: Reply)
    requires q.inSlot && q.anchored && HasClient(o) && c.dryRun == o.dryRun
    requires !c.fromAnchor ==> q.loc.dryRun == o.dryRun
    requires Accounts(c, q.trace, o.client.value, o.dryRun, o.answered)
    ensures Follows(Weigh(q, c, o.client.value.zone, now, said).0, o)
  {
    hide Bar, Accounts;
    var who, t := o.client.value, q.trace;
    ClientOf(c, t, who, o.dryRun, o.answered);
    if c.redisBlocked {
      var barred := c.(count := who.zone.policy.threshold);
      SameAccounts(c, barred, t, who, o.dryRun, o.answered);
      BarAccounts(q, barred, o);
    } else {
      var e := Called(who.zone, DoIsBlocked(c.key, now));
      AskingAccounts(c, t, who, o.dryRun, o.answered, e);
      SameAccounts(c, Told(c, said), t + [e], who, o.dryRun, o.answered);
      if SaysBlocked(said) { BarAccounts(q.(trace := t + [e]), Told(c, said), o); }
    }
  }

  lemma JudgeFollows(q: Req, o: Origin, queued: bool, now: Clock, said: Reply)
    requires Follows(q, o) && q.inSlot && HasClient(o)
    ensures Follows(Judge(q, queued, now, said).0, o)
  {
    hide Weigh, Accounts, Follows;
    FollowsClient(q, o);
    var who, c, t := o.client.value, q.held.value, q.trace;
    ClientOf(c, t, who, o.dryRun, o.answered);
    if who.zone.redis && !c.redisChecked {
      var asked := AskRedis(c, queued);
      SameAccounts(c, asked, t, who, o.dryRun, o.answered);
      if asked.redisChecked { WeighFollows(q, asked, o, now, said); }
      FollowsClient(q.(held := Some(asked)), o);
    } else {
      WeighFollows(q, c, o, now, said);
    }
  }

  lemma ClientOf(c: Context, trace: seq<Effect>, who: Client, dryRun: bool, answered: bool)
    requires Accounts(c, trace, who, dryRun, answered)
    ensures c.zone == Some(who.zone) && c.key == who.key && (c.state == DryRun ==> dryRun)
  {
  }

  lemma RecordOrPeekFollows(q: Req, c: Context, o: Origin, answered: bool, now: Clock, grants: seq<bool>,
                            said: Reply)
    requires q.inSlot && q.anchored && HasClient(o) && c.dryRun == o.dryRun
    requires !c.fromAnchor ==> q.loc.dryRun == o.dryRun
    requires var before := c.(responseSeen := false);
             Accounts(before, q.trace, o.client.value, o.dryRun, answered) && !c.ownRejection
    requires c.responseSeen
    ensures Follows(RecordOrPeek(q, c, o.client.value.zone, now, grants, said).0, MarkAnswered(o))
  {
    hide Accounts, Conclude;
    var who, t := o.client.value, q.trace;
    var before := c.(responseSeen := false);
    ClientOf(before, t, who, o.dryRun, answered);
    if o.dryRun {
      var e := Called(who.zone, DoPeek(c.key, now));
      SeenAccounts(before, c, t, who, true, answered);
      AskingAccounts(c, t, who, true, true, e);
      SameAccounts(c, Told(c, said).(state := DryRun), t + [e], who, true, true);
    } else {
      RecordAccounts(before, c, t, who, answered, now, grants);
      var recorded := t + [Called(who.zone, DoRecord(c.key, now, grants))];
      var sent := if who.zone.redis then recorded + [Mirrored(who.zone, c.key)] else recorded;
      ConcludeFollows(q.(trace := sent), c, who, said, o);
    }
  }

  lemma RespondFollows(q: Req, o: Origin, status: nat, now: Clock, grants: seq<bool>, said: Reply, fit: bool)
    requires Follows(q, o) && q.inSlot && HasClient(o) && !q.held.value.responseSeen
    ensures Follows(Respond(q, status, now, grants, said, fit).0, MarkAnswered(o))
  {
    hide Accounts, RecordOrPeek, Follows, Statuses.StatusMatches;
    FollowsClient(q, o);
    var who, c, t := o.client.value, q.held.value, q.trace;
    ClientOf(c, t, who, o.dryRun, o.answered);
    var seen := c.(responseSeen := true, dryRun := o.dryRun);
    SeenAccounts(c, seen, t, who, o.dryRun, o.answered);
    if !c.ownRejection {
      assert seen.(responseSeen := false) == c;
      RecordOrPeekFollows(q.(held := Some(seen)), seen, o, o.answered, now, grants, said);
    }
    FollowsClient(q.(held := Some(seen)), MarkAnswered(o));
  }

  lemma SeenAccounts(c: Context, seen: Context, trace: seq<Effect>, who: Client, dryRun: bool, answered: bool)
    requires Accounts(c, trace, who, dryRun, answered)
    requires seen == c.(responseSeen := true, dryRun := dryRun)
    ensures Accounts(seen, trace, who, dryRun, true)
  {
    hide Allowed, Lawful;
  }

  lemma RecordAccounts(c: Context, seen: Context, trace: seq<Effect>, who: Client, answered: bool,
                       now: Clock, grants: seq<bool>)
    requires Accounts(c, trace, who, false, answered) && !c.responseSeen && !c.ownRejection
    requires seen == c.(responseSeen := true, dryRun := false)
    ensures var recorded := trace + [Called(who.zone, DoRecord(who.key, now, grants))];
            && Accounts(seen, recorded, who, false, true)
            && Accounts(seen, recorded + [Mirrored(who.zone, who.key)], who, false, true)
  {
    hide Lawful;
    var record := Called(who.zone, DoRecord(who.key, now, grants));
    LawfulMore(trace, record);
    LawfulMore(trace + [record], Mirrored(who.zone, who.key));
  }

  lemma ConcludeFollows(q: Req, c: Context, who: Client, said: Reply, o: Origin)
    requires q.inSlot && q.anchored && HasClient(o) && o.client == Some(who) && !o.dryRun && !c.dryRun
    requires !c.fromAnchor ==> !q.loc.dryRun
    requires Accounts(c, q.trace, who, false, true) && c.responseSeen
    ensures Follows(Conclude(q, c, who.zone, said).0, MarkAnswered(o))
  {
    hide Lawful;
    LawfulMore(q.trace, Rejection);
  }

  lemma PreaccessFollows(q: Req, o: Origin, main: bool, s: Supplies, queued: bool, now: Clock, said: Reply)
    requires Follows(q, o)
    ensures Follows(Preaccess(q, main, s, queued, now, said).0, if main then Decide(o, s) else o)
  {
    hide Prepare, Decide, Judge, Follows;
    PrepareFollows(q, o, s);
    var (q1, ready) := Prepare(q, s);
    if main && ready && q1.held.value.zone.Some? { JudgeFollows(q1, Decide(o, s), queued, now, said); }
  }

  lemma FilterFollows(q: Req, o: Origin, e: Event)
    requires Follows(q, o) && e.AtFilter?
    ensures Follows(Handle(q, e), OriginStep(o, e))
  {
    hide Prepare, Decide, Respond, Accounts;
    PrepareFollows(q, o, e.supplies);
    var (q1, ready) := Prepare(q, e.supplies);
    var d := Decide(o, e.supplies);
    if e.main {
      if !HasClient(d) {
      } else if q1.held.value.responseSeen {
        AlreadyAnswered(q1.held.value, q1.trace, d.client.value, d.dryRun, d.answered);
      } else {
        RespondFollows(q1, d, e.status, e.now, e.grants, e.said, e.headersFit);
      }
    }
  }

  lemma AlreadyAnswered(c: Context, trace: seq<Effect>, who: Client, dryRun: bool, answered: bool)
    requires Accounts(c, trace, who, dryRun, answered) && c.responseSeen
    ensures answered
  {
  }

  lemma HandleFollows(q: Req, o: Origin, e: Event)
    requires Follows(q, o)
    ensures Follows(Handle(q, e), OriginStep(o, e))
  {
    hide Preaccess, HeaderFilter, Decide, Lawful;
    match e
    case GoTo(_) =>
    case AtPreaccess(main, s, queued, now, said) => PreaccessFollows(q, o, main, s, queued, now, said);
    case AtFilter(_, _, _, _, _, _, _) => FilterFollows(q, o, e);
    case RedisAnswer(_, _) =>
  }

  lemma {:induction false} RunFollows(q: Req, o: Origin, es: seq<Event>)
    requires Follows(q, o)
    ensures Follows(Run(q, es), OriginOf(o, es))
    decreases |es|
  {
    hide Handle, OriginStep, Follows;
    if es != [] {
      HandleFollows(q, o, es[0]);
      RunFollows(Handle(q, es[0]), OriginStep(o, es[0]), es[1..]);
    }
  }

  // ---------------------------------------------------------------- what every request does

  /** Over every sequence of redirects, phases and Redis answers: at most one record, none after a
      rejection, every zone call for the origin's client in the origin's zone. */
  lemma OneRecordAndOriginWins(loc: Location, es: seq<Event>)
    ensures Lawful(Run(Fresh(loc), es).trace)
    ensures var o := OriginOf(Undecided(loc, false), es);
            match o
            case Undecided(_, _) => Run(Fresh(loc), es).trace == []
            case Decided(None, _, _) => Run(Fresh(loc), es).trace == []
            case Decided(Some(who), dryRun, _) =>
              forall e :: e in Run(Fresh(loc), es).trace ==> Allowed(e, who, dryRun)
  {
    hide Run, OriginOf, Allowed;
    RunFollows(Fresh(loc), Undecided(loc, false), es);
  }

  /** One response is recorded: the first that passes once the origin has a client, if it is tracked,
      the origin enforces and no rejection came before. */
  lemma ResponseIsRecorded(loc: Location, es: seq<Event>, e: Event)
    requires e.AtFilter? && e.main
    ensures var q := Run(Fresh(loc), es);
            var d := Decide(OriginOf(Undecided(loc, false), es), e.supplies);
            (exists x :: x in Handle(q, e).trace[|q.trace|..] && IsRecord(x))
            <==> && HasClient(d) && !d.dryRun && !d.answered && Rejection !in q.trace
                 && Statuses.StatusMatches(d.client.value.zone.statuses, e.status)
  {
    hide Run, OriginOf, Handle;
    RunFollows(Fresh(loc), Undecided(loc, false), es);
    RecordedIff(Run(Fresh(loc), es), OriginOf(Undecided(loc, false), es), e);
  }

  lemma RecordedIff(q: Req, o: Origin, e: Event)
    requires Follows(q, o) && e.AtFilter? && e.main
    ensures var d := Decide(o, e.supplies);
            && |Handle(q, e).trace| >= |q.trace|
            && ((exists x :: x in Handle(q, e).trace[|q.trace|..] && IsRecord(x))
            <==> && HasClient(d) && !d.dryRun && !d.answered && Rejection !in q.trace
                 && Statuses.StatusMatches(d.client.value.zone.statuses, e.status))
  {
    hide Prepare, Decide, Respond, Follows, Statuses.StatusMatches;
    PrepareFollows(q, o, e.supplies);
    var (q1, ready) := Prepare(q, e.supplies);
    var d := Decide(o, e.supplies);
    if HasClient(d) {
      FollowsClient(q1, d);
      ClientOf(q1.held.value, q1.trace, d.client.value, d.dryRun, d.answered);
      Flags(q1.held.value, q1.trace, d.client.value, d.dryRun, d.answered);
      if !q1.held.value.responseSeen { RespondRecords(q1, d, e); }
    }
  }

  lemma Flags(c: Context, trace: seq<Effect>, who: Client, dryRun: bool, answered: bool)
    requires Accounts(c, trace, who, dryRun, answered)
    ensures c.ownRejection <==> Rejection in trace
    ensures (c.responseSeen ==> answered) && (answered ==> c.responseSeen || c.ownRejection)
    ensures dryRun ==> Rejection !in trace
  {
    assert !Allowed(Rejection, who, true);
  }

  lemma RespondRecords(q: Req, o: Origin, e: Event)
    requires Follows(q, o) && HasClient(o) && q.inSlot && !q.held.value.responseSeen && e.AtFilter?
    requires q.held.value.zone == Some(o.client.value.zone)
    ensures var more := Respond(q, e.status, e.now, e.grants, e.said, e.headersFit).0.trace;
            && |more| >= |q.trace|
            && ((exists x :: x in more[|q.trace|..] && IsRecord(x))
                <==> !o.dryRun && !q.held.value.ownRejection
                     && Statuses.StatusMatches(o.client.value.zone.statuses, e.status))
  {
    hide Statuses.StatusMatches, Lawful, Allowed;
    var more := Respond(q, e.status, e.now, e.grants, e.said, e.headersFit).0.trace;
    if !o.dryRun && |more| > |q.trace| {
      assert IsRecord(more[|q.trace|]);
      assert more[|q.trace|..][0] == more[|q.trace|];
    }
  }

  /** An enforcing origin turns its banned client away wherever it was redirected to, a dry-run origin
      never does. */
  lemma BannedIsRejected(loc: Location, es: seq<Event>, e: Event)
    requires e.AtPreaccess? && e.main && SaysBlocked(e.said)
    ensures var q := Run(Fresh(loc), es);
            var d := Decide(OriginOf(Undecided(loc, false), es), e.supplies);
            var (r, verdict) := Preaccess(q, e.main, e.supplies, e.queued, e.now, e.said);
            HasClient(d) && verdict != Await ==>
              if d.dryRun then verdict == Proceed && Rejection !in r.trace
              else verdict == Status(q.loc.rejectStatus) && Rejection in r.trace
  {
    hide Run, OriginOf, Preaccess;
    RunFollows(Fresh(loc), Undecided(loc, false), es);
    RejectedIff(Run(Fresh(loc), es), OriginOf(Undecided(loc, false), es), e);
  }

  lemma RejectedIff(q: Req, o: Origin, e: Event)
    requires Follows(q, o) && e.AtPreaccess? && e.main && SaysBlocked(e.said)
    ensures var d := Decide(o, e.supplies);
            var (r, verdict) := Preaccess(q, e.main, e.supplies, e.queued, e.now, e.said);
            HasClient(d) && verdict != Await ==>
              if d.dryRun then verdict == Proceed && Rejection !in r.trace
              else verdict == Status(q.loc.rejectStatus) && Rejection in r.trace
  {
    hide Prepare, Decide, Follows;
    PrepareFollows(q, o, e.supplies);
    var (q1, ready) := Prepare(q, e.supplies);
    var d := Decide(o, e.supplies);
    if HasClient(d) {
      FollowsClient(q1, d);
      PreaccessFollows(q, o, true, e.supplies, e.queued, e.now, e.said);
      var (r, verdict) := Preaccess(q, true, e.supplies, e.queued, e.now, e.said);
      FollowsClient(r, d);
      Flags(r.held.value, r.trace, d.client.value, d.dryRun, d.answered);
    }
  }

  /** A dry-run origin neither records nor rejects, whatever locations the request is redirected to,
      and no zone call it makes changes anything that can be observed of any identity. */
  lemma DryRunLeavesNoMark(loc: Location, es: seq<Event>)
    ensures var o := OriginOf(Undecided(loc, false), es);
            o.Decided? && o.dryRun ==>
              forall e :: e in Run(Fresh(loc), es).trace ==> e.Called? && Invisible(e.zone.policy, e.op)
  {
    hide Run, OriginOf, Invisible;
    var o := OriginOf(Undecided(loc, false), es);
    OneRecordAndOriginWins(loc, es);
    if o.Decided? && o.dryRun {
      forall e | e in Run(Fresh(loc), es).trace ensures e.Called? && Invisible(e.zone.policy, e.op) {
        assert Allowed(e, o.client.value, true);
        InquiryIsInvisible(e.zone.policy, e.op);
      }
    }
  }

  /** On whatever zone the call falls, no identity looks different after it. */
  ghost predicate Invisible(p: Policy, op: Op)
  {
    forall z: Entries, t: Clock, k: Key :: Observation.Strong(p, z, t) && t <= op.now ==>
      Observation.ObsOf(p, ZoneModel.Step(p, z, op).zone, k, op.now) == Observation.ObsOf(p, z, k, op.now)
  }

  lemma InquiryIsInvisible(p: Policy, op: Op)
    requires !op.DoRecord?
    ensures Invisible(p, op)
  {
    hide Observation.ObsOf, Observation.Strong, ZoneModel.Step, Observation.IdealReply, Observation.Spares;
    forall z: Entries, t: Clock, k: Key | Observation.Strong(p, z, t) && t <= op.now
      ensures Observation.ObsOf(p, ZoneModel.Step(p, z, op).zone, k, op.now)
           == Observation.ObsOf(p, z, k, op.now)
    {
      Observation.StepIsIdeal(p, z, t, op);
      StrongIsUnique(p, z, t);
      Observation.CalmSparesAll(p, z, op, k);
    }
  }

  lemma StrongIsUnique(p: Policy, z: Entries, t: Clock)
    requires Observation.Strong(p, z, t)
    ensures Unique(z)
  {
  }

  /** The location, and the event, of a first dry-run preaccess by the client with this digest. */
  function DryLocation(zone: ZoneConf): Location
  {
    Location(true, Some(zone), true, 429)
  }

  function FirstVisit(raw: seq<byte>, digest: Key, now: Clock, said: Reply): Event
  {
    AtPreaccess(true, Supplies(Some(raw), digest, true, true, true, true), false, now, said)
  }

  lemma DryVisitAsks(zone: ZoneConf, raw: seq<byte>, digest: Key, now: Clock, said: Reply)
    requires !zone.redis && raw != []
    ensures Run(Fresh(DryLocation(zone)), [FirstVisit(raw, digest, now, said)]).trace
         == [Called(zone, DoIsBlocked(digest, now))]
  {
    var event := FirstVisit(raw, digest, now, said);
    assert [event][1..] == [];
  }

  /** Dry run does write to the zone all the same: its is_blocked clears a lapsed ban. */
  lemma DryRunClearsLapsedBan(zone: ZoneConf, e: Entry, raw: seq<byte>, now: Clock, said: Reply)
    requires !zone.redis && raw != [] && 0 < e.blocked <= now && !Stale(zone.policy, e, now)
    ensures Run(Fresh(DryLocation(zone)), [FirstVisit(raw, e.key, now, said)]).trace
         == [Called(zone, DoIsBlocked(e.key, now))]
    ensures Durability.StoredBan([e], e.key) == e.blocked
    ensures var r := ZoneModel.Step(zone.policy, [e], DoIsBlocked(e.key, now)).zone;
            Tracked(r, e.key) && Durability.StoredBan(r, e.key) == 0
  {
    hide IsBlocked, Run, Durability.StoredBan;
    DryVisitAsks(zone, raw, e.key, now, said);
    assert Expire(zone.policy, [e], now, TOUCH_EXPIRE_LIMIT) == [e];
    Durability.AskingLeaves(zone.policy, [e], e.key, now, e);
    Durability.StoredBanIs([e], e);
  }

  /** And it expires nodes, of whatever identity, with the deadlines stored in them. */
  lemma DryRunExpiresStoredBan(zone: ZoneConf, e: Entry, raw: seq<byte>, digest: Key, now: Clock, said: Reply)
    requires !zone.redis && raw != [] && 0 < e.blocked && Stale(zone.policy, e, now)
    ensures Run(Fresh(DryLocation(zone)), [FirstVisit(raw, digest, now, said)]).trace
         == [Called(zone, DoIsBlocked(digest, now))]
    ensures Durability.StoredBan([e], e.key) == e.blocked
    ensures var r := ZoneModel.Step(zone.policy, [e], DoIsBlocked(digest, now)).zone;
            !Tracked(r, e.key) && Durability.StoredBan(r, e.key) == 0
  {
    hide IsBlocked, Run;
    DryVisitAsks(zone, raw, digest, now, said);
    assert [e][..0] == [];
    assert Expire(zone.policy, [e], now, TOUCH_EXPIRE_LIMIT) == [];
    Durability.AskingInvents(zone.policy, [e], digest, now, e.key);
  }

  // ---------------------------------------------------------------- waiting for Redis

  /** A lookup is outstanding only for a client of a zone that uses Redis and has no answer yet. */
  predicate Consistent(c: Context)
  {
    && (c.redisPending ==> !c.redisChecked && c.zone.Some? && c.zone.value.redis)
    && (c.redisBlocked ==> c.redisChecked)
  }

  predicate Waits(q: Req)
  {
    q.held.Some? ==> Consistent(q.held.value)
  }

  lemma BarWaits(q: Req, c: Context)
    requires Consistent(c)
    ensures Waits(Bar(q, c).0)
  {
  }

  lemma WeighWaits(q: Req, c: Context, zone: ZoneConf, now: Clock, said: Reply)
    requires Consistent(c)
    ensures Waits(Weigh(q, c, zone, now, said).0)
  {
    hide Bar;
    BarWaits(q, c.(count := zone.policy.threshold));
    BarWaits(q.(trace := q.trace + [Called(zone, DoIsBlocked(c.key, now))]), Told(c, said));
  }

  lemma JudgeWaits(q: Req, queued: bool, now: Clock, said: Reply)
    requires q.held.Some? && q.held.value.zone.Some? && Waits(q)
    ensures Waits(Judge(q, queued, now, said).0)
  {
    hide Weigh;
    var c := q.held.value;
    WeighWaits(q, c, c.zone.value, now, said);
    if !c.redisChecked && c.zone.value.redis {
      WeighWaits(q, AskRedis(c, queued), c.zone.value, now, said);
    }
  }

  lemma RecordOrPeekWaits(q: Req, c: Context, zone: ZoneConf, now: Clock, grants: seq<bool>, said: Reply)
    requires Consistent(c)
    ensures Waits(RecordOrPeek(q, c, zone, now, grants, said).0)
  {
  }

  lemma RespondWaits(q: Req, status: nat, now: Clock, grants: seq<bool>, said: Reply, fit: bool)
    requires q.held.Some? && q.held.value.zone.Some? && Waits(q)
    ensures Waits(Respond(q, status, now, grants, said, fit).0)
  {
    hide RecordOrPeek, Statuses.StatusMatches;
    var c := q.held.value.(responseSeen := true, dryRun := EffectiveDryRun(q.held.value, q.loc));
    RecordOrPeekWaits(q.(held := Some(c)), c, c.zone.value, now, grants, said);
  }

  lemma HandleWaits(q: Req, e: Event)
    requires Waits(q)
    ensures Waits(Handle(q, e))
  {
    hide Judge, Respond;
    if (e.AtPreaccess? || e.AtFilter?) && e.main {
      var (q1, ready) := Prepare(q, e.supplies);
      if ready && q1.held.value.zone.Some? {
        if e.AtPreaccess? { JudgeWaits(q1, e.queued, e.now, e.said); }
        else { RespondWaits(q1, e.status, e.now, e.grants, e.said, e.headersFit); }
      }
    }
  }

  lemma {:induction false} RunWaits(q: Req, es: seq<Event>)
    requires Waits(q)
    ensures Waits(Run(q, es))
    decreases |es|
  {
    hide Handle, Waits;
    if es != [] {
      HandleWaits(q, es[0]);
      RunWaits(Handle(q, es[0]), es[1..]);
    }
  }

  /** The context in the slot awaits the answer to its lookup. */
  predicate Parked(q: Req)
  {
    q.held.Some? && q.inSlot && q.held.value.redisPending
  }

  lemma StaysParked(q: Req, s: Supplies, queued: bool, now: Clock, said: Reply)
    requires Waits(q) && Parked(q)
    ensures Preaccess(q, true, s, queued, now, said) == (q, Await)
  {
    hide Weigh;
  }

  /** A deadline that is there and not beyond the ceiling, or else the ceiling. */
  function Nearest(deadline: int, ceiling: int): int
  {
    if 0 < deadline < ceiling then deadline else ceiling
  }

  lemma HeardReady(q: Req, answer: Lookup, now: Clock, s: Supplies, queued: bool, later: Clock, said: Reply)
    requires Waits(q) && Parked(q)
    ensures var zone := q.held.value.zone.value;
            var c := Heard(q.held.value, zone.policy, answer, now);
            Preaccess(Answered(q, answer, now), true, s, queued, later, said)
            == Weigh(q.(held := Some(c)), c, zone, later, said)
  {
    hide Weigh;
  }

  /** What preaccess does once the answer is there. */
  lemma HeardDecides(q: Req, answer: Lookup, now: Clock, later: Clock, said: Reply)
    requires Waits(q) && Parked(q)
    ensures var zone := q.held.value.zone.value;
            var c := Heard(q.held.value, zone.policy, answer, now);
            var (r, verdict) := Weigh(q.(held := Some(c)), c, zone, later, said);
            if answer.Text? then
              var dry := EffectiveDryRun(q.held.value, q.loc);
              && r.held.Some? && r.held.value.count == zone.policy.threshold
              && r.held.value.until == Nearest(answer.deadline, AddSaturate(now, zone.policy.block))
              && verdict == (if dry then Proceed else Status(q.loc.rejectStatus))
              && r.trace == q.trace + (if dry then [] else [Rejection])
            else
              |r.trace| > |q.trace| && r.trace[|q.trace|] == Called(zone, DoIsBlocked(c.key, later))
  {
  }

  /** A parked request stays parked and does nothing until its answer comes. A deadline then bans the
      client without asking the zone, for no longer than a ban set now; anything else leaves the
      decision to the zone. */
  lemma ParkedUntilAnswered(loc: Location, es: seq<Event>, answer: Lookup, now: Clock, e: Event)
    requires e.AtPreaccess? && e.main && Parked(Run(Fresh(loc), es))
    ensures var q := Run(Fresh(loc), es);
            var o := OriginOf(Undecided(loc, false), es);
            && HasClient(o)
            && Preaccess(q, true, e.supplies, e.queued, e.now, e.said) == (q, Await)
            && var heard := Answered(q, answer, now);
               var (r, verdict) := Preaccess(heard, true, e.supplies, e.queued, e.now, e.said);
               var who := o.client.value;
               if answer.Text? then
                 && r.held.Some? && r.held.value.count == who.zone.policy.threshold
                 && r.held.value.until == Nearest(answer.deadline, AddSaturate(now, who.zone.policy.block))
                 && verdict == (if o.dryRun then Proceed else Status(q.loc.rejectStatus))
                 && r.trace == q.trace + (if o.dryRun then [] else [Rejection])
               else
                 |r.trace| > |q.trace| && r.trace[|q.trace|] == Called(who.zone, DoIsBlocked(who.key, e.now))
  {
    hide Run, OriginOf, Accounts, Preaccess, Weigh, Answered, RedisScript.Bounded;
    var q := Run(Fresh(loc), es);
    var o := OriginOf(Undecided(loc, false), es);
    RunWaits(Fresh(loc), es);
    RunFollows(Fresh(loc), Undecided(loc, false), es);
    ClientOf(q.held.value, q.trace, o.client.value, o.dryRun, o.answered);
    StaysParked(q, e.supplies, e.queued, e.now, e.said);
    HeardReady(q, answer, now, e.supplies, e.queued, e.now, e.said);
    HeardDecides(q, answer, now, e.now, e.said);
  }

  // ---------------------------------------------------------------- destinations

  /** Two sequences of events that differ at most in where redirects lead. */
  ghost predicate SameButTargets(es: seq<Event>, fs: seq<Event>)
  {
    && |es| == |fs|
    && forall i :: 0 <= i < |es| ==> es[i] == fs[i] || (es[i].GoTo? && fs[i].GoTo?)
  }

  ghost predicate SameInside(q: Req, r: Req)
  {
    r == q.(loc := r.loc)
  }

  lemma SamePrepare(q: Req, r: Req, o: Origin, s: Supplies)
    requires o.Decided? && Follows(q, o) && Follows(r, o) && SameInside(q, r)
    ensures SameInside(Prepare(q, s).0, Prepare(r, s).0) && Prepare(q, s).1 && Prepare(r, s).1
  {
    hide Accounts;
  }

  /** Contexts that are the same inside, in locations that agree on what dry run means here. */
  ghost predicate SameHere(q: Req, r: Req, c: Context)
  {
    SameInside(q, r) && EffectiveDryRun(c, q.loc) == EffectiveDryRun(c, r.loc)
  }

  lemma SameBar(q: Req, r: Req, c: Context)
    requires SameHere(q, r, c)
    ensures SameInside(Bar(q, c).0, Bar(r, c).0)
  {
  }

  lemma SameWeigh(q: Req, r: Req, c: Context, zone: ZoneConf, now: Clock, said: Reply)
    requires SameHere(q, r, c)
    ensures SameInside(Weigh(q, c, zone, now, said).0, Weigh(r, c, zone, now, said).0)
  {
    hide Bar;
    var asked := q.trace + [Called(zone, DoIsBlocked(c.key, now))];
    if c.redisBlocked {
      SameBar(q, r, c.(count := zone.policy.threshold));
    } else if SaysBlocked(said) {
      SameBar(q.(trace := asked), r.(trace := asked), Told(c, said));
    }
  }

  lemma SameJudge(q: Req, r: Req, queued: bool, now: Clock, said: Reply)
    requires q.held.Some? && q.held.value.zone.Some? && SameHere(q, r, q.held.value)
    ensures SameInside(Judge(q, queued, now, said).0, Judge(r, queued, now, said).0)
  {
    hide Weigh;
    var c := q.held.value;
    SameWeigh(q, r, c, c.zone.value, now, said);
    SameWeigh(q, r, AskRedis(c, queued), c.zone.value, now, said);
  }

  lemma SameRecordOrPeek(q: Req, r: Req, c: Context, zone: ZoneConf, now: Clock, grants: seq<bool>, said: Reply)
    requires SameInside(q, r)
    ensures SameInside(RecordOrPeek(q, c, zone, now, grants, said).0,
                       RecordOrPeek(r, c, zone, now, grants, said).0)
  {
  }

  lemma SameRespond(q: Req, r: Req, status: nat, now: Clock, grants: seq<bool>, said: Reply, fit: bool)
    requires q.held.Some? && q.held.value.zone.Some? && SameHere(q, r, q.held.value)
    ensures SameInside(Respond(q, status, now, grants, said, fit).0,
                       Respond(r, status, now, grants, said, fit).0)
  {
    hide RecordOrPeek, Statuses.StatusMatches;
    var c := q.held.value.(responseSeen := true, dryRun := EffectiveDryRun(q.held.value, q.loc));
    SameRecordOrPeek(q.(held := Some(c)), r.(held := Some(c)), c, c.zone.value, now, grants, said);
  }

  lemma SameHandle(q: Req, r: Req, o: Origin, e: Event, f: Event)
    requires o.Decided? && Follows(q, o) && Follows(r, o) && SameInside(q, r)
    requires e == f || (e.GoTo? && f.GoTo?)
    ensures SameInside(Handle(q, e), Handle(r, f))
  {
    hide Prepare, Judge, Respond, Accounts;
    if (e.AtPreaccess? || e.AtFilter?) && e.main {
      var s := e.supplies;
      PrepareFollows(q, o, s);
      PrepareFollows(r, o, s);
      SamePrepare(q, r, o, s);
      var q1, r1 := Prepare(q, s).0, Prepare(r, s).0;
      if q1.held.value.zone.Some? {
        if e.AtPreaccess? { SameJudge(q1, r1, e.queued, e.now, e.said); }
        else { SameRespond(q1, r1, e.status, e.now, e.grants, e.said, e.headersFit); }
      }
    }
  }

  /** Once a context is anchored, the locations a request is redirected to decide nothing but the
      status its client is rejected with. */
  lemma {:induction false} DestinationsDoNotMatter(q: Req, r: Req, o: Origin, es: seq<Event>, fs: seq<Event>)
    requires o.Decided? && Follows(q, o) && Follows(r, o) && SameInside(q, r)
    requires SameButTargets(es, fs)
    ensures SameInside(Run(q, es), Run(r, fs))
    decreases |es|
  {
    hide Handle, Follows, SameInside, OriginStep;
    if es != [] {
      SameHandle(q, r, o, es[0], fs[0]);
      HandleFollows(q, o, es[0]);
      HandleFollows(r, o, fs[0]);
      SameOrigin(o, es[0], fs[0]);
      DestinationsDoNotMatter(Handle(q, es[0]), Handle(r, fs[0]), OriginStep(o, es[0]), es[1..], fs[1..]);
    }
  }

  lemma SameOrigin(o: Origin, e: Event, f: Event)
    requires o.Decided? && (e == f || (e.GoTo? && f.GoTo?))
    ensures OriginStep(o, e) == OriginStep(o, f) && OriginStep(o, e).Decided?
  {
  }
}

/** The record script on the Redis server against the zone's own ring. Fed the same calls with the
    same clock they answer alike, except exactly where an identity is recorded while banned and in the
    second a ban ends, when the block key may still be there. */
module RedisScript {
  import opened Times
  import opened ZoneModel
  import opened Upkeep
  import Durability
  import opened Observation
  import opened Runs

  /** A sorted-set member, "<milliseconds>:<nonce>". */
  datatype Member = Member(ms: int, nonce: nat)

  datatype Block = NoBlock | Block(deadline: int, expires: int)

  /** The two keys of an identity. An empty sorted set is a missing key; expiry times are in ms. */
  datatype Keys = Keys(scores: map<Member, int>, expires: int, block: Block)

  type Server = map<Key, Keys>

  datatype Heard =
    | Silence
    | Scored(blocked: bool, count: nat, deadline: int)
    | Blocked(until: int)
    | NotBlocked

  function KeysOf(m: Server, key: Key): Keys
  {
    if key in m then m[key] else Keys(map[], 0, NoBlock)
  }

  // ---------------------------------------------------------------- the server's side

  /** The sorted set after the script's trim and add. A key whose time to live has run out may or
      may not be gone already. */
  function Added(k: Keys, now: int, interval: int, nonce: nat, gone: bool): map<Member, int>
  {
    var live := if gone && now >= k.expires then map[] else k.scores;
    var trimmed := map m | m in live && live[m] > now - interval :: live[m];
    trimmed[Member(now, nonce) := now]
  }

  /** The record script, all times in milliseconds. */
  function Script(k: Keys, now: int, interval: int, threshold: int, block: int, inactive: int,
                  nonce: nat, gone: bool): (Keys, Heard)
  {
    var added := Added(k, now, interval, nonce, gone);
    if |added| >= threshold then
      var deadline := (now + block) / 1000;
      (Keys(map[], k.expires, Block(deadline, now + block)), Scored(true, |added|, deadline))
    else
      (Keys(added, now + inactive, k.block), Scored(false, |added|, 0))
  }

  /** GET on the block key at preaccess, and the deadline its callback settles on. */
  function Check(p: Policy, k: Keys, now: Clock, gone: bool): Heard
  {
    match k.block
    case NoBlock => NotBlocked
    case Block(deadline, expires) =>
      if 1000 * now > expires || (gone && 1000 * now >= expires) then NotBlocked
      else Blocked(Bounded(p, deadline, now))
  }

  /** The deadline a block key yields: never beyond a ban set now; an unreadable one (not positive)
      counts as set now. */
  function Bounded(p: Policy, deadline: int, now: Clock): (until: int)
    ensures 0 < until <= AddSaturate(now, p.block)
    ensures now < deadline <= AddSaturate(now, p.block) ==> until == deadline
  {
    var ceiling := AddSaturate(now, p.block);
    if 0 < deadline <= ceiling then deadline else ceiling
  }

  /** What the n-th call of a run does on the server. */
  function ServerStep(p: Policy, m: Server, op: Op, n: nat, gone: bool): (Server, Heard)
  {
    var k := KeysOf(m, op.key);
    match op
    case DoRecord(key, now, _) =>
      var (k', heard) := Script(k, 1000 * now, 1000 * p.interval, p.threshold, 1000 * p.block,
                                1000 * p.inactive, n, gone);
      (m[key := k'], heard)
    case DoIsBlocked(_, now) => (m, Check(p, k, now, gone))
    case DoPeek(_, _) => (m, Silence)
  }

  function ServerReplies(p: Policy, m: Server, ops: seq<Op>, n: nat, gone: nat -> bool): (r: seq<Heard>)
    ensures |r| == |ops|
    decreases |ops|
  {
    if ops == [] then []
    else
      var (m', heard) := ServerStep(p, m, ops[0], n, gone(n));
      [heard] + ServerReplies(p, m', ops[1..], n + 1, gone)
  }

  // ---------------------------------------------------------------- the two compared

  function Capped(deadline: int): int
  {
    if deadline > TIME_MAX then TIME_MAX else deadline
  }

  /** Equal counts and the ban at the same call with the same deadline; and the block key shows the
      zone's deadline while the zone has that ban, and nothing otherwise. */
  predicate Agree(op: Op, local: Reply, heard: Heard)
  {
    match op
    case DoRecord(_, _, _) =>
      && heard.Scored?
      && local == Answer(if heard.blocked then BUSY else OK, heard.count, Capped(heard.deadline))
    case DoIsBlocked(_, _) =>
      local.Answer? && heard == if local.rc == OK then Blocked(local.until) else NotBlocked
    case DoPeek(_, _) => true
  }

  /** Where the two part: a record of a banned identity, of which the script has cleared the events,
      unless the threshold is one and the ban would be set anew to the same deadline; and the block key
      in the second of its deadline, until the server drops it. */
  predicate InStep(p: Policy, o: Obs, k: Keys, op: Op, gone: bool)
  {
    match op
    case DoRecord(_, now, _) =>
      o.Open? || (p.threshold == 1 && o.until == AddSaturate(now, p.block))
    case DoIsBlocked(_, now) => !(k.block.Block? && k.block.deadline == now && !gone)
    case DoPeek(_, _) => true
  }

  function Window(o: Obs): seq<int>
  {
    if o.Open? then o.window else []
  }

  /** The members scored after second c. */
  function Above(scores: map<Member, int>, c: int): set<Member>
  {
    set m | m in scores && scores[m] > 1000 * c
  }

  ghost predicate SameEvents(p: Policy, o: Obs, k: Keys, t: Clock)
  {
    forall c :: c >= t - p.interval ==> |Above(k.scores, c)| == CountAbove(Window(o), c)
  }

  ghost predicate SameBan(p: Policy, o: Obs, k: Keys, t: Clock)
  {
    match k.block
    case NoBlock => o.Open?
    case Block(deadline, expires) =>
      && expires == 1000 * deadline && 0 < deadline <= t + p.block
      && if deadline > t then o == Banned(Capped(deadline)) else o.Open?
  }

  /** Scores are call times, nonces are used once, the time to live runs from the last call. */
  ghost predicate Sound(p: Policy, k: Keys, t: Clock, n: nat)
  {
    forall m :: m in k.scores ==>
      m.nonce < n && k.scores[m] <= 1000 * t && k.scores[m] + 1000 * p.inactive <= k.expires
  }

  ghost predicate Matches(p: Policy, o: Obs, k: Keys, t: Clock, n: nat)
  {
    SameEvents(p, o, k, t) && SameBan(p, o, k, t) && Sound(p, k, t, n)
  }

  // ---------------------------------------------------------------- counting members

  lemma AboveAdded(scores: map<Member, int>, m: Member, now: int, c: int)
    requires m !in scores
    ensures |Above(scores[m := 1000 * now], c)| == |Above(scores, c)| + if now > c then 1 else 0
  {
    var a := Above(scores, c);
    assert Above(scores[m := 1000 * now], c) == if now > c then a + {m} else a;
  }

  /** Trimming, and a run-out time to live, lose nothing inside the window. */
  lemma AddedKeepsWindow(p: Policy, k: Keys, now: Clock, n: nat, gone: bool, c: int)
    requires Sound(p, k, now, n) && c >= now - p.interval
    ensures |Above(Added(k, 1000 * now, 1000 * p.interval, n, gone), c)|
         == |Above(k.scores, c)| + if now > c then 1 else 0
  {
    var live := if gone && 1000 * now >= k.expires then map[] else k.scores;
    var trimmed := map m | m in live && live[m] > 1000 * now - 1000 * p.interval :: live[m];
    forall m | m in k.scores && k.scores[m] > 1000 * c
      ensures m in live && live[m] == k.scores[m] && live[m] > 1000 * now - 1000 * p.interval
    {
    }
    assert Above(trimmed, c) == Above(k.scores, c);
    AboveAdded(trimmed, Member(1000 * now, n), now, c);
  }

  lemma AddedIsRecent(p: Policy, k: Keys, now: Clock, n: nat, gone: bool)
    requires Sound(p, k, now, n)
    ensures var added := Added(k, 1000 * now, 1000 * p.interval, n, gone);
            && |added| == |Above(added, now - p.interval)|
            && Sound(p, Keys(added, 1000 * now + 1000 * p.inactive, k.block), now, n + 1)
  {
    var added := Added(k, 1000 * now, 1000 * p.interval, n, gone);
    assert Above(added, now - p.interval) == added.Keys;
  }

  lemma {:induction false} CountPruned(events: seq<int>, d: int, c: int)
    requires d <= c
    ensures CountAbove(Prune(events, d), c) == CountAbove(events, c)
  {
    if events != [] && events[0] <= d { CountPruned(events[1..], d, c); }
  }

  lemma WindowIsRecent(p: Policy, z: Entries, t: Clock, key: Key)
    requires Strong(p, z, t)
    ensures var w := Window(ObsOf(p, z, key, t));
            CountAbove(w, t - p.interval) == |w| && |w| < p.threshold
  {
    var w := Window(ObsOf(p, z, key, t));
    if Tracked(z, key) {
      var e := z[Position(z, key)];
      assert e in z;
      PruneKeepsOrder(e.events, t - p.interval);
    }
    CountAll(w, t - p.interval);
  }

  lemma MatchesLater(p: Policy, o: Obs, k: Keys, t: Clock, now: Clock, n: nat)
    requires Matches(p, o, k, t, n) && t <= now
    ensures Matches(p, Age(p, o, now), k, now, n)
  {
    forall c | c >= now - p.interval
      ensures |Above(k.scores, c)| == CountAbove(Window(Age(p, o, now)), c)
    {
      CountPruned(Window(o), now - p.interval, c);
    }
  }

  // ---------------------------------------------------------------- one call

  /** What the script counts, banned or not. */
  lemma ScriptCounts(p: Policy, o: Obs, k: Keys, now: Clock, n: nat, gone: bool)
    requires Matches(p, o, k, now, n)
    requires CountAbove(Window(o), now - p.interval) == |Window(o)|
    ensures var (k', heard) := Script(k, 1000 * now, 1000 * p.interval, p.threshold, 1000 * p.block,
                                      1000 * p.inactive, n, gone);
            var w := Window(o);
            && heard == (if |w| + 1 >= p.threshold then Scored(true, |w| + 1, now + p.block)
                         else Scored(false, |w| + 1, 0))
            && (|w| + 1 < p.threshold ==>
                  k'.block == k.block && Sound(p, k', now, n + 1)
                  && forall c :: c >= now - p.interval ==>
                       |Above(k'.scores, c)| == CountAbove(w + [now], c))
            && (|w| + 1 >= p.threshold ==>
                  k'.scores == map[] && k'.block == Block(now + p.block, 1000 * (now + p.block)))
  {
    hide SameBan, CountAbove, Above, Added, Sound;
    var w := Window(o);
    var added := Added(k, 1000 * now, 1000 * p.interval, n, gone);
    forall c | c >= now - p.interval ensures |Above(added, c)| == CountAbove(w + [now], c) {
      AddedKeepsWindow(p, k, now, n, gone, c);
      CountAppend(w, now, c);
    }
    CountAppend(w, now, now - p.interval);
    AddedIsRecent(p, k, now, n, gone);
    Deadline(now, p.block);
  }

  lemma Deadline(now: int, block: int)
    ensures (1000 * now + 1000 * block) / 1000 == now + block
  {
  }

  lemma NothingAbove(c: int)
    ensures Above(map[], c) == {} && CountAbove([], c) == 0
  {
  }

  lemma RecordAgreesIff(p: Policy, o: Obs, k: Keys, op: Op, n: nat, gone: bool)
    requires op.DoRecord? && Matches(p, o, k, op.now, n)
    requires CountAbove(Window(o), op.now - p.interval) == |Window(o)| < p.threshold
    ensures var (k', heard) := KeyStep(p, k, op, n, gone);
            && (Agree(op, IdealReply(p, op, o), heard) <==> InStep(p, o, k, op, gone))
            && (InStep(p, o, k, op, gone) ==> Matches(p, IdealNext(p, op, o), k', op.now, n + 1))
  {
    hide Script, CountAbove, Above;
    ScriptCounts(p, o, k, op.now, n, gone);
    forall c { NothingAbove(c); }
  }

  /** Above threshold one the script, which has cleared the events of a banned identity, counts its
      record as the first. */
  lemma BannedCountsAfresh(p: Policy, o: Obs, k: Keys, op: Op, n: nat, gone: bool)
    requires op.DoRecord? && Matches(p, o, k, op.now, n) && o.Banned? && p.threshold > 1
    ensures KeyStep(p, k, op, n, gone).1 == Scored(false, 1, 0)
    ensures IdealReply(p, op, o) == Answer(BUSY, p.threshold, o.until)
  {
    hide Script, Matches;
    NothingAbove(op.now - p.interval);
    ScriptCounts(p, o, k, op.now, n, gone);
  }

  lemma CheckAgreesIff(p: Policy, o: Obs, k: Keys, op: Op, n: nat, gone: bool)
    requires op.DoIsBlocked? && Matches(p, o, k, op.now, n)
    ensures Agree(op, IdealReply(p, op, o), Check(p, k, op.now, gone)) <==> InStep(p, o, k, op, gone)
  {
    hide SameEvents, Sound;
  }

  lemma SoundLater(p: Policy, o: Obs, k: Keys, t: Clock, n: nat)
    requires Matches(p, o, k, t, n)
    ensures Matches(p, o, k, t, n + 1)
  {
    hide SameEvents, SameBan;
  }

  /** ServerStep on the keys it touches. */
  function KeyStep(p: Policy, k: Keys, op: Op, n: nat, gone: bool): (Keys, Heard)
  {
    match op
    case DoRecord(key, now, _) =>
      Script(k, 1000 * now, 1000 * p.interval, p.threshold, 1000 * p.block, 1000 * p.inactive, n, gone)
    case DoIsBlocked(_, now) => (k, Check(p, k, now, gone))
    case DoPeek(_, _) => (k, Silence)
  }

  lemma KeyStepAgreesIff(p: Policy, z: Entries, k: Keys, op: Op, n: nat, gone: bool)
    requires Strong(p, z, op.now) && Matches(p, ObsOf(p, z, op.key, op.now), k, op.now, n)
    ensures var o := ObsOf(p, z, op.key, op.now);
            var (k', heard) := KeyStep(p, k, op, n, gone);
            && (Agree(op, IdealReply(p, op, o), heard) <==> InStep(p, o, k, op, gone))
            && (InStep(p, o, k, op, gone) ==> Matches(p, IdealNext(p, op, o), k', op.now, n + 1))
  {
    hide Matches, Script, Check, Strong, CountAbove, Prune;
    var o := ObsOf(p, z, op.key, op.now);
    WindowIsRecent(p, z, op.now, op.key);
    match op
    case DoRecord(_, _, _) => RecordAgreesIff(p, o, k, op, n, gone);
    case DoIsBlocked(_, _) => CheckAgreesIff(p, o, k, op, n, gone); SoundLater(p, o, k, op.now, n);
    case DoPeek(_, _) => SoundLater(p, o, k, op.now, n);
  }

  ghost predicate KeyMatches(p: Policy, z: Entries, m: Server, key: Key, t: Clock, n: nat)
  {
    Matches(p, ObsOf(p, z, key, t), KeysOf(m, key), t, n)
  }

  /** The next call, if it is on this identity, finds zone and server in step. */
  predicate KeyInStep(p: Policy, z: Entries, m: Server, op: Op, gone: bool, key: Key)
  {
    op.key == key ==> InStep(p, ObsOf(p, z, key, op.now), KeysOf(m, key), op, gone)
  }

  /** One call on matching states that spares the identity: equal answers if and only if in step, and
      then matching states again. */
  lemma StepAgreesIff(p: Policy, z: Entries, m: Server, t: Clock, op: Op, n: nat, gone: bool, key: Key)
    requires Strong(p, z, t) && KeyMatches(p, z, m, key, t, n) && t <= op.now && Spares(p, z, op, key)
    ensures var o := Step(p, z, op);
            var (m', heard) := ServerStep(p, m, op, n, gone);
            && Strong(p, o.zone, op.now)
            && (op.key == key ==> (Agree(op, o.reply, heard) <==> KeyInStep(p, z, m, op, gone, key)))
            && (KeyInStep(p, z, m, op, gone, key) ==> KeyMatches(p, o.zone, m', key, op.now, n + 1))
  {
    hide Step, Matches, Script, Check, Strong, IdealReply, IdealNext, Agree, InStep, ObsOf, Stale, Tracked;
    StepIsIdeal(p, z, t, op);
    HealthyLater(p, z, t, op.now);
    ObservationAges(p, z, t, key, t, op.now);
    var o, k := ObsOf(p, z, key, op.now), KeysOf(m, key);
    MatchesLater(p, ObsOf(p, z, key, t), k, t, op.now, n);
    if key == op.key {
      KeyStepAgreesIff(p, z, k, op, n, gone);
    } else {
      SoundLater(p, o, k, op.now, n);
    }
  }

  // ---------------------------------------------------------------- whole runs

  /** In step at every call on the identity. */
  predicate RunInStep(p: Policy, z: Entries, m: Server, ops: seq<Op>, n: nat, gone: nat -> bool, key: Key)
    decreases |ops|
  {
    ops != [] ==>
      && KeyInStep(p, z, m, ops[0], gone(n), key)
      && RunInStep(p, Step(p, z, ops[0]).zone, ServerStep(p, m, ops[0], n, gone(n)).0, ops[1..], n + 1,
                   gone, key)
  }

  /** Zone and server agree on every call on the identity. */
  ghost predicate AgreeOn(ops: seq<Op>, local: seq<Reply>, heard: seq<Heard>, key: Key)
    requires |ops| == |local| == |heard|
  {
    forall i :: 0 <= i < |ops| && ops[i].key == key ==> Agree(ops[i], local[i], heard[i])
  }

  lemma AgreeOnFirst(ops: seq<Op>, local: seq<Reply>, heard: seq<Heard>, key: Key)
    requires |ops| == |local| == |heard| > 0
    ensures AgreeOn(ops, local, heard, key)
       <==> && (ops[0].key == key ==> Agree(ops[0], local[0], heard[0]))
            && AgreeOn(ops[1..], local[1..], heard[1..], key)
  {
    hide Agree;
    if AgreeOn(ops, local, heard, key) {
      forall i | 0 <= i < |ops| - 1 && ops[1..][i].key == key
        ensures Agree(ops[1..][i], local[1..][i], heard[1..][i])
      {
        assert ops[1..][i] == ops[i + 1];
      }
    }
    if AgreeOn(ops[1..], local[1..], heard[1..], key) {
      forall i | 0 < i < |ops| && ops[i].key == key ensures Agree(ops[i], local[i], heard[i]) {
        assert ops[i] == ops[1..][i - 1] && local[i] == local[1..][i - 1] && heard[i] == heard[1..][i - 1];
      }
    }
  }

  /** Over every run that spares an identity, whatever happens to others and whenever the server drops
      keys whose time to live has run out, zone and server agree on every call on it if and only if the
      run stays in step. */
  lemma {:induction false} RunsAgreeIff(p: Policy, z: Entries, m: Server, t: Clock, ops: seq<Op>,
                                        n: nat, gone: nat -> bool, key: Key)
    requires Strong(p, z, t) && KeyMatches(p, z, m, key, t, n)
    requires Monotone(ops, t) && SparedRun(p, z, ops, key)
    ensures |Replies(p, z, ops)| == |ops|
    ensures AgreeOn(ops, Replies(p, z, ops), ServerReplies(p, m, ops, n, gone), key)
       <==> RunInStep(p, z, m, ops, n, gone, key)
    decreases |ops|
  {
    hide Step, Strong, KeyMatches, ServerStep, Spares, Agree, AgreeOn, KeyInStep;
    RepliesLength(p, z, ops);
    if ops == [] {
      NoCallsAgree(key);
    } else {
      var o, s := Step(p, z, ops[0]), ServerStep(p, m, ops[0], n, gone(n));
      RepliesLength(p, o.zone, ops[1..]);
      StepAgreesIff(p, z, m, t, ops[0], n, gone(n), key);
      AgreeOnFirst(ops, Replies(p, z, ops), ServerReplies(p, m, ops, n, gone), key);
      if KeyInStep(p, z, m, ops[0], gone(n), key) {
        RunsAgreeIff(p, o.zone, s.0, ops[0].now, ops[1..], n + 1, gone, key);
      } else {
        OutOfStep(p, z, m, ops[0], gone(n), key);
      }
    }
  }

  lemma NoCallsAgree(key: Key)
    ensures AgreeOn([], [], [], key)
  {
  }

  lemma OutOfStep(p: Policy, z: Entries, m: Server, op: Op, gone: bool, key: Key)
    requires !KeyInStep(p, z, m, op, gone, key)
    ensures op.key == key
  {
  }

  /** From an empty zone and an empty server. */
  lemma FreshRunsAgreeIff(p: Policy, ops: seq<Op>, gone: nat -> bool, key: Key)
    requires Monotone(ops, 0) && SparedRun(p, [], ops, key)
    ensures |Replies(p, [], ops)| == |ops|
    ensures AgreeOn(ops, Replies(p, [], ops), ServerReplies(p, map[], ops, 0, gone), key)
       <==> RunInStep(p, [], map[], ops, 0, gone, key)
  {
    hide AgreeOn, RunInStep, SparedRun;
    forall c { NothingAbove(c); }
    RunsAgreeIff(p, [], map[], 0, ops, 0, gone, key);
  }

  predicate ActivelyBanned(z: Entries, key: Key, now: Clock)
  {
    Tracked(z, key) && z[Position(z, key)].blocked > now
  }

  /** The identity is not recorded while it is banned: preaccess has rejected those requests. */
  predicate NoRecordWhileBanned(p: Policy, z: Entries, ops: seq<Op>, key: Key)
    decreases |ops|
  {
    ops != [] ==>
      && (ops[0].DoRecord? && ops[0].key == key ==> !ActivelyBanned(z, key, ops[0].now))
      && NoRecordWhileBanned(p, Step(p, z, ops[0]).zone, ops[1..], key)
  }

  /** With a server that drops keys in time, runs that do not record the identity while it is banned are
      in step; above threshold one no other runs are. */
  lemma {:induction false} PromptServer(p: Policy, z: Entries, m: Server, ops: seq<Op>, n: nat,
                                        gone: nat -> bool, key: Key)
    requires forall j :: gone(j)
    ensures NoRecordWhileBanned(p, z, ops, key) ==> RunInStep(p, z, m, ops, n, gone, key)
    ensures p.threshold > 1 ==>
              (NoRecordWhileBanned(p, z, ops, key) <==> RunInStep(p, z, m, ops, n, gone, key))
    decreases |ops|
  {
    hide Step, ServerStep, Prune;
    if ops != [] {
      var (m', _) := ServerStep(p, m, ops[0], n, gone(n));
      PromptServer(p, Step(p, z, ops[0]).zone, m', ops[1..], n + 1, gone, key);
    }
  }

  /** Above threshold one and with such a server: agreement on every call if and only if no record of the
      banned. */
  lemma PromptRunsAgreeIff(p: Policy, ops: seq<Op>, gone: nat -> bool, key: Key)
    requires Monotone(ops, 0) && SparedRun(p, [], ops, key) && p.threshold > 1 && forall j :: gone(j)
    ensures |Replies(p, [], ops)| == |ops|
    ensures AgreeOn(ops, Replies(p, [], ops), ServerReplies(p, map[], ops, 0, gone), key)
       <==> NoRecordWhileBanned(p, [], ops, key)
  {
    hide AgreeOn, RunInStep, SparedRun, NoRecordWhileBanned;
    FreshRunsAgreeIff(p, ops, gone, key);
    PromptServer(p, [], map[], ops, 0, gone, key);
  }

  lemma FirstRecordBans(p: Policy, key: Key, t: Clock)
    requires p.threshold == 1 && |key| <= DIGEST_LEN && t + p.block < TIME_MAX
    ensures Record(p, [], key, t, [true])
         == Outcome([Entry(key, t + p.block, t, [])], Answer(BUSY, 1, t + p.block))
  {
    assert [Newcomer(key, t)] + [] == [Newcomer(key, t)] && [Newcomer(key, t)][1..] == [];
    var e := Entry(key, t + p.block, t, []);
    assert [e] + [] == [e];
    assert Prune([], t - p.interval) + [t] == [t];
    assert Count(p, Newcomer(key, t), t) == e;
  }

  lemma FirstScriptBans(p: Policy, k: Keys, t: Clock, n: nat, gone: bool)
    requires p.threshold == 1
    ensures var (k', heard) := Script(k, 1000 * t, 1000 * p.interval, 1, 1000 * p.block,
                                      1000 * p.inactive, n, gone);
            && k'.block == Block(t + p.block, 1000 * (t + p.block))
            && heard.Scored? && heard.blocked && heard.deadline == t + p.block
            && (k.scores == map[] ==> heard.count == 1 && k'.scores == map[])
  {
    var added := Added(k, 1000 * t, 1000 * p.interval, n, gone);
    assert Member(1000 * t, n) in added;
    assert added.Keys != {};
    if k.scores == map[] { assert added == map[Member(1000 * t, n) := 1000 * t]; }
    Deadline(t, p.block);
  }

  lemma LapsedIsDeclined(p: Policy, e: Entry, now: Clock)
    requires Healthy(p, e, now) && 0 < e.blocked <= now
    ensures IsBlocked(p, [e], e.key, now).reply == Answer(DECLINED, 0, 0)
  {
    hide IsBlocked;
    assert Strong(p, [e], now) by { assert forall x :: x in [e] ==> x == e; }
    ObsOfMember(p, [e], e, now);
    StepIsIdeal(p, [e], now, DoIsBlocked(e.key, now));
  }

  lemma TwoCalls(p: Policy, z: Entries, a: Op, b: Op, key: Key)
    ensures var o := Step(p, z, a);
            && Replies(p, z, [a, b]) == [o.reply, Step(p, o.zone, b).reply]
            && (SparedRun(p, z, [a, b], key) <==> Spares(p, z, a, key) && Spares(p, o.zone, b, key))
  {
    hide Step, Spares;
    var o := Step(p, z, a);
    assert [a, b][1..] == [b] && [b][1..] == [];
    assert Replies(p, o.zone, [b]) == [Step(p, o.zone, b).reply] + Replies(p, Step(p, o.zone, b).zone, []);
    assert SparedRun(p, o.zone, [b], key) <==> Spares(p, o.zone, b, key);
  }

  lemma TwoScripts(p: Policy, m: Server, a: Op, b: Op, gone: nat -> bool)
    ensures var (m', heard) := ServerStep(p, m, a, 0, gone(0));
            ServerReplies(p, m, [a, b], 0, gone) == [heard, ServerStep(p, m', b, 1, gone(1)).1]
  {
    hide ServerStep;
    assert [a, b][1..] == [b] && [b][1..] == [];
    var (m', _) := ServerStep(p, m, a, 0, gone(0));
    var (m'', heard) := ServerStep(p, m', b, 1, gone(1));
    assert ServerReplies(p, m', [b], 1, gone) == [heard] + ServerReplies(p, m'', [], 2, gone);
  }

  lemma LingersOnServer(p: Policy, key: Key, t: Clock, gone: nat -> bool)
    requires p.threshold == 1 && t + p.block < TIME_MAX && !gone(0) && !gone(1)
    ensures ServerReplies(p, map[], [DoRecord(key, t, [true]), DoIsBlocked(key, t + p.block)], 0, gone)
         == [Scored(true, 1, t + p.block), Blocked(t + p.block)]
  {
    hide Script, ServerReplies;
    TwoScripts(p, map[], DoRecord(key, t, [true]), DoIsBlocked(key, t + p.block), gone);
    FirstScriptBans(p, Keys(map[], 0, NoBlock), t, 0, false);
  }

  lemma LapsesLocally(p: Policy, key: Key, t: Clock)
    requires p.threshold == 1 && |key| <= DIGEST_LEN && t + p.block < TIME_MAX
    ensures var ops := [DoRecord(key, t, [true]), DoIsBlocked(key, t + p.block)];
            && SparedRun(p, [], ops, key)
            && Replies(p, [], ops) == [Answer(BUSY, 1, t + p.block), Answer(DECLINED, 0, 0)]
  {
    hide Record, IsBlocked, Spares, Replies, SparedRun, Expire;
    var record, ask: Op := DoRecord(key, t, [true]), DoIsBlocked(key, t + p.block);
    var e := Entry(key, t + p.block, t, []);
    TwoCalls(p, [], record, ask, key);
    FirstRecordBans(p, key, t);
    LapsedIsDeclined(p, e, t + p.block);
    CalmSparesAll(p, [], record, key);
    CalmSparesAll(p, [e], ask, key);
  }

  /** Until the server drops it, a block key bars the client in the very second the zone lets it in. */
  lemma BlockKeyLingers(p: Policy, key: Key, t: Clock, gone: nat -> bool)
    requires p.threshold == 1 && |key| <= DIGEST_LEN && t + p.block < TIME_MAX && !gone(0) && !gone(1)
    ensures var ops := [DoRecord(key, t, [true]), DoIsBlocked(key, t + p.block)];
            && Monotone(ops, 0) && SparedRun(p, [], ops, key)
            && Replies(p, [], ops) == [Answer(BUSY, 1, t + p.block), Answer(DECLINED, 0, 0)]
            && ServerReplies(p, map[], ops, 0, gone) == [Scored(true, 1, t + p.block), Blocked(t + p.block)]
  {
    hide Replies, SparedRun, ServerReplies;
    LapsesLocally(p, key, t);
    LingersOnServer(p, key, t, gone);
    var ops := [DoRecord(key, t, [true]), DoIsBlocked(key, t + p.block)];
    assert ops[1..] == [ops[1]] && [ops[1]][1..] == [];
    assert Monotone([ops[1]], t);
  }

  lemma BannedRecordIsBusy(p: Policy, e: Entry, now: Clock, grants: seq<bool>)
    requires e.blocked > now
    ensures Record(p, [e], e.key, now, grants).reply == Answer(BUSY, p.threshold, e.blocked)
  {
    hide Record;
    assert e in [e];
    assert Durability.BannedUntil([e], e.key, e.blocked);
    Durability.StepKeepsBan(p, [e], DoRecord(e.key, now, grants), e.key, e.blocked);
  }

  lemma RenewsOnServer(p: Policy, key: Key, t: Clock, gone: nat -> bool)
    requires p.threshold == 1 && t + 1 + p.block < TIME_MAX
    ensures ServerReplies(p, map[], [DoRecord(key, t, [true]), DoRecord(key, t + 1, [])], 0, gone)
         == [Scored(true, 1, t + p.block), Scored(true, 1, t + 1 + p.block)]
  {
    hide Script, ServerReplies;
    TwoScripts(p, map[], DoRecord(key, t, [true]), DoRecord(key, t + 1, []), gone);
    FirstScriptBans(p, Keys(map[], 0, NoBlock), t, 0, gone(0));
    var (k', _) := Script(Keys(map[], 0, NoBlock), 1000 * t, 1000 * p.interval, 1, 1000 * p.block,
                          1000 * p.inactive, 0, gone(0));
    FirstScriptBans(p, k', t + 1, 1, gone(1));
  }

  lemma StaysLocally(p: Policy, key: Key, t: Clock)
    requires p.threshold == 1 && p.block > 1 && |key| <= DIGEST_LEN && t + 1 + p.block < TIME_MAX
    ensures var ops := [DoRecord(key, t, [true]), DoRecord(key, t + 1, [])];
            && SparedRun(p, [], ops, key)
            && Replies(p, [], ops) == [Answer(BUSY, 1, t + p.block), Answer(BUSY, 1, t + p.block)]
  {
    hide Record, Replies, SparedRun, Spares, Expire, Tracked;
    var first, second: Op := DoRecord(key, t, [true]), DoRecord(key, t + 1, []);
    var e := Entry(key, t + p.block, t, []);
    TwoCalls(p, [], first, second, key);
    FirstRecordBans(p, key, t);
    BannedRecordIsBusy(p, e, t + 1, []);
    CalmSparesAll(p, [], first, key);
    SingleKept(p, e, t + 1);
    CalmSparesAll(p, [e], second, key);
  }

  lemma SingleKept(p: Policy, e: Entry, now: Clock)
    requires e.blocked > now
    ensures Tracked(Expire(p, [e], now, TOUCH_EXPIRE_LIMIT), e.key)
  {
  }

  /** The other way to part: two requests that both passed preaccess are recorded a second apart. The
      zone reports the ban it has, the script sets it anew and later. */
  lemma BanIsRenewedOnServer(p: Policy, key: Key, t: Clock, gone: nat -> bool)
    requires p.threshold == 1 && p.block > 1 && |key| <= DIGEST_LEN && t + 1 + p.block < TIME_MAX
    ensures var ops := [DoRecord(key, t, [true]), DoRecord(key, t + 1, [])];
            && Monotone(ops, 0) && SparedRun(p, [], ops, key)
            && Replies(p, [], ops) == [Answer(BUSY, 1, t + p.block), Answer(BUSY, 1, t + p.block)]
            && ServerReplies(p, map[], ops, 0, gone)
               == [Scored(true, 1, t + p.block), Scored(true, 1, t + 1 + p.block)]
  {
    hide Replies, SparedRun, ServerReplies;
    StaysLocally(p, key, t);
    RenewsOnServer(p, key, t, gone);
    var ops := [DoRecord(key, t, [true]), DoRecord(key, t + 1, [])];
    assert ops[1..] == [ops[1]] && [ops[1]][1..] == [];
    assert Monotone([ops[1]], t);
  }
}

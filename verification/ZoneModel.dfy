/** What one shared-memory zone means: the tracked identities in LRU order, head first, and the
    effect of each locked operation on them. The class in Zone.dfy is proved against these
    functions; everything that holds over whole runs is proved about them. */
module ZoneModel {
  import opened Times

  const MAX_THRESHOLD := 1024
  const MAX_SECONDS := 315360000
  const DIGEST_LEN := 32
  const EVICT_SCAN_LIMIT: nat := 64
  const CREATE_EXPIRE_LIMIT: nat := 64
  const TOUCH_EXPIRE_LIMIT: nat := 2

  type byte = b: int | 0 <= b < 256
  type Key = seq<byte>

  datatype Config = Config(interval: int, block: int, inactive: int, threshold: nat)
  {
    /** What error_abuse_zone accepts, defaults filled in. */
    predicate Accepted()
    {
      && 1 <= threshold <= MAX_THRESHOLD
      && 1 <= interval <= inactive <= MAX_SECONDS
      && 1 <= block <= inactive
    }
  }

  /** Which durations survive the conversion to milliseconds in a signed 32-bit time_t: not all up to the
      cap. */
  lemma MillisecondsFitIff(seconds: nat)
    ensures seconds * 1000 <= 0x7FFF_FFFF <==> seconds <= 2147483
    ensures MAX_SECONDS > 2147483
  {
  }

  type Policy = c: Config | c.Accepted() witness Config(300, 3600, 3600, 100)

  /** One tracked identity; events is the ring read from its head. */
  datatype Entry = Entry(key: Key, blocked: int, seen: int, events: seq<int>)

  type Entries = seq<Entry>

  // ---------------------------------------------------------------- searching the queue

  /** Index of the first entry for key, or |z|. */
  function Position(z: Entries, key: Key): (i: nat)
    ensures i <= |z|
    ensures i < |z| ==> z[i].key == key
    ensures forall j :: 0 <= j < i ==> z[j].key != key
  {
    if z == [] || z[0].key == key then 0 else 1 + Position(z[1..], key)
  }

  predicate Tracked(z: Entries, key: Key)
  {
    Position(z, key) < |z|
  }

  function Without<T>(s: seq<T>, i: nat): seq<T>
    requires i < |s|
  {
    s[..i] + s[i + 1..]
  }

  lemma TakeTail<T>(s: seq<T>, i: nat)
    requires 0 < i <= |s|
    ensures s[..i][1..] == s[1..][..i - 1] && s[..i][0] == s[0]
  {
  }

  ghost predicate Unique(z: Entries)
  {
    forall i, j :: 0 <= i < j < |z| ==> z[i].key != z[j].key
  }

  // ---------------------------------------------------------------- making room

  predicate Stale(p: Policy, e: Entry, now: Clock)
  {
    e.blocked <= now && AddSaturate(e.seen, p.inactive) <= now
  }

  function Expire(p: Policy, z: Entries, now: Clock, limit: nat): Entries
    decreases limit
  {
    if limit == 0 || z == [] || !Stale(p, z[|z| - 1], now) then z
    else Expire(p, z[..|z| - 1], now, limit - 1)
  }

  datatype Eviction = Eviction(zone: Entries, freed: bool)

  /** The scan of evict_one_unblocked with limit iterations left, where stop lies left entries
      away from the tail. */
  function EvictScan(z: Entries, now: Clock, limit: nat, left: nat): (r: Eviction)
    ensures |r.zone| == if r.freed then |z| - 1 else |z|
    decreases limit
  {
    if limit == 0 || z == [] then Eviction(z, false)
    else
      var n := |z| - 1;
      if z[n].blocked <= now then Eviction(z[..n], true)
      else
        var rotated := [z[n]] + z[..n];
        if left <= 1 then Eviction(rotated, false)
        else EvictScan(rotated, now, limit - 1, left - 1)
  }

  function Evict(z: Entries, now: Clock): Eviction
  {
    EvictScan(z, now, EVICT_SCAN_LIMIT, |z|)
  }

  /** The slab's answers during one call: attempt i succeeds iff grants[i]. */
  predicate Granted(grants: seq<bool>, i: nat)
  {
    i < |grants| && grants[i]
  }

  /** A zone and whether the sought entry is now at its head. */
  datatype Placed = Placed(zone: Entries, ok: bool)

  function Newcomer(key: Key, now: Clock): Entry
  {
    Entry(key, 0, now, [])
  }

  /** The force-evict loop of create_node, about to make allocation attempt i. */
  function Squeeze(z: Entries, key: Key, now: Clock, grants: seq<bool>, i: nat): (r: Placed)
    ensures r.ok ==> r.zone != [] && r.zone[0] == Newcomer(key, now)
    decreases |z|
  {
    var e := Evict(z, now);
    if !e.freed then Placed(e.zone, false)
    else if Granted(grants, i) then Placed([Newcomer(key, now)] + e.zone, true)
    else Squeeze(e.zone, key, now, grants, i + 1)
  }

  function Create(p: Policy, z: Entries, key: Key, now: Clock, grants: seq<bool>): (r: Placed)
    ensures r.ok ==> r.zone != [] && r.zone[0] == Newcomer(key, now)
  {
    if |key| > DIGEST_LEN then Placed(z, false)
    else if Granted(grants, 0) then Placed([Newcomer(key, now)] + z, true)
    else
      var trimmed := Expire(p, z, now, CREATE_EXPIRE_LIMIT);
      if Granted(grants, 1) then Placed([Newcomer(key, now)] + trimmed, true)
      else Squeeze(trimmed, key, now, grants, 2)
  }

  /** find_touch_locked: on a hit the entry moves to the head with its last_seen refreshed. */
  function Arrive(p: Policy, z: Entries, key: Key, now: Clock): (r: Placed)
    ensures r.ok ==> r.zone != [] && r.zone[0].key == key && r.zone[0].seen == now
  {
    var kept := Expire(p, z, now, TOUCH_EXPIRE_LIMIT);
    var i := Position(kept, key);
    if i == |kept| then Placed(kept, false)
    else Placed([kept[i].(seen := now)] + Without(kept, i), true)
  }

  // ---------------------------------------------------------------- the three operations

  function Prune(events: seq<int>, cutoff: int): seq<int>
  {
    if events == [] || events[0] > cutoff then events else Prune(events[1..], cutoff)
  }

  function CountAbove(events: seq<int>, cutoff: int): nat
  {
    if events == [] then 0
    else (if events[0] > cutoff then 1 else 0) + CountAbove(events[1..], cutoff)
  }

  datatype Rc = OK | BUSY | DECLINED

  datatype Reply =
    | NoRoom
    | Answer(rc: Rc, count: nat, until: int)
    | Prediction(count: nat, until: int, wouldBlock: bool)

  datatype Outcome = Outcome(zone: Entries, reply: Reply)

  /** An ended ban takes its ring with it. */
  function Lapse(e: Entry): Entry
  {
    if e.blocked != 0 then e.(blocked := 0, events := []) else e
  }

  /** record() on the entry itself, already touched and not actively banned. */
  function Count(p: Policy, e: Entry, now: Clock): Entry
  {
    var events := Prune(Lapse(e).events, now - p.interval) + [now];
    if |events| >= p.threshold
    then Lapse(e).(blocked := AddSaturate(now, p.block), events := [])
    else Lapse(e).(events := events)
  }

  function RecordHead(p: Policy, z: Entries, now: Clock): Outcome
    requires z != []
  {
    if z[0].blocked > now then Outcome(z, Answer(BUSY, p.threshold, z[0].blocked))
    else
      var e := Count(p, z[0], now);
      Outcome([e] + z[1..],
        if e.blocked > now then Answer(BUSY, p.threshold, e.blocked)
        else Answer(OK, |e.events|, e.blocked))
  }

  /** The head of the queue once record() holds its entry: found, or else created. */
  function FindOrCreate(p: Policy, z: Entries, key: Key, now: Clock, grants: seq<bool>): (r: Placed)
    ensures r.ok ==> r.zone != [] && r.zone[0].key == key && r.zone[0].seen == now
  {
    var a := Arrive(p, z, key, now);
    if a.ok then a else Create(p, a.zone, key, now, grants)
  }

  function Record(p: Policy, z: Entries, key: Key, now: Clock, grants: seq<bool>): Outcome
  {
    var b := FindOrCreate(p, z, key, now, grants);
    if !b.ok then Outcome(b.zone, NoRoom) else RecordHead(p, b.zone, now)
  }

  /** is_blocked() on an entry without an active ban. */
  function Settled(p: Policy, e: Entry, now: Clock): Entry
  {
    if e.blocked != 0 then Lapse(e) else e.(events := Prune(e.events, now - p.interval))
  }

  function IsBlockedHead(p: Policy, z: Entries, now: Clock): Outcome
    requires z != []
  {
    if z[0].blocked > now then Outcome(z, Answer(OK, p.threshold, z[0].blocked))
    else
      var e := Settled(p, z[0], now);
      Outcome([e] + z[1..], Answer(DECLINED, |e.events|, 0))
  }

  function IsBlocked(p: Policy, z: Entries, key: Key, now: Clock): Outcome
  {
    var a := Arrive(p, z, key, now);
    if !a.ok then Outcome(a.zone, Answer(DECLINED, 0, 0)) else IsBlockedHead(p, a.zone, now)
  }

  function Peek(p: Policy, z: Entries, key: Key, now: Clock): Reply
  {
    var i := Position(z, key);
    if i == |z| then
      if p.threshold <= 1 then Prediction(p.threshold, AddSaturate(now, p.block), true)
      else Prediction(1, 0, false)
    else if z[i].blocked > now then Prediction(p.threshold, z[i].blocked, true)
    else
      var count := CountAbove(z[i].events, now - p.interval) + 1;
      if count >= p.threshold then Prediction(count, AddSaturate(now, p.block), true)
      else Prediction(count, 0, false)
  }

  // ---------------------------------------------------------------- runs

  /** One locked call by some worker. */
  datatype Op =
    | DoRecord(key: Key, now: Clock, grants: seq<bool>)
    | DoIsBlocked(key: Key, now: Clock)
    | DoPeek(key: Key, now: Clock)

  function Step(p: Policy, z: Entries, op: Op): Outcome
  {
    match op
    case DoRecord(key, now, grants) => Record(p, z, key, now, grants)
    case DoIsBlocked(key, now) => IsBlocked(p, z, key, now)
    case DoPeek(key, now) => Outcome(z, Peek(p, z, key, now))
  }

  /** The zone after a run. */
  function After(p: Policy, z: Entries, ops: seq<Op>): Entries
    decreases |ops|
  {
    if ops == [] then z else After(p, Step(p, z, ops[0]).zone, ops[1..])
  }

  /** What the callers of a run saw. */
  function Replies(p: Policy, z: Entries, ops: seq<Op>): seq<Reply>
    decreases |ops|
  {
    if ops == [] then []
    else [Step(p, z, ops[0]).reply] + Replies(p, Step(p, z, ops[0]).zone, ops[1..])
  }

  /** The clock never steps back during the run and starts no earlier than t. */
  predicate Monotone(ops: seq<Op>, t: Clock)
  {
    ops == [] || (t <= ops[0].now && Monotone(ops[1..], ops[0].now))
  }

  /** The clock of the last call. */
  function EndOf(ops: seq<Op>): Clock
  {
    if ops == [] then 0 else ops[|ops| - 1].now
  }
}

/** The persistence file as a function of the zone, and the zone as a function of the file. */
module SnapshotModel {
  import opened Times
  import opened Wrappers
  import opened ZoneModel
  import opened Codec

  const FILE_REC_LEN: nat := 20
  const FILE_HDR_LEN: nat := 24
  const FILE_VERSION: nat := 2
  /** "NGEAB01" with its terminating NUL. */
  const FILE_MAGIC: seq<byte> := [0x4E, 0x47, 0x45, 0x41, 0x42, 0x30, 0x31, 0]
  const MAC_LEN: nat := 32

  type u32 = v: nat | v < 0x1_0000_0000
  type Digest = s: seq<byte> | |s| == 32 witness seq(32, _ => 0)

  /** What the file format depends on beside the zone: the shared memory size, CRC32, and HMAC-SHA256
      under the configured secret if there is one. */
  datatype Store = Store(size: nat, crc: seq<byte> -> u32, secret: bool, hmac: seq<byte> -> Digest)
  {
    function MacLen(): nat
    {
      if secret then MAC_LEN else 0
    }
  }

  // ---------------------------------------------------------------- records

  function RecLen(keyLen: nat, events: nat): nat
  {
    FILE_REC_LEN + keyLen + events * 8
  }

  function PutTimes(events: seq<int>): (s: seq<byte>)
    ensures |s| == 8 * |events|
  {
    if events == [] then [] else PutTime(events[0]) + PutTimes(events[1..])
  }

  function GetTimes(s: seq<byte>, n: nat): (events: seq<int>)
    requires |s| == 8 * n
    ensures |events| == n
    decreases n
  {
    if n == 0 then [] else [GetTime(s[..8])] + GetTimes(s[8..], n - 1)
  }

  function Encode(e: Entry): (s: seq<byte>)
    ensures |s| == RecLen(|e.key|, |e.events|)
  {
    LE(|e.key| % 0x1_0000, 2) + (LE(|e.events| % 0x1_0000, 2)
    + (PutTime(e.blocked) + (PutTime(e.seen) + (e.key + PutTimes(e.events)))))
  }

  function EncodeAll(es: seq<Entry>): seq<byte>
  {
    if es == [] then [] else Encode(es[0]) + EncodeAll(es[1..])
  }

  /** A record as the format allows it: a digest key, at most threshold events, 64-bit times. */
  ghost predicate WellFormed(e: Entry, threshold: nat)
  {
    && |e.key| == DIGEST_LEN && |e.events| <= threshold
    && IsI64(e.blocked) && IsI64(e.seen)
    && forall x :: x in e.events ==> IsI64(x)
  }

  /** The fixed fields, key and events of a record of n events at the start of s. */
  function Decode(s: seq<byte>, n: nat): Entry
    requires RecLen(DIGEST_LEN, n) <= |s|
  {
    Entry(s[20..52], GetTime(s[4..12]), GetTime(s[12..20]), GetTimes(s[52..52 + 8 * n], n))
  }

  /** The records of a payload, if it is exactly that many acceptable ones. */
  function DecodeAll(s: seq<byte>, records: nat, threshold: nat): Option<seq<Entry>>
    decreases records
  {
    if records == 0 then if s == [] then Some([]) else None
    else if |s| < FILE_REC_LEN then None
    else
      var n := GetU16(s, 2);
      if GetU16(s, 0) != DIGEST_LEN || n > threshold || |s| < RecLen(DIGEST_LEN, n) then None
      else
        match DecodeAll(s[RecLen(DIGEST_LEN, n)..], records - 1, threshold)
        case None => None
        case Some(rest) => Some([Decode(s, n)] + rest)
  }

  lemma {:induction false} TimesReadBack(events: seq<int>)
    requires forall x :: x in events ==> IsI64(x)
    ensures GetTimes(PutTimes(events), |events|) == events
  {
    if events != [] {
      assert events[0] in events && forall x :: x in events[1..] ==> x in events;
      TimeReadsBack(events[0]);
      TimesReadBack(events[1..]);
      assert PutTimes(events)[..8] == PutTime(events[0]);
      assert PutTimes(events)[8..] == PutTimes(events[1..]);
    }
  }

  lemma {:induction false} TimesWriteBack(s: seq<byte>, n: nat)
    requires |s| == 8 * n
    ensures PutTimes(GetTimes(s, n)) == s
    ensures forall x :: x in GetTimes(s, n) ==> IsI64(x)
    decreases n
  {
    if n > 0 {
      TimeWritesBack(s[..8]);
      TimesWriteBack(s[8..], n - 1);
      assert GetTimes(s, n)[1..] == GetTimes(s[8..], n - 1);
      assert s == s[..8] + s[8..];
    }
  }

  lemma Peel<T>(a: seq<T>, x: seq<T>, rest: seq<T>)
    ensures (a + x + rest)[..|a|] == a && (a + x + rest)[|a|..] == x + rest
  {
  }

  lemma Within<T>(s: seq<T>, i: nat, n: nat, m: nat)
    requires i + n <= |s| && i + m <= |s|
    ensures s[i..i + n] == s[i..][..n] && s[i..][m..] == s[i + m..]
  {
  }

  /** Where the fields of an encoded record lie. */
  lemma EncodeLayout(e: Entry, rest: seq<byte>)
    requires |e.key| == DIGEST_LEN && |e.events| < 0x1_0000
    ensures var s, n := Encode(e) + rest, |e.events|;
            && s[0..2] == LE(DIGEST_LEN, 2) && s[2..4] == LE(n, 2)
            && s[4..12] == PutTime(e.blocked) && s[12..20] == PutTime(e.seen)
            && s[20..52] == e.key && s[52..52 + 8 * n] == PutTimes(e.events)
            && s[RecLen(DIGEST_LEN, n)..] == rest
  {
    hide LE, PutTime, PutTimes;
    var s, t := Encode(e) + rest, PutTimes(e.events);
    var u4 := e.key + t;
    var u3 := PutTime(e.seen) + u4;
    var u2 := PutTime(e.blocked) + u3;
    var u1 := LE(|e.events|, 2) + u2;
    Peel(LE(DIGEST_LEN, 2), u1, rest);
    Peel(LE(|e.events|, 2), u2, rest);    Within(s, 2, 2, 2);
    Peel(PutTime(e.blocked), u3, rest);   Within(s, 4, 8, 8);
    Peel(PutTime(e.seen), u4, rest);      Within(s, 12, 8, 8);
    Peel(e.key, t, rest);                 Within(s, 20, 32, 32);
    Within(s, 52, |t|, |t|);
    assert (t + rest)[..|t|] == t && (t + rest)[|t|..] == rest;
  }

  lemma U16ReadsBack(s: seq<byte>, p: nat, v: nat)
    requires p + 2 <= |s| && v < 0x1_0000 && s[p..p + 2] == LE(v, 2)
    ensures GetU16(s, p) == v
  {
    GetU16IsLE(s, p);
    assert v < Pow256(2) by { Widths(); }
    ReadBack(v, 2);
  }

  lemma DecodeOfFields(s: seq<byte>, e: Entry, threshold: nat)
    requires WellFormed(e, threshold) && threshold <= MAX_THRESHOLD
    requires RecLen(DIGEST_LEN, |e.events|) <= |s|
    requires s[0..2] == LE(DIGEST_LEN, 2) && s[2..4] == LE(|e.events|, 2)
    requires s[4..12] == PutTime(e.blocked) && s[12..20] == PutTime(e.seen)
    requires s[20..52] == e.key && s[52..52 + 8 * |e.events|] == PutTimes(e.events)
    ensures GetU16(s, 0) == DIGEST_LEN && GetU16(s, 2) == |e.events|
    ensures Decode(s, |e.events|) == e
  {
    U16ReadsBack(s, 0, DIGEST_LEN);
    U16ReadsBack(s, 2, |e.events|);
    TimeReadsBack(e.blocked);
    TimeReadsBack(e.seen);
    TimesReadBack(e.events);
  }

  lemma DecodeOfEncode(e: Entry, rest: seq<byte>, threshold: nat)
    requires WellFormed(e, threshold) && threshold <= MAX_THRESHOLD
    ensures var s := Encode(e) + rest;
            && GetU16(s, 0) == DIGEST_LEN && GetU16(s, 2) == |e.events|
            && Decode(s, |e.events|) == e
  {
    EncodeLayout(e, rest);
    DecodeOfFields(Encode(e) + rest, e, threshold);
  }

  lemma Pieces(s: seq<byte>, end: nat)
    requires 52 <= end <= |s|
    ensures s[..end] == s[0..2] + (s[2..4] + (s[4..12] + (s[12..20] + (s[20..52] + s[52..end]))))
  {
  }

  lemma U16WritesBack(s: seq<byte>, p: nat)
    requires p + 2 <= |s|
    ensures LE(GetU16(s, p) % 0x1_0000, 2) == s[p..p + 2]
  {
    var w := s[p..p + 2];
    GetU16IsLE(s, p);
    WriteBack(w);
    var v := GetU16(s, p);
    assert v < 0x1_0000;
    assert v % 0x1_0000 == v;
  }

  lemma EncodeOfFields(s: seq<byte>, e: Entry, end: nat)
    requires 52 <= end <= |s| && |e.key| == DIGEST_LEN
    requires LE(|e.key| % 0x1_0000, 2) == s[0..2] && LE(|e.events| % 0x1_0000, 2) == s[2..4]
    requires PutTime(e.blocked) == s[4..12] && PutTime(e.seen) == s[12..20]
    requires e.key == s[20..52] && PutTimes(e.events) == s[52..end]
    ensures Encode(e) == s[..end]
  {
    Pieces(s, end);
  }

  lemma EncodeOfDecode(s: seq<byte>, threshold: nat)
    requires FILE_REC_LEN <= |s|
    requires GetU16(s, 0) == DIGEST_LEN && GetU16(s, 2) <= threshold
    requires RecLen(DIGEST_LEN, GetU16(s, 2)) <= |s|
    ensures var n := GetU16(s, 2);
            && Encode(Decode(s, n)) == s[..RecLen(DIGEST_LEN, n)]
            && WellFormed(Decode(s, n), threshold)
  {
    var n := GetU16(s, 2);
    var e := Decode(s, n);
    U16WritesBack(s, 0);
    U16WritesBack(s, 2);
    TimeWritesBack(s[4..12]);
    TimeWritesBack(s[12..20]);
    TimesWriteBack(s[52..52 + 8 * n], n);
    EncodeOfFields(s, e, 52 + 8 * n);
  }

  /** s is exactly the well-formed records es end to end. */
  ghost predicate IsPayload(s: seq<byte>, es: seq<Entry>, threshold: nat)
  {
    EncodeAll(es) == s && forall e :: e in es ==> WellFormed(e, threshold)
  }

  lemma DecodePrepended(e: Entry, rest: seq<byte>, es: seq<Entry>, threshold: nat)
    requires WellFormed(e, threshold) && threshold <= MAX_THRESHOLD
    requires DecodeAll(rest, |es|, threshold) == Some(es)
    ensures DecodeAll(Encode(e) + rest, |es| + 1, threshold) == Some([e] + es)
  {
    DecodeOfEncode(e, rest, threshold);
    var s := Encode(e) + rest;
    assert s[RecLen(DIGEST_LEN, |e.events|)..] == rest;
  }

  lemma PayloadTail(es: seq<Entry>, threshold: nat)
    requires es != [] && forall e :: e in es ==> WellFormed(e, threshold)
    ensures IsPayload(EncodeAll(es[1..]), es[1..], threshold) && WellFormed(es[0], threshold)
  {
    assert es[0] in es && forall e :: e in es[1..] ==> e in es;
  }

  lemma PayloadStep(es: seq<Entry>, threshold: nat)
    requires threshold <= MAX_THRESHOLD && es != [] && WellFormed(es[0], threshold)
    requires DecodeAll(EncodeAll(es[1..]), |es| - 1, threshold) == Some(es[1..])
    ensures DecodeAll(EncodeAll(es), |es|, threshold) == Some(es)
  {
    var tail, rest := es[1..], EncodeAll(es[1..]);
    DecodePrepended(es[0], rest, tail, threshold);
    assert es == [es[0]] + tail && EncodeAll(es) == Encode(es[0]) + rest;
  }

  /** What was encoded is accepted and read back as it was. */
  lemma {:induction false} DecodeEncodeAll(s: seq<byte>, es: seq<Entry>, threshold: nat)
    requires threshold <= MAX_THRESHOLD && IsPayload(s, es, threshold)
    ensures DecodeAll(s, |es|, threshold) == Some(es)
    decreases |es|
  {
    hide Encode, Decode, RecLen, WellFormed;
    if es != [] {
      PayloadTail(es, threshold);
      DecodeEncodeAll(EncodeAll(es[1..]), es[1..], threshold);
      PayloadStep(es, threshold);
    }
  }

  lemma DecodeSplits(s: seq<byte>, records: nat, threshold: nat)
    requires records > 0 && DecodeAll(s, records, threshold).Some?
    ensures FILE_REC_LEN <= |s| && GetU16(s, 0) == DIGEST_LEN && GetU16(s, 2) <= threshold
    ensures RecLen(DIGEST_LEN, GetU16(s, 2)) <= |s|
    ensures var n := GetU16(s, 2);
            var rest := DecodeAll(s[RecLen(DIGEST_LEN, n)..], records - 1, threshold);
            rest.Some? && DecodeAll(s, records, threshold).value == [Decode(s, n)] + rest.value
  {
  }

  lemma PrependRecord(s: seq<byte>, end: nat, e: Entry, es: seq<Entry>, threshold: nat)
    requires end <= |s| && Encode(e) == s[..end] && WellFormed(e, threshold)
    requires IsPayload(s[end..], es, threshold)
    ensures IsPayload(s, [e] + es, threshold)
  {
    assert ([e] + es)[1..] == es;
    assert s == s[..end] + s[end..];
  }

  /** What is accepted is the encoding of what was read. */
  lemma {:induction false} EncodeDecodeAll(s: seq<byte>, records: nat, threshold: nat)
    requires DecodeAll(s, records, threshold).Some?
    ensures IsPayload(s, DecodeAll(s, records, threshold).value, threshold)
    ensures |DecodeAll(s, records, threshold).value| == records
    decreases records
  {
    hide Encode, Decode, WellFormed;
    if records > 0 {
      DecodeSplits(s, records, threshold);
      var n := GetU16(s, 2);
      var end := RecLen(DIGEST_LEN, n);
      EncodeOfDecode(s, threshold);
      EncodeDecodeAll(s[end..], records - 1, threshold);
      PrependRecord(s, end, Decode(s, n), DecodeAll(s[end..], records - 1, threshold).value, threshold);
    }
  }

  /** A payload is accepted iff it is exactly `records` well-formed records end to end. */
  lemma {:induction false} AcceptedIffRecords(s: seq<byte>, records: nat, threshold: nat)
    requires threshold <= MAX_THRESHOLD
    ensures DecodeAll(s, records, threshold).Some?
       <==> exists es :: |es| == records && IsPayload(s, es, threshold)
  {
    if DecodeAll(s, records, threshold).Some? {
      EncodeDecodeAll(s, records, threshold);
    }
    if es :| |es| == records && IsPayload(s, es, threshold) {
      DecodeEncodeAll(s, es, threshold);
    }
  }

  // ---------------------------------------------------------------- writing a snapshot

  /** The entries serialize() gets to write, tail first, with room bytes left for them. */
  function TailFirst(z: Entries, room: int): seq<Entry>
  {
    if z == [] then []
    else
      var e := z[|z| - 1];
      if room < RecLen(|e.key|, |e.events|) then []
      else [e] + TailFirst(z[..|z| - 1], room - RecLen(|e.key|, |e.events|))
  }

  function Header(p: Policy, records: nat, crc: u32): (s: seq<byte>)
    ensures |s| == FILE_HDR_LEN
  {
    FILE_MAGIC + LE(FILE_VERSION, 4) + LE(p.threshold, 4) + LE(records % 0x1_0000_0000, 4) + LE(crc, 4)
  }

  function SnapshotBody(st: Store, p: Policy, z: Entries): seq<byte>
  {
    var es := TailFirst(z, st.size - FILE_HDR_LEN);
    Header(p, |es|, st.crc(EncodeAll(es))) + EncodeAll(es)
  }

  function Snapshot(st: Store, p: Policy, z: Entries): seq<byte>
  {
    SnapshotBody(st, p, z) + if st.secret then st.hmac(SnapshotBody(st, p, z)) else []
  }

  // ---------------------------------------------------------------- reading a snapshot

  function InWindow(events: seq<int>, cutoff: int, now: int): (r: seq<int>)
    ensures |r| <= |events|
  {
    if events == [] then []
    else (if cutoff < events[0] <= now then [events[0]] else []) + InWindow(events[1..], cutoff, now)
  }

  predicate Dead(e: Entry, now: Clock)
  {
    e.blocked <= now && e.events == []
  }

  function RestoredDeadline(p: Policy, blocked: int, now: Clock): int
  {
    if blocked <= now then 0
    else if blocked < AddSaturate(now, p.block) then blocked else AddSaturate(now, p.block)
  }

  function Restored(p: Policy, e: Entry, now: Clock): Entry
  {
    Entry(e.key,
          RestoredDeadline(p, e.blocked, now),
          if 0 < e.seen <= now then e.seen else now,
          InWindow(e.events, now - p.interval, now))
  }

  /** One record meets the zone; ok is false when no node could be had for it. */
  function LoadOne(p: Policy, z: Entries, e: Entry, now: Clock, grants: seq<bool>): Placed
  {
    var i := Position(z, e.key);
    if i < |z| then Placed(z[i := Restored(p, e, now)], true)
    else
      var b := Create(p, z, e.key, now, grants);
      if !b.ok then b else Placed([Restored(p, e, now)] + b.zone[1..], true)
  }

  datatype Loading = Loading(zone: Entries, loaded: nat, dropped: nat)

  function GrantsOf(grants: seq<seq<bool>>): seq<bool>
  {
    if grants == [] then [] else grants[0]
  }

  function GrantsAfter(grants: seq<seq<bool>>): seq<seq<bool>>
  {
    if grants == [] then [] else grants[1..]
  }

  /** grants holds the slab's answers record by record. */
  function LoadAll(p: Policy, z: Entries, es: seq<Entry>, now: Clock, grants: seq<seq<bool>>,
                   loaded: nat): Loading
    decreases |es|
  {
    if es == [] then Loading(z, loaded, 0)
    else if Dead(es[0], now) then LoadAll(p, z, es[1..], now, GrantsAfter(grants), loaded)
    else
      var b := LoadOne(p, z, es[0], now, GrantsOf(grants));
      if !b.ok then Loading(b.zone, loaded, |es|)
      else LoadAll(p, b.zone, es[1..], now, GrantsAfter(grants), loaded + 1)
  }

  /** Why a file is ignored; a corrupted one is also deleted. */
  datatype Fault = InvalidSize | BadMac | Incompatible | Corrupted | Malformed

  /** The records of a file that passes every check of load(), or why it does not. */
  datatype Screening = Rejected(why: Fault) | Admitted(records: seq<Entry>)

  function Screen(st: Store, p: Policy, file: seq<byte>): Screening
  {
    if |file| < FILE_HDR_LEN + st.MacLen() || |file| > st.size + st.MacLen() then Rejected(InvalidSize)
    else
      var end := |file| - st.MacLen();
      if st.secret && st.hmac(file[..end]) != file[end..] then Rejected(BadMac)
      else if file[..8] != FILE_MAGIC || GetU32(file, 8) != FILE_VERSION || GetU32(file, 12) != p.threshold
      then Rejected(Incompatible)
      else if GetU32(file, 20) != st.crc(file[FILE_HDR_LEN..end]) then Rejected(Corrupted)
      else
        match DecodeAll(file[FILE_HDR_LEN..end], GetU32(file, 16), p.threshold)
        case None => Rejected(Malformed)
        case Some(es) => Admitted(es)
  }

  /** What the zone becomes and how many records were restored and dropped. */
  function Load(st: Store, p: Policy, z: Entries, file: seq<byte>, now: Clock,
                grants: seq<seq<bool>>): Loading
  {
    match Screen(st, p, file)
    case Rejected(_) => Loading(z, 0, 0)
    case Admitted(es) => LoadAll(p, z, es, now, grants, 0)
  }
}

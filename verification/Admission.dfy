/** Which files load() takes, why it ignores the others, and what each record it takes does. */
module Admission {
  import opened Times
  import opened Wrappers
  import opened ZoneModel
  import opened Codec
  import opened SnapshotModel

  // ---------------------------------------------------------------- the bytes of a file

  /** The 24 bytes a file starts with: "NGEAB01" and a NUL, version 2, threshold, number of records and
      checksum, each in four little-endian bytes. */
  function HeaderBytes(threshold: nat, records: nat, crc: u32): seq<byte>
  {
    [0x4E, 0x47, 0x45, 0x41, 0x42, 0x30, 0x31, 0x00] + LE(2, 4) + LE(threshold, 4) + LE(records, 4) + LE(crc, 4)
  }

  function BodyOf(st: Store, p: Policy, es: seq<Entry>): seq<byte>
  {
    HeaderBytes(p.threshold, |es|, st.crc(EncodeAll(es))) + EncodeAll(es)
  }

  /** The file is exactly these records under this configuration and, if there is one, this secret. */
  ghost predicate IsFileOf(st: Store, p: Policy, file: seq<byte>, es: seq<Entry>)
  {
    var body := BodyOf(st, p, es);
    && |es| < 0x1_0000_0000 && |body| <= st.size
    && (forall e :: e in es ==> WellFormed(e, p.threshold))
    && file == body + if st.secret then st.hmac(body) else []
  }

  lemma FieldIs(s: seq<byte>, p: nat, v: u32)
    requires p + 4 <= |s|
    ensures GetU32(s, p) == v <==> s[p..p + 4] == LE(v, 4)
  {
    GetU32IsLE(s, p);
    Widths();
    ReadBack(v, 4);
    WriteBack(s[p..p + 4]);
  }

  /** The checks of the header read field by field compare its bytes. */
  lemma HeaderIff(s: seq<byte>, threshold: u32, records: u32, crc: u32)
    requires |s| >= 24
    ensures s[..24] == HeaderBytes(threshold, records, crc)
       <==> && s[..8] == FILE_MAGIC && GetU32(s, 8) == FILE_VERSION && GetU32(s, 12) == threshold
            && GetU32(s, 16) == records && GetU32(s, 20) == crc
  {
    hide LE, GetU32;
    FieldIs(s, 8, 2);
    FieldIs(s, 12, threshold);
    FieldIs(s, 16, records);
    FieldIs(s, 20, crc);
    var h := HeaderBytes(threshold, records, crc);
    assert h[..8] == FILE_MAGIC && h[8..12] == LE(2, 4) && h[12..16] == LE(threshold, 4);
    assert h[16..20] == LE(records, 4) && h[20..24] == LE(crc, 4);
    assert s[..24] == s[..8] + s[8..12] + s[12..16] + s[16..20] + s[20..24];
    if s[..24] == h {
      assert s[..8] == s[..24][..8] && s[8..12] == s[..24][8..12] && s[12..16] == s[..24][12..16];
      assert s[16..20] == s[..24][16..20] && s[20..24] == s[..24][20..24];
    }
  }

  // ---------------------------------------------------------------- which files are loaded

  /** What load() takes apart: everything but the tag, and the tag. */
  function Body(st: Store, file: seq<byte>): seq<byte>
    requires |file| >= st.MacLen()
  {
    file[..|file| - st.MacLen()]
  }

  lemma FileParts(st: Store, p: Policy, file: seq<byte>, es: seq<Entry>)
    requires |file| >= 24 + st.MacLen()
    ensures var body := Body(st, file);
            IsFileOf(st, p, file, es)
            <==> && |es| < 0x1_0000_0000 && |file| <= st.size + st.MacLen()
                 && (forall e :: e in es ==> WellFormed(e, p.threshold))
                 && (st.secret ==> st.hmac(body) == file[|body|..])
                 && body[..24] == HeaderBytes(p.threshold, |es|, st.crc(body[24..])) && body[24..] == EncodeAll(es)
  {
    hide EncodeAll, HeaderBytes, WellFormed;
    var body, mine := Body(st, file), BodyOf(st, p, es);
    HeaderLength(p.threshold, |es|, st.crc(EncodeAll(es)));
    assert file == body + file[|body|..] && body == body[..24] + body[24..];
    assert mine[..24] == HeaderBytes(p.threshold, |es|, st.crc(EncodeAll(es))) && mine[24..] == EncodeAll(es);
    if IsFileOf(st, p, file, es) {
      var tag := if st.secret then st.hmac(mine) else [];
      assert |tag| == st.MacLen() && |file| - st.MacLen() == |mine|;
      assert (mine + tag)[..|mine|] == mine && (mine + tag)[|mine|..] == tag;
    }
  }

  lemma HeaderLength(threshold: nat, records: nat, crc: u32)
    ensures |HeaderBytes(threshold, records, crc)| == 24
  {
  }

  /** A file is loaded as these records if and only if it is exactly their file. */
  lemma {:induction false} AdmittedIff(st: Store, p: Policy, file: seq<byte>, es: seq<Entry>)
    ensures Screen(st, p, file) == Admitted(es) <==> IsFileOf(st, p, file, es)
  {
    hide EncodeAll, HeaderBytes, WellFormed, DecodeAll, GetU32, LE;
    if |file| < 24 + st.MacLen() {
      HeaderLength(p.threshold, |es|, st.crc(EncodeAll(es)));
    } else {
      var body := Body(st, file);
      FileParts(st, p, file, es);
      HeaderInBody(file, |body|);
      if |es| < 0x1_0000_0000 { HeaderIff(body, p.threshold, |es|, st.crc(body[24..])); }
      assert body[24..] == file[24..|body|];
      if DecodeAll(body[24..], GetU32(file, 16), p.threshold).Some? {
        EncodeDecodeAll(body[24..], GetU32(file, 16), p.threshold);
      }
      if IsPayload(body[24..], es, p.threshold) { DecodeEncodeAll(body[24..], es, p.threshold); }
    }
  }

  lemma HeaderInBody(file: seq<byte>, n: nat)
    requires 24 <= n <= |file|
    ensures var body := file[..n];
            && file[..8] == body[..8] && GetU32(file, 8) == GetU32(body, 8)
            && GetU32(file, 12) == GetU32(body, 12) && GetU32(file, 16) == GetU32(body, 16)
            && GetU32(file, 20) == GetU32(body, 20) && GetU32(file, 16) < 0x1_0000_0000
  {
    Widths();
    GetU32IsLE(file, 16);
    WriteBack(file[16..20]);
  }

  /** Any other file leaves the zone as it was. */
  lemma LoadIff(st: Store, p: Policy, z: Entries, file: seq<byte>, now: Clock, grants: seq<seq<bool>>)
    ensures (forall es :: !IsFileOf(st, p, file, es)) ==> Load(st, p, z, file, now, grants) == Loading(z, 0, 0)
    ensures forall es :: IsFileOf(st, p, file, es) ==>
              Load(st, p, z, file, now, grants) == LoadAll(p, z, es, now, grants, 0)
  {
    hide Screen, IsFileOf, LoadAll;
    forall es ensures Screen(st, p, file) == Admitted(es) <==> IsFileOf(st, p, file, es) {
      AdmittedIff(st, p, file, es);
    }
    match Screen(st, p, file)
    case Rejected(_) =>
    case Admitted(es) => assert IsFileOf(st, p, file, es);
  }

  // ---------------------------------------------------------------- why a file is ignored

  predicate SizeFits(st: Store, file: seq<byte>)
  {
    24 + st.MacLen() <= |file| <= st.size + st.MacLen()
  }

  predicate TagFits(st: Store, file: seq<byte>)
    requires |file| >= st.MacLen()
  {
    st.secret ==> file[|file| - 32..] == st.hmac(file[..|file| - 32])
  }

  /** Magic, version and threshold. */
  predicate KindFits(p: Policy, body: seq<byte>)
    requires |body| >= 24
  {
    body[..16] == [0x4E, 0x47, 0x45, 0x41, 0x42, 0x30, 0x31, 0x00] + LE(2, 4) + LE(p.threshold, 4)
  }

  predicate SumFits(st: Store, body: seq<byte>)
    requires |body| >= 24
  {
    body[20..24] == LE(st.crc(body[24..]), 4)
  }

  ghost predicate RecordsFit(p: Policy, body: seq<byte>)
    requires |body| >= 24
  {
    exists es :: |es| < 0x1_0000_0000 && body[16..20] == LE(|es|, 4) && IsPayload(body[24..], es, p.threshold)
  }

  /** The first check that fails names the fault. */
  lemma {:induction false} FaultIs(st: Store, p: Policy, file: seq<byte>, why: Fault)
    ensures Screen(st, p, file) == Rejected(why) <==>
      if !SizeFits(st, file) then why == InvalidSize
      else
        var body := Body(st, file);
        if !TagFits(st, file) then why == BadMac
        else if !KindFits(p, body) then why == Incompatible
        else if !SumFits(st, body) then why == Corrupted
        else !RecordsFit(p, body) && why == Malformed
  {
    hide EncodeAll, WellFormed, DecodeAll, GetU32, LE;
    if SizeFits(st, file) {
      var body := Body(st, file);
      HeaderInBody(file, |body|);
      KindIff(p, body);
      FieldIs(body, 20, st.crc(body[24..]));
      assert body[24..] == file[24..|body|];
      RecordsIff(p, body);
    }
  }

  lemma KindIff(p: Policy, body: seq<byte>)
    requires |body| >= 24
    ensures KindFits(p, body)
       <==> body[..8] == FILE_MAGIC && GetU32(body, 8) == FILE_VERSION && GetU32(body, 12) == p.threshold
  {
    hide LE, GetU32;
    FieldIs(body, 8, 2);
    FieldIs(body, 12, p.threshold);
    assert body[..16] == body[..8] + body[8..12] + body[12..16];
    assert |LE(2, 4)| == 4 && |LE(p.threshold, 4)| == 4;
    if KindFits(p, body) {
      assert body[..8] == body[..16][..8] && body[8..12] == body[..16][8..12] && body[12..16] == body[..16][12..16];
    }
  }

  lemma RecordsIff(p: Policy, body: seq<byte>)
    requires |body| >= 24
    ensures RecordsFit(p, body) <==> DecodeAll(body[24..], GetU32(body, 16), p.threshold).Some?
  {
    hide EncodeAll, DecodeAll, GetU32, LE, WellFormed;
    var n := GetU32(body, 16);
    HeaderInBody(body, |body|);
    FieldIs(body, 16, n);
    if DecodeAll(body[24..], n, p.threshold).Some? { EncodeDecodeAll(body[24..], n, p.threshold); }
    if RecordsFit(p, body) {
      var es :| |es| < 0x1_0000_0000 && body[16..20] == LE(|es|, 4) && IsPayload(body[24..], es, p.threshold);
      FieldIs(body, 16, |es|);
      DecodeEncodeAll(body[24..], es, p.threshold);
    }
  }

  // ---------------------------------------------------------------- what a record does

  /** Whatever was recorded, the events kept are those after cutoff and not after now, in their order. */
  lemma {:induction false} WindowKeeps(a: seq<int>, x: int, b: seq<int>, cutoff: int, now: int)
    ensures InWindow([], cutoff, now) == []
    ensures InWindow(a + [x] + b, cutoff, now)
         == InWindow(a, cutoff, now) + (if cutoff < x && x <= now then [x] else []) + InWindow(b, cutoff, now)
  {
    if a == [] {
      assert a + [x] + b == [x] + b && ([x] + b)[1..] == b;
    } else {
      assert (a + [x] + b)[1..] == a[1..] + [x] + b;
      WindowKeeps(a[1..], x, b, cutoff, now);
    }
  }

  /** Whatever the record says, its ban is over or ends within a block time from now, unchanged if it
      does so anyway; and its identity was not seen in the future. */
  lemma RestoredIsBounded(p: Policy, e: Entry, now: Clock)
    ensures var r := Restored(p, e, now);
            && r.key == e.key && r.events == InWindow(e.events, now - p.interval, now)
            && r.blocked <= now + p.block && r.blocked <= TIME_MAX
            && (e.blocked <= now ==> r.blocked == 0)
            && (now < e.blocked ==> now < r.blocked)
            && (now < e.blocked <= now + p.block && e.blocked <= TIME_MAX ==> r.blocked == e.blocked)
            && 0 <= r.seen <= now
            && (0 < e.seen <= now ==> r.seen == e.seen) && (!(0 < e.seen <= now) ==> r.seen == now)
  {
  }

  /** A record with neither a ban that is still running nor an event is skipped; another one changes its
      identity's node in place, or else creates one as record() does and overwrites that, or else is
      refused and ends the loading. */
  lemma LoadsFirst(p: Policy, z: Entries, e: Entry, rest: seq<Entry>, now: Clock, grants: seq<bool>,
                   later: seq<seq<bool>>, loaded: nat)
    ensures var r := LoadAll(p, z, [e] + rest, now, [grants] + later, loaded);
            var i, b := Position(z, e.key), Create(p, z, e.key, now, grants);
            if e.blocked <= now && e.events == [] then
              r == LoadAll(p, z, rest, now, later, loaded)
            else if i < |z| then
              r == LoadAll(p, z[..i] + [Restored(p, e, now)] + z[i + 1..], rest, now, later, loaded + 1)
            else if b.ok then
              r == LoadAll(p, [Restored(p, e, now)] + b.zone[1..], rest, now, later, loaded + 1)
            else
              r == Loading(b.zone, loaded, 1 + |rest|)
  {
    hide Create, Restored;
    assert ([e] + rest)[1..] == rest && ([grants] + later)[1..] == later;
    var i := Position(z, e.key);
    if i < |z| { assert z[i := Restored(p, e, now)] == z[..i] + [Restored(p, e, now)] + z[i + 1..]; }
  }

  /** Nothing left to load changes nothing. */
  lemma LoadsNothing(p: Policy, z: Entries, now: Clock, grants: seq<seq<bool>>, loaded: nat)
    ensures LoadAll(p, z, [], now, grants, loaded) == Loading(z, loaded, 0)
  {
  }

  // ---------------------------------------------------------------- what is written

  /** serialize() writes from the tail up to the first entry that no longer fits, and stops there. */
  lemma {:induction false} WrittenExactly(z: Entries, room: int)
    ensures var w := TailFirst(z, room);
            && |w| <= |z| && (forall i :: 0 <= i < |w| ==> w[i] == z[|z| - 1 - i])
            && (w != [] ==> |EncodeAll(w)| <= room)
            && (|w| < |z| ==>
                  var e := z[|z| - 1 - |w|];
                  room < |EncodeAll(w)| + 20 + |e.key| + 8 * |e.events|)
  {
    hide Encode;
    if z != [] {
      var e := z[|z| - 1];
      var left := room - RecLen(|e.key|, |e.events|);
      WrittenExactly(z[..|z| - 1], left);
      if left >= 0 {
        var w, rest := TailFirst(z, room), TailFirst(z[..|z| - 1], left);
        assert w == [e] + rest && w[1..] == rest;
        assert EncodeAll(w) == Encode(e) + EncodeAll(rest);
      }
    }
  }
}

/** Writing, validating and loading the persistence file, in place. */
module Snapshots {
  import opened Times
  import opened Wrappers
  import opened ZoneModel
  import opened Codec
  import opened SnapshotModel
  import opened Index
  import opened Zones

  // ---------------------------------------------------------------- validation

  /** SEC: the gate every payload passes before load() walks it. */
  method ValidateSnapshot(s: seq<byte>, records: nat, threshold: nat) returns (ok: bool)
    ensures ok <==> DecodeAll(s, records, threshold).Some?
  {
    hide Decode;
    var p := 0;
    for i := 0 to records
      invariant p <= |s|
      invariant DecodeAll(s, records, threshold).Some? <==> DecodeAll(s[p..], records - i, threshold).Some?
    {
      ghost var rest := s[p..];
      if |s| - p < FILE_REC_LEN { return false; }
      var keyLen, eventCount := GetU16(s, p), GetU16(s, p + 2);
      assert GetU16(rest, 0) == keyLen && GetU16(rest, 2) == eventCount;
      p := p + FILE_REC_LEN;
      if keyLen != DIGEST_LEN || eventCount > threshold { return false; }
      var payload := keyLen + eventCount * 8;
      if |s| - p < payload { return false; }
      p := p + payload;
      assert rest[RecLen(DIGEST_LEN, eventCount)..] == s[p..];
    }
    return p == |s|;
  }

  // ---------------------------------------------------------------- serialization

  lemma {:induction false} PutTimesSnoc(events: seq<int>, i: nat)
    requires i < |events|
    ensures PutTimes(events[..i + 1]) == PutTimes(events[..i]) + PutTime(events[i])
  {
    hide PutTime;
    if i == 0 {
      assert events[..1] == [events[0]] && PutTimes([events[0]]) == PutTime(events[0]) + PutTimes([]);
    } else {
      PutTimesSnoc(events[1..], i - 1);
      TakeTail(events, i + 1);
      TakeTail(events, i);
    }
  }

  /** The events of a node, oldest first. */
  method PutEvents(ean: Node, threshold: nat, buf: array<byte>, p: nat) returns (q: nat)
    requires ean.Ok(threshold) && p + 8 * ean.eventCount <= buf.Length
    modifies buf
    ensures q == p + 8 * ean.eventCount
    ensures Wrote(buf[..], old(buf[..]), p, PutTimes(ean.Live()))
  {
    hide LE, RingOf, PutTimes, Wrote;
    ghost var before, live := buf[..], ean.Live();
    q := p;
    NothingWritten(before, p);
    for i := 0 to ean.eventCount
      invariant q == p + 8 * i
      invariant Wrote(buf[..], before, p, PutTimes(live[..i]))
    {
      RingAt(ean.events[..], ean.eventHead, ean.eventCount, i);
      PutTimesSnoc(live, i);
      ghost var mid := buf[..];
      q := PutU64(buf, q, ToU64(ean.events[(ean.eventHead + i) % threshold]));
      WroteMore(buf[..], mid, before, p, PutTimes(live[..i]), PutTime(live[i]));
    }
    assert live[..ean.eventCount] == live;
  }

  lemma NothingWritten(buf: seq<byte>, p: nat)
    requires p <= |buf|
    ensures PutTimes([]) == [] && Wrote(buf, buf, p, [])
  {
  }

  /** One record: fixed fields, key, events. */
  method PutRecord(ean: Node, threshold: nat, buf: array<byte>, p: nat) returns (q: nat)
    requires ean.Ok(threshold) && p + RecLen(|ean.key|, ean.eventCount) <= buf.Length
    modifies buf
    ensures q == p + RecLen(|ean.key|, ean.eventCount)
    ensures Wrote(buf[..], old(buf[..]), p, Encode(ean.View()))
  {
    hide LE, RingOf, PutTimes, ToU64, Wrote;
    ghost var before := buf[..];
    ghost var a, b := LE(|ean.key| % 0x1_0000, 2), LE(ean.eventCount % 0x1_0000, 2);
    ghost var c, d := PutTime(ean.blockedUntil), PutTime(ean.lastSeen);
    q := PutU16(buf, p, |ean.key| % 0x1_0000);
    ghost var mid := buf[..];
    q := PutU16(buf, q, ean.eventCount % 0x1_0000);
    WroteMore(buf[..], mid, before, p, a, b);
    mid := buf[..];
    q := PutU64(buf, q, ToU64(ean.blockedUntil));
    WroteMore(buf[..], mid, before, p, a + b, c);
    mid := buf[..];
    q := PutU64(buf, q, ToU64(ean.lastSeen));
    WroteMore(buf[..], mid, before, p, a + b + c, d);
    mid := buf[..];
    q := PutBytes(buf, q, ean.key);
    WroteMore(buf[..], mid, before, p, a + b + c + d, ean.key);
    mid := buf[..];
    q := PutEvents(ean, threshold, buf, q);
    WroteMore(buf[..], mid, before, p, a + b + c + d + ean.key, PutTimes(ean.Live()));
    Regroup(a, b, c, d, ean.key, PutTimes(ean.Live()));
  }

  lemma Regroup<T>(a: seq<T>, b: seq<T>, c: seq<T>, d: seq<T>, k: seq<T>, t: seq<T>)
    ensures a + b + c + d + k + t == a + (b + (c + (d + (k + t))))
  {
  }

  lemma Regroup3<T>(a: seq<T>, b: seq<T>, c: seq<T>)
    ensures a + (b + c) == (a + b) + c
  {
  }

  lemma TailFirstStep(z: Entries, k: nat, room: int)
    requires 0 < k <= |z|
    ensures var e := z[k - 1];
            TailFirst(z[..k], room) ==
              if room < RecLen(|e.key|, |e.events|) then []
              else [e] + TailFirst(z[..k - 1], room - RecLen(|e.key|, |e.events|))
  {
    assert z[..k][..k - 1] == z[..k - 1];
  }

  /** The queue loop: records tail first until one does not fit. */
  method PutRecords(zone: Zone, size: nat, buf: array<byte>) returns (p: nat, records: nat)
    requires zone.Valid() && FILE_HDR_LEN <= size <= buf.Length
    modifies buf
    ensures FILE_HDR_LEN <= p <= size
    ensures var es := TailFirst(zone.View(), size - FILE_HDR_LEN);
            records == |es| && buf[FILE_HDR_LEN..p] == EncodeAll(es)
    ensures zone.Valid() && zone.View() == old(zone.View())
  {
    hide Encode, EncodeAll, TailFirst, ViewOf, Ordered, Nodes, Distinct, Wrote, RingOf;
    p, records := FILE_HDR_LEN, 0;
    var k := |zone.queue|;
    ghost var z := zone.View();
    ghost var written: seq<Entry> := [];
    assert z[..k] == z;
    NothingEncoded();
    while k > 0
      invariant k <= |zone.queue| && FILE_HDR_LEN <= p <= size
      invariant zone.Valid() && zone.View() == z
      invariant records == |written| && buf[FILE_HDR_LEN..p] == EncodeAll(written)
      invariant TailFirst(z, size - FILE_HDR_LEN) == written + TailFirst(z[..k], size - p)
    {
      var ean := zone.queue[k - 1];
      zone.NodeAt(k - 1);
      TailFirstStep(z, k, size - p);
      if size - p < RecLen(|ean.key|, ean.eventCount) {
        assert written + [] == written;
        return;
      }
      ghost var before, e := buf[..], ean.View();
      ghost var q := p;
      p := PutRecord(ean, zone.policy.threshold, buf, p);
      SameView(zone.queue);
      WroteSlice(buf[..], before, q, Encode(e), FILE_HDR_LEN);
      EncodeAllSnoc(written, e);
      Regroup3(written, [e], TailFirst(z[..k - 1], size - p));
      written := written + [e];
      records := records + 1;
      k := k - 1;
    }
    assert z[..0] == [];
    assert written + [] == written;
  }

  lemma {:induction false} EncodeAllSnoc(es: seq<Entry>, e: Entry)
    ensures EncodeAll(es + [e]) == EncodeAll(es) + Encode(e)
  {
    hide Encode;
    if es == [] {
      assert es + [e] == [e];
      assert EncodeAll([e]) == Encode(e) + EncodeAll([]);
    } else {
      assert (es + [e])[1..] == es[1..] + [e];
      EncodeAllSnoc(es[1..], e);
    }
  }

  lemma NothingEncoded()
    ensures EncodeAll([]) == []
    ensures forall room: int :: TailFirst([], room) == []
  {
  }

  method PutHeader(p: Policy, records: nat, crc: u32, buf: array<byte>)
    requires FILE_HDR_LEN <= buf.Length
    modifies buf
    ensures Wrote(buf[..], old(buf[..]), 0, Header(p, records, crc))
  {
    hide LE, Wrote;
    ghost var before := buf[..];
    ghost var a, b := FILE_MAGIC, LE(FILE_VERSION, 4);
    ghost var c, d := LE(p.threshold, 4), LE(records % 0x1_0000_0000, 4);
    var h := PutBytes(buf, 0, FILE_MAGIC);
    ghost var mid := buf[..];
    h := PutU32(buf, h, FILE_VERSION);
    WroteMore(buf[..], mid, before, 0, a, b);
    mid := buf[..];
    h := PutU32(buf, h, p.threshold);
    WroteMore(buf[..], mid, before, 0, a + b, c);
    mid := buf[..];
    h := PutU32(buf, h, records % 0x1_0000_0000);
    WroteMore(buf[..], mid, before, 0, a + b + c, d);
    mid := buf[..];
    h := PutU32(buf, h, crc);
    WroteMore(buf[..], mid, before, 0, a + b + c + d, LE(crc, 4));
  }

  /** PERF-1: the whole file, built in a buffer of the zone's size plus room for the MAC. */
  method Serialize(zone: Zone, st: Store, buf: array<byte>) returns (outlen: nat)
    requires zone.Valid() && FILE_HDR_LEN <= st.size && st.size + MAC_LEN <= buf.Length
    modifies buf
    ensures outlen <= buf.Length && buf[..outlen] == Snapshot(st, zone.policy, old(zone.View()))
  {
    hide EncodeAll, TailFirst, Header, ViewOf, Wrote;
    ghost var z := zone.View();
    var p, records := PutRecords(zone, st.size, buf);
    ghost var filled := buf[..];
    var crc := st.crc(buf[FILE_HDR_LEN..p]);
    PutHeader(zone.policy, records, crc, buf);
    HeaderAndPayload(buf[..], filled, Header(zone.policy, records, crc), p);
    assert buf[..p] == SnapshotBody(st, zone.policy, z);
    outlen := p;
    if st.secret {
      ghost var body := buf[..p];
      ghost var before := buf[..];
      outlen := PutBytes(buf, p, st.hmac(buf[..p]));
      WroteSlice(buf[..], before, p, st.hmac(body), 0);
      assert buf[0..outlen] == buf[..outlen] && before[0..p] == body;
    }
  }

  lemma HeaderAndPayload(buf: seq<byte>, before: seq<byte>, h: seq<byte>, p: nat)
    requires Wrote(buf, before, 0, h) && |h| <= p <= |buf|
    ensures buf[..p] == h + before[|h|..p]
  {
    assert buf[..|h|] == h;
    assert buf[|h|..p] == buf[|h|..][..p - |h|] == before[|h|..][..p - |h|] == before[|h|..p];
  }

  // ---------------------------------------------------------------- loading

  lemma {:induction false} TimeAt(s: seq<byte>, n: nat, i: nat)
    requires |s| == 8 * n && i < n
    ensures GetTimes(s, n)[i] == GetTime(s[8 * i..8 * i + 8])
    decreases n
  {
    hide GetTime;
    if i > 0 {
      TimeAt(s[8..], n - 1, i - 1);
      assert s[8..][8 * (i - 1)..8 * (i - 1) + 8] == s[8 * i..8 * i + 8];
    }
  }

  lemma {:induction false} InWindowSnoc(events: seq<int>, i: nat, cutoff: int, now: int)
    requires i < |events|
    ensures InWindow(events[..i + 1], cutoff, now)
         == InWindow(events[..i], cutoff, now) + if cutoff < events[i] <= now then [events[i]] else []
  {
    if i > 0 {
      InWindowSnoc(events[1..], i - 1, cutoff, now);
      TakeTail(events, i + 1);
      TakeTail(events, i);
    } else {
      assert events[..1] == [events[0]] && events[..0] == [];
    }
  }

  /** Overwrite a node with a record of n events at offset p of the payload. */
  method RestoreNode(policy: Policy, ean: Node, blocked: int, seen: int, data: seq<byte>, p: nat, n: nat,
                     now: Clock)
    requires ean.Ok(policy.threshold) && n <= policy.threshold && p + 8 * n <= |data|
    modifies ean, ean.events
    ensures ean.Ok(policy.threshold)
    ensures ean.View()
         == Restored(policy, Entry(ean.key, blocked, seen, GetTimes(data[p..p + 8 * n], n)), now)
  {
    hide RingOf, UnLE, GetTimes, InWindow;
    ghost var times := GetTimes(data[p..p + 8 * n], n);
    var cutoff := now - policy.interval;
    if blocked > now {
      var maxDeadline := AddSaturate(now, policy.block);
      ean.blockedUntil := if blocked < maxDeadline then blocked else maxDeadline;
    } else {
      ean.blockedUntil := 0;
    }
    ean.lastSeen := if 0 < seen <= now then seen else now;
    ean.eventHead := 0;
    ean.eventCount := 0;
    NoneInWindow(cutoff, now);
    for i := 0 to n
      invariant ean.eventHead == 0 && ean.eventCount <= i
      invariant ean.blockedUntil == RestoredDeadline(policy, blocked, now)
      invariant ean.lastSeen == if 0 < seen <= now then seen else now
      invariant ean.events[..ean.eventCount] == InWindow(times[..i], cutoff, now)
    {
      var u := GetU64(data, p + 8 * i);
      var when := ToI64(u);
      TimeAt(data[p..p + 8 * n], n, i);
      Subslice(data, p, p + 8 * n, 8 * i, 8 * i + 8);
      InWindowSnoc(times, i, cutoff, now);
      if when > cutoff && when <= now {
        ghost var kept := ean.events[..ean.eventCount];
        ean.events[ean.eventCount] := when;
        ean.eventCount := ean.eventCount + 1;
        assert ean.events[..ean.eventCount] == kept + [when];
      }
    }
    assert times[..n] == times;
    RingFromZero(ean.events[..], ean.eventCount);
    assert ean.events[..][..ean.eventCount] == ean.events[..ean.eventCount];
  }

  lemma Subslice<T>(s: seq<T>, from: nat, to: nat, i: nat, j: nat)
    requires from <= to <= |s| && i <= j <= to - from
    ensures s[from..to][i..j] == s[from + i..from + j]
  {
    var a, b := s[from..to][i..j], s[from + i..from + j];
    assert forall k :: 0 <= k < j - i ==> a[k] == s[from..to][i + k] == s[from + i + k] == b[k];
  }

  lemma NoneInWindow(cutoff: int, now: int)
    ensures InWindow([], cutoff, now) == []
  {
  }

  function Overwritten(z: Entries, i: nat, e: Entry): Entries
    requires i < |z|
  {
    z[i := e]
  }

  method RestoreAt(zone: Zone, ean: Node, blocked: int, seen: int, data: seq<byte>, p: nat, n: nat, now: Clock)
    requires zone.Valid() && ean in zone.queue
    requires n <= zone.policy.threshold && p + 8 * n <= |data|
    modifies ean, ean.events
    ensures zone.Valid()
    ensures var e := Entry(ean.key, blocked, seen, GetTimes(data[p..p + 8 * n], n));
            zone.View() == Overwritten(old(zone.View()), IndexOf(zone.queue, ean), Restored(zone.policy, e, now))
  {
    hide ViewOf, Ordered, Nodes, Distinct, IndexOf, RingOf, Restored, GetTimes;
    ghost var i, z, x := IndexOf(zone.queue, ean), zone.View(), ean.View();
    ghost var va, vb := ViewOf(zone.queue[..i]), ViewOf(zone.queue[i + 1..]);
    zone.Around(i);
    RestoreNode(zone.policy, ean, blocked, seen, data, p, n, now);
    zone.NodeChanged(i);
    SameView(zone.queue[..i]);
    SameView(zone.queue[i + 1..]);
    zone.Around(i);
    UpdateMiddle(z, va, x, vb, ean.View());
  }

  /** One record meets the zone. */
  method LoadRecord(zone: Zone, key: Key, blocked: int, seen: int, data: seq<byte>, p: nat, n: nat,
                    now: Clock, grants: seq<bool>) returns (ok: bool)
    requires zone.Valid() && n <= zone.policy.threshold && p + 8 * n <= |data|
    modifies zone`queue, zone`root, zone.queue, Rings(zone.queue)
    ensures zone.Valid()
    ensures Placed(zone.View(), ok)
         == LoadOne(zone.policy, old(zone.View()), Entry(key, blocked, seen, GetTimes(data[p..p + 8 * n], n)),
                    now, grants)
    ensures forall m :: m in zone.queue ==> m in old(zone.queue) || (fresh(m) && fresh(m.events))
  {
    hide ViewOf, Ordered, Nodes, Distinct, Restored, GetTimes, Create;
    var hash := zone.crc(key);
    var ean := zone.Lookup(hash, key);
    SameView(zone.queue);
    if ean == null {
      ean := zone.CreateNode(hash, key, now, grants);
      if ean == null { return false; }
    }
    assert ean in old(zone.queue) ==> ean.events in old(Rings(zone.queue));
    ghost var z := zone.View();
    RestoreAt(zone, ean, blocked, seen, data, p, n, now);
    HeadOverwritten(z, zone.View()[IndexOf(zone.queue, ean)]);
    ok := true;
  }

  lemma HeadOverwritten(z: Entries, e: Entry)
    ensures z != [] ==> Overwritten(z, 0, e) == [e] + z[1..]
  {
  }

  /** The records of an admitted payload from offset p on, with one split off the front. */
  lemma NextRecord(data: seq<byte>, p: nat, records: nat, threshold: nat, es: seq<Entry>)
    requires p <= |data| && records > 0 && DecodeAll(data[p..], records, threshold) == Some(es)
    ensures p + FILE_REC_LEN <= |data|
    ensures GetU16(data, p) == DIGEST_LEN && GetU16(data, p + 2) <= threshold
    ensures var n := GetU16(data, p + 2);
            && p + RecLen(DIGEST_LEN, n) <= |data|
            && es != [] && |es| == records
            && es[0] == Entry(data[p + 20..p + 52], GetTime(data[p + 4..p + 12]), GetTime(data[p + 12..p + 20]),
                              GetTimes(data[p + 52..p + 52 + 8 * n], n))
            && DecodeAll(data[p + RecLen(DIGEST_LEN, n)..], records - 1, threshold) == Some(es[1..])
  {
    hide GetTime, GetTimes, DecodeAll;
    var s := data[p..];
    DecodeSplits(s, records, threshold);
    EncodeDecodeAll(s, records, threshold);
    var n := GetU16(s, 2);
    assert n == GetU16(data, p + 2) && GetU16(data, p) == GetU16(s, 0);
    assert s[RecLen(DIGEST_LEN, n)..] == data[p + RecLen(DIGEST_LEN, n)..];
    Tail(data, p, 20, 52);
    Tail(data, p, 4, 12);
    Tail(data, p, 12, 20);
    Tail(data, p, 52, 52 + 8 * n);
  }

  lemma Tail<T>(s: seq<T>, p: nat, i: nat, j: nat)
    requires i <= j && p + j <= |s|
    ensures s[p..][i..j] == s[p + i..p + j]
  {
    assert s[p..] == s[p..|s|];
    Subslice(s, p, |s|, i, j);
  }

  datatype Fate = Skipped | Kept | Refused

  /** One turn of the walk: the fixed fields, the key, and what becomes of the record. */
  method LoadNext(zone: Zone, data: seq<byte>, p: nat, n: nat, now: Clock, grants: seq<bool>)
    returns (fate: Fate)
    requires zone.Valid() && n <= zone.policy.threshold && p + RecLen(DIGEST_LEN, n) <= |data|
    modifies zone`queue, zone`root, zone.queue, Rings(zone.queue)
    ensures zone.Valid() && OnlyNewcomers(zone.queue, old(zone.queue))
    ensures var e := Entry(data[p + 20..p + 52], GetTime(data[p + 4..p + 12]), GetTime(data[p + 12..p + 20]),
                           GetTimes(data[p + 52..p + 52 + 8 * n], n));
            && (fate == Skipped <==> Dead(e, now))
            && (fate == Skipped ==> zone.View() == old(zone.View()))
            && (fate != Skipped ==>
                  Placed(zone.View(), fate == Kept) == LoadOne(zone.policy, old(zone.View()), e, now, grants))
  {
    hide ViewOf, Ordered, Nodes, Distinct, GetTimes, UnLE, LoadOne;
    var b := GetU64(data, p + 4);
    var s := GetU64(data, p + 12);
    SameView(zone.queue);
    var blocked, seen := ToI64(b), ToI64(s);
    var key := data[p + FILE_REC_LEN..p + FILE_REC_LEN + DIGEST_LEN];
    if blocked <= now && n == 0 { return Skipped; }
    assert forall m :: m in zone.queue ==> m.events in Rings(zone.queue);
    var ok := LoadRecord(zone, key, blocked, seen, data, p + FILE_REC_LEN + DIGEST_LEN, n, now, grants);
    fate := if ok then Kept else Refused;
  }

  /** Every node of the queue was there before or is new, and so is its ring. */
  twostate predicate OnlyNewcomers(new q: seq<Node>, before: seq<Node>)
  {
    forall m :: m in q ==> m in before || (fresh(m) && fresh(m.events))
  }

  /** The walk over an admitted payload: no read leaves it, it ends on its last byte, and only a
      refused node makes it drop records. */
  method LoadRecords(zone: Zone, data: seq<byte>, records: nat, now: Clock, grants: seq<seq<bool>>)
    returns (loaded: nat, dropped: nat, ghost end: nat)
    requires zone.Valid() && DecodeAll(data, records, zone.policy.threshold).Some?
    modifies zone`queue, zone`root, zone.queue, Rings(zone.queue)
    ensures zone.Valid()
    ensures Loading(zone.View(), loaded, dropped)
         == LoadAll(zone.policy, old(zone.View()), DecodeAll(data, records, zone.policy.threshold).value,
                    now, grants, 0)
    ensures end <= |data| && (dropped == 0 ==> end == |data|)
  {
    hide DecodeAll, LoadOne, GetTimes, GetTime, Zone.View, Zone.Valid, Dead;
    ghost var es := DecodeAll(data, records, zone.policy.threshold).value;
    ghost var rest := es;
    var p: nat, left := 0, grants;
    loaded, dropped := 0, 0;
    assert data[0..] == data;
    EncodeDecodeAll(data, records, zone.policy.threshold);
    for i := 0 to records
      invariant zone.Valid() && OnlyNewcomers(zone.queue, old(zone.queue))
      invariant p <= |data| && |rest| == records - i && dropped == 0
      invariant DecodeAll(data[p..], records - i, zone.policy.threshold) == Some(rest)
      invariant LoadAll(zone.policy, zone.View(), rest, now, left, loaded)
             == LoadAll(zone.policy, old(zone.View()), es, now, grants, 0)
    {
      NextRecord(data, p, records - i, zone.policy.threshold, rest);
      if |data| - p < FILE_REC_LEN { assert false; break; }
      var n := GetU16(data, p + 2);
      if GetU16(data, p) != DIGEST_LEN || n > zone.policy.threshold || |data| - p < RecLen(DIGEST_LEN, n) {
        assert false;
        break;
      }
      forall o | o in Rings(zone.queue) ensures o in old(Rings(zone.queue)) || fresh(o) {
        var m :| m in zone.queue && m.events == o;
      }
      assert forall j :: 0 <= j < |zone.queue| ==>
        zone.queue[j] in zone.queue && (zone.queue[j] in old(zone.queue) || fresh(zone.queue[j]));
      var fate := LoadNext(zone, data, p, n, now, GrantsOf(left));
      if fate == Refused {
        dropped, end := records - i, p;
        return;
      }
      rest, left := rest[1..], GrantsAfter(left);
      p := p + RecLen(DIGEST_LEN, n);
      loaded := if fate == Kept then loaded + 1 else loaded;
    }
    end := p;
    EncodeDecodeAll(data[p..], 0, zone.policy.threshold);
  }

  /** load() on the bytes of the file: why it was ignored if it was, and how many records the zone
      took and lost. A corrupted file is also deleted. */
  method LoadFile(zone: Zone, st: Store, file: seq<byte>, now: Clock, grants: seq<seq<bool>>)
    returns (fault: Option<Fault>, loaded: nat, dropped: nat)
    requires zone.Valid()
    modifies zone`queue, zone`root, zone.queue, Rings(zone.queue)
    ensures zone.Valid()
    ensures fault == match Screen(st, zone.policy, file)
                     case Rejected(why) => Some(why)
                     case Admitted(_) => None
    ensures Loading(zone.View(), loaded, dropped)
         == SnapshotModel.Load(st, zone.policy, old(zone.View()), file, now, grants)
  {
    hide DecodeAll, LoadAll, ViewOf, Ordered, Nodes, Distinct;
    fault, loaded, dropped := None, 0, 0;
    if |file| < FILE_HDR_LEN + st.MacLen() || |file| > st.size + st.MacLen() {
      fault := Some(InvalidSize);
      return;
    }
    var end := |file| - st.MacLen();
    if st.secret && st.hmac(file[..end]) != file[end..] {
      fault := Some(BadMac);
      return;
    }
    if file[..8] != FILE_MAGIC || GetU32(file, 8) != FILE_VERSION || GetU32(file, 12) != zone.policy.threshold {
      fault := Some(Incompatible);
      return;
    }
    var records := GetU32(file, 16);
    var payload := file[FILE_HDR_LEN..end];
    if GetU32(file, 20) != st.crc(payload) {
      fault := Some(Corrupted);
      return;
    }
    var ok := ValidateSnapshot(payload, records, zone.policy.threshold);
    SameView(zone.queue);
    if !ok {
      fault := Some(Malformed);
      return;
    }
    ghost var last;
    loaded, dropped, last := LoadRecords(zone, payload, records, now, grants);
  }
}

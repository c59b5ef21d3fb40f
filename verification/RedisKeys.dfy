/** The two Redis keys of an identity: built in a buffer of exactly the computed size, never shared
    between identities, and always in one cluster slot. */
module RedisKeys {
  import opened ZoneModel
  import opened Codec
  import Statuses

  const LBRACE: byte := 0x7B
  const RBRACE: byte := 0x7D
  const COLON: byte := 0x3A
  /** ":events" and ":block". */
  const EVENTS_SUFFIX: seq<byte> := [0x3A, 0x65, 0x76, 0x65, 0x6E, 0x74, 0x73]
  const BLOCK_SUFFIX: seq<byte> := [0x3A, 0x62, 0x6C, 0x6F, 0x63, 0x6B]

  function KeyLen(prefixLen: nat, zoneNameLen: nat, digestLen: nat): nat
  {
    prefixLen + 1 + zoneNameLen + 1 + digestLen * 2 + 1
  }

  function HexDigit(n: nat): byte
    requires n < 16
  {
    if n < 10 then 0x30 + n else 0x61 + (n - 10)
  }

  function Hex(d: seq<byte>): (s: seq<byte>)
    ensures |s| == 2 * |d|
  {
    if d == [] then [] else [HexDigit(d[0] / 16), HexDigit(d[0] % 16)] + Hex(d[1..])
  }

  /** What stands between the braces. */
  function Tag(zoneName: seq<byte>, digest: seq<byte>): seq<byte>
  {
    zoneName + ([COLON] + Hex(digest))
  }

  function BaseKey(prefix: seq<byte>, zoneName: seq<byte>, digest: seq<byte>): (s: seq<byte>)
    ensures |s| == KeyLen(|prefix|, |zoneName|, |digest|)
  {
    prefix + ([LBRACE] + (Tag(zoneName, digest) + [RBRACE]))
  }

  // ---------------------------------------------------------------- building a key

  lemma {:induction false} HexSnoc(d: seq<byte>, i: nat)
    requires i < |d|
    ensures Hex(d[..i + 1]) == Hex(d[..i]) + [HexDigit(d[i] / 16), HexDigit(d[i] % 16)]
  {
    hide HexDigit;
    if i > 0 {
      HexSnoc(d[1..], i - 1);
      TakeTail(d, i + 1);
      TakeTail(d, i);
    } else {
      assert d[..1] == [d[0]] && Hex([d[0]]) == [HexDigit(d[0] / 16), HexDigit(d[0] % 16)] + Hex([]);
    }
  }

  method PutHex(buf: array<byte>, p: nat, d: seq<byte>) returns (q: nat)
    requires p + 2 * |d| <= buf.Length
    modifies buf
    ensures q == p + 2 * |d| && Wrote(buf[..], old(buf[..]), p, Hex(d))
  {
    hide HexDigit, Hex;
    q := p;
    ghost var before := buf[..];
    EmptyHex(before, p);
    for i := 0 to |d|
      invariant q == p + 2 * i && Wrote(buf[..], before, p, Hex(d[..i]))
    {
      HexSnoc(d, i);
      ghost var mid := buf[..];
      buf[q] := HexDigit(d[i] / 16);
      buf[q + 1] := HexDigit(d[i] % 16);
      WroteMore(buf[..], mid, before, p, Hex(d[..i]), [HexDigit(d[i] / 16), HexDigit(d[i] % 16)]);
      q := q + 2;
    }
    assert d[..|d|] == d;
  }

  lemma EmptyHex(buf: seq<byte>, p: nat)
    requires p <= |buf|
    ensures Hex([]) == [] && Wrote(buf, buf, p, [])
  {
  }

  lemma BaseKeyIs(prefix: seq<byte>, zoneName: seq<byte>, digest: seq<byte>)
    ensures prefix + [LBRACE] + zoneName + [COLON] + Hex(digest) + [RBRACE]
         == BaseKey(prefix, zoneName, digest)
  {
    hide Hex;
  }

  /** ngx_cpymem behind what an earlier write left at start. */
  method Extend(buf: array<byte>, ghost before: seq<byte>, ghost start: nat, ghost written: seq<byte>,
                p: nat, src: seq<byte>) returns (q: nat)
    requires p == start + |written| && p + |src| <= buf.Length && Wrote(buf[..], before, start, written)
    modifies buf
    ensures q == p + |src| && Wrote(buf[..], before, start, written + src)
  {
    hide Wrote;
    ghost var mid := buf[..];
    q := PutBytes(buf, p, src);
    WroteMore(buf[..], mid, before, start, written, src);
  }

  /** redis_key_write() fills exactly the redis_key_len() bytes at p with the key and nothing else. */
  method KeyWrite(buf: array<byte>, p: nat, prefix: seq<byte>, zoneName: seq<byte>, digest: seq<byte>)
    returns (q: nat)
    requires p + KeyLen(|prefix|, |zoneName|, |digest|) <= buf.Length
    modifies buf
    ensures q == p + KeyLen(|prefix|, |zoneName|, |digest|)
    ensures Wrote(buf[..], old(buf[..]), p, BaseKey(prefix, zoneName, digest))
  {
    hide Wrote, Hex, BaseKey;
    ghost var before := buf[..];
    q := PutBytes(buf, p, prefix);
    q := Extend(buf, before, p, prefix, q, [LBRACE]);
    ghost var braced := prefix + [LBRACE];
    q := Extend(buf, before, p, braced, q, zoneName);
    ghost var named := braced + zoneName;
    q := Extend(buf, before, p, named, q, [COLON]);
    ghost var tagged := named + [COLON];
    ghost var mid := buf[..];
    q := PutHex(buf, q, digest);
    WroteMore(buf[..], mid, before, p, tagged, Hex(digest));
    ghost var hexed := tagged + Hex(digest);
    q := Extend(buf, before, p, hexed, q, [RBRACE]);
    BaseKeyIs(prefix, zoneName, digest);
  }

  lemma WroteWhole(buf: seq<byte>, before: seq<byte>, s: seq<byte>)
    requires |s| == |buf| && Wrote(buf, before, 0, s)
    ensures buf == s
  {
    assert buf[..|s|] == buf;
  }

  /** redis_keys(): both keys, each filling a buffer of its own. */
  method RedisKeysOf(prefix: seq<byte>, zoneName: seq<byte>, digest: seq<byte>)
    returns (events: array<byte>, block: array<byte>)
    ensures fresh(events) && events[..] == EventsKey(prefix, zoneName, digest)
    ensures fresh(block) && block[..] == BlockKey(prefix, zoneName, digest)
  {
    hide BaseKey, Wrote;
    ghost var base := BaseKey(prefix, zoneName, digest);
    var len := KeyLen(|prefix|, |zoneName|, |digest|);
    events := new byte[len + |EVENTS_SUFFIX|](_ => 0);
    block := new byte[len + |BLOCK_SUFFIX|](_ => 0);
    ghost var before := events[..];
    var p := KeyWrite(events, 0, prefix, zoneName, digest);
    p := Extend(events, before, 0, base, p, EVENTS_SUFFIX);
    WroteWhole(events[..], before, base + EVENTS_SUFFIX);
    before := block[..];
    p := PutBytes(block, 0, events[..len]);
    assert events[..len] == base;
    p := Extend(block, before, 0, base, p, BLOCK_SUFFIX);
    WroteWhole(block[..], before, base + BLOCK_SUFFIX);
  }

  function EventsKey(prefix: seq<byte>, zoneName: seq<byte>, digest: seq<byte>): seq<byte>
  {
    BaseKey(prefix, zoneName, digest) + EVENTS_SUFFIX
  }

  function BlockKey(prefix: seq<byte>, zoneName: seq<byte>, digest: seq<byte>): seq<byte>
  {
    BaseKey(prefix, zoneName, digest) + BLOCK_SUFFIX
  }

  /** "prefix{zone:hex}:events" and "prefix{zone:hex}:block". */
  lemma KeysAreSpelled(prefix: seq<byte>, zoneName: seq<byte>, digest: seq<byte>)
    ensures var base := prefix + [0x7B] + zoneName + [0x3A] + Hex(digest) + [0x7D];
            && EventsKey(prefix, zoneName, digest) == base + [0x3A, 0x65, 0x76, 0x65, 0x6E, 0x74, 0x73]
            && BlockKey(prefix, zoneName, digest) == base + [0x3A, 0x62, 0x6C, 0x6F, 0x63, 0x6B]
  {
    hide Hex;
    BaseKeyIs(prefix, zoneName, digest);
  }

  // ---------------------------------------------------------------- no two identities share a key

  lemma HexDigitInjective(m: nat, n: nat)
    requires m < 16 && n < 16 && HexDigit(m) == HexDigit(n)
    ensures m == n
  {
  }

  lemma {:induction false} HexInjective(c: seq<byte>, d: seq<byte>)
    requires Hex(c) == Hex(d)
    ensures c == d
  {
    hide HexDigit;
    assert |c| == |d|;
    if c != [] {
      var x, y := Hex(c), Hex(d);
      assert x[0] == y[0] && x[1] == y[1] && x[2..] == Hex(c[1..]) && y[2..] == Hex(d[1..]);
      HexDigitInjective(c[0] / 16, d[0] / 16);
      HexDigitInjective(c[0] % 16, d[0] % 16);
      assert c[0] == d[0];
      HexInjective(c[1..], d[1..]);
      assert c == [c[0]] + c[1..] && d == [d[0]] + d[1..];
    }
  }

  /** The value of a base-16 digit. */
  function DigitValue(c: byte): int
  {
    if 0x30 <= c <= 0x39 then c - 0x30 else if 0x61 <= c <= 0x66 then c - 0x61 + 10 else -1
  }

  /** Each byte of the digest is written as its two-digit lower-case base-16 number. */
  lemma {:induction false} HexReadsBack(d: seq<byte>, i: nat)
    requires i < |d|
    ensures var h, l := DigitValue(Hex(d)[2 * i]), DigitValue(Hex(d)[2 * i + 1]);
            h >= 0 && l >= 0 && 16 * h + l == d[i]
  {
    if i > 0 {
      HexReadsBack(d[1..], i - 1);
      assert Hex(d)[2..] == Hex(d[1..]);
    }
  }

  lemma TagInjective(y: seq<byte>, c: seq<byte>, z: seq<byte>, d: seq<byte>)
    requires |c| == |d| && Tag(y, c) == Tag(z, d)
    ensures y == z && c == d
  {
    hide Hex;
    var s := Tag(y, c);
    assert |y| == |z|;
    assert s[..|y|] == y && s[..|z|] == z;
    assert s[|y| + 1..] == Hex(c) && s[|z| + 1..] == Hex(d);
    HexInjective(c, d);
  }

  lemma BaseInjective(prefix: seq<byte>, y: seq<byte>, c: seq<byte>, z: seq<byte>, d: seq<byte>)
    requires |c| == |d| && BaseKey(prefix, y, c) == BaseKey(prefix, z, d)
    ensures y == z && c == d
  {
    hide Tag;
    var s := BaseKey(prefix, y, c);
    assert s[|prefix| + 1..|s| - 1] == Tag(y, c);
    assert s[|prefix| + 1..|s| - 1] == Tag(z, d);
    TagInjective(y, c, z, d);
  }

  /** Under one prefix, different (zone, digest) pairs never share a key of either kind, and no
      events key is a block key. */
  lemma KeysNeverClash(prefix: seq<byte>, y: seq<byte>, c: seq<byte>, z: seq<byte>, d: seq<byte>)
    requires |c| == |d|
    ensures EventsKey(prefix, y, c) == EventsKey(prefix, z, d) <==> y == z && c == d
    ensures BlockKey(prefix, y, c) == BlockKey(prefix, z, d) <==> y == z && c == d
    ensures EventsKey(prefix, y, c) != BlockKey(prefix, z, d)
  {
    hide BaseKey;
    var a, b := BaseKey(prefix, y, c), BaseKey(prefix, z, d);
    var e, f := EventsKey(prefix, y, c), BlockKey(prefix, z, d);
    assert e[|e| - 1] == 0x73 && f[|f| - 1] == 0x6B;
    if a + EVENTS_SUFFIX == b + EVENTS_SUFFIX || a + BLOCK_SUFFIX == b + BLOCK_SUFFIX {
      assert |a| == |b|;
      assert (a + EVENTS_SUFFIX)[..|a|] == a && (b + EVENTS_SUFFIX)[..|b|] == b;
      assert (a + BLOCK_SUFFIX)[..|a|] == a && (b + BLOCK_SUFFIX)[..|b|] == b;
      BaseInjective(prefix, y, c, z, d);
    }
  }

  // ---------------------------------------------------------------- one cluster slot

  /** What Redis Cluster hashes: the text between the first '{' and the first '}' behind it if that
      is not empty, else the whole key (Redis Cluster specification, "Hash tags"). */
  function HashTag(key: seq<byte>): seq<byte>
  {
    var i := Statuses.Strlchr(key, LBRACE);
    if i == |key| then key
    else
      var j := Statuses.Strlchr(key[i + 1..], RBRACE);
      if j == |key| - i - 1 || j == 0 then key else key[i + 1..][..j]
  }

  lemma {:induction false} HexHasNoBrace(d: seq<byte>)
    ensures LBRACE !in Hex(d) && RBRACE !in Hex(d)
  {
    if d != [] { HexHasNoBrace(d[1..]); }
  }

  lemma TagOfKey(prefix: seq<byte>, zoneName: seq<byte>, digest: seq<byte>, suffix: seq<byte>)
    requires LBRACE !in prefix && RBRACE !in zoneName
    ensures HashTag(BaseKey(prefix, zoneName, digest) + suffix) == Tag(zoneName, digest)
  {
    hide Hex, Statuses.Strlchr;
    var t := Tag(zoneName, digest);
    var key := BaseKey(prefix, zoneName, digest) + suffix;
    var behind := t + ([RBRACE] + suffix);
    assert key == prefix + ([LBRACE] + behind);
    Statuses.StrlchrAt(prefix, LBRACE, behind);
    HexHasNoBrace(digest);
    assert RBRACE !in t;
    Statuses.StrlchrAt(t, RBRACE, suffix);
    assert key[|prefix| + 1..] == behind && behind[..|t|] == t;
  }

  /** Since neither prefix nor zone name may contain braces, both keys of an identity hash by the
      same tag, its zone and digest. */
  lemma OneSlotPerIdentity(prefix: seq<byte>, zoneName: seq<byte>, digest: seq<byte>)
    requires LBRACE !in prefix && RBRACE !in zoneName
    ensures HashTag(EventsKey(prefix, zoneName, digest)) == HashTag(BlockKey(prefix, zoneName, digest))
         == Tag(zoneName, digest)
  {
    TagOfKey(prefix, zoneName, digest, EVENTS_SUFFIX);
    TagOfKey(prefix, zoneName, digest, BLOCK_SUFFIX);
  }
}

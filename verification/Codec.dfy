/** The little-endian field codecs of scan.c. Bytes are numbers below 256; a shift by 8 * i bits is
    division or multiplication by 256 ^ i, and or-ing disjoint bit ranges is addition. */
module Codec {
  import opened ZoneModel

  /** The n low-order bytes of v, least significant first. */
  function LE(v: nat, n: nat): (s: seq<byte>)
    ensures |s| == n
  {
    if n == 0 then [] else [v % 256] + LE(v / 256, n - 1)
  }

  function UnLE(s: seq<byte>): nat
  {
    if s == [] then 0 else s[0] + 256 * UnLE(s[1..])
  }

  function Pow256(n: nat): (r: nat)
    ensures r > 0
  {
    if n == 0 then 1 else 256 * Pow256(n - 1)
  }

  /** v >> 8 * i. */
  function Shr(v: nat, i: nat): nat
    decreases i
  {
    if i == 0 then v else Shr(v / 256, i - 1)
  }

  lemma {:induction false} ReadBack(v: nat, n: nat)
    requires v < Pow256(n)
    ensures UnLE(LE(v, n)) == v
  {
    if n > 0 {
      ReadBack(v / 256, n - 1);
      assert LE(v, n)[1..] == LE(v / 256, n - 1);
    }
  }

  lemma {:induction false} WriteBack(s: seq<byte>)
    ensures UnLE(s) < Pow256(|s|) && LE(UnLE(s), |s|) == s
  {
    if s != [] {
      WriteBack(s[1..]);
      LowByte(s[0], UnLE(s[1..]));
    }
  }

  lemma LowByte(b: byte, rest: nat)
    ensures (b + 256 * rest) % 256 == b && (b + 256 * rest) / 256 == rest
  {
  }

  lemma {:induction false} ByteOfLE(v: nat, n: nat, i: nat)
    requires i < n
    ensures LE(v, n)[i] == Shr(v, i) % 256
  {
    if i > 0 { ByteOfLE(v / 256, n - 1, i - 1); }
  }

  lemma {:induction false} UnLEAppend(s: seq<byte>, b: byte)
    ensures UnLE(s + [b]) == UnLE(s) + b * Pow256(|s|)
  {
    if s == [] {
      assert s + [b] == [b];
    } else {
      UnLEAppend(s[1..], b);
      assert (s + [b])[1..] == s[1..] + [b];
      assert Pow256(|s|) == 256 * Pow256(|s| - 1);
      assert 256 * (b * Pow256(|s| - 1)) == b * Pow256(|s|);
    }
  }

  lemma Widths()
    ensures Pow256(2) == 0x1_0000 && Pow256(4) == 0x1_0000_0000 && Pow256(8) == 0x1_0000_0000_0000_0000
  {
    assert Pow256(1) == 256 * Pow256(0);
    assert Pow256(2) == 256 * Pow256(1);
    assert Pow256(3) == 256 * Pow256(2);
    assert Pow256(4) == 256 * Pow256(3);
    assert Pow256(5) == 256 * Pow256(4);
    assert Pow256(6) == 256 * Pow256(5);
    assert Pow256(7) == 256 * Pow256(6);
    assert Pow256(8) == 256 * Pow256(7);
  }

  // ---------------------------------------------------------------- signed times

  predicate IsI64(v: int)
  {
    -0x8000_0000_0000_0000 <= v < 0x8000_0000_0000_0000
  }

  /** (uint64_t) v. */
  function ToU64(v: int): nat
  {
    v % 0x1_0000_0000_0000_0000
  }

  /** (int64_t) u. */
  function ToI64(u: nat): int
  {
    if u < 0x8000_0000_0000_0000 then u else u - 0x1_0000_0000_0000_0000
  }

  function PutTime(v: int): (s: seq<byte>)
    ensures |s| == 8
  {
    LE(ToU64(v), 8)
  }

  function GetTime(s: seq<byte>): int
    requires |s| == 8
  {
    ToI64(UnLE(s))
  }

  lemma U64Cast(v: int)
    requires IsI64(v)
    ensures ToU64(v) < 0x1_0000_0000_0000_0000 && ToI64(ToU64(v)) == v
  {
    if v < 0 { assert v % 0x1_0000_0000_0000_0000 == v + 0x1_0000_0000_0000_0000; }
  }

  lemma I64Cast(u: nat)
    requires u < 0x1_0000_0000_0000_0000
    ensures IsI64(ToI64(u)) && ToU64(ToI64(u)) == u
  {
    if u >= 0x8000_0000_0000_0000 {
      assert (u - 0x1_0000_0000_0000_0000) % 0x1_0000_0000_0000_0000 == u;
    }
  }

  lemma TimeReadsBack(v: int)
    requires IsI64(v)
    ensures GetTime(PutTime(v)) == v
  {
    U64Cast(v);
    assert ToU64(v) < Pow256(8) by { Widths(); }
    ReadBack(ToU64(v), 8);
  }

  lemma TimeWritesBack(s: seq<byte>)
    requires |s| == 8
    ensures IsI64(GetTime(s)) && PutTime(GetTime(s)) == s
  {
    var u := UnLE(s);
    WriteBack(s);
    assert u < 0x1_0000_0000_0000_0000 by { Widths(); }
    I64Cast(u);
  }

  // ---------------------------------------------------------------- the codecs in place

  /** The buffer is as before, but with s at offset p. */
  ghost predicate Wrote(buf: seq<byte>, before: seq<byte>, p: nat, s: seq<byte>)
  {
    && |buf| == |before| && p + |s| <= |buf|
    && buf[..p + |s|] == before[..p] + s
    && buf[p + |s|..] == before[p + |s|..]
  }

  lemma WroteMore(buf: seq<byte>, mid: seq<byte>, before: seq<byte>, p: nat, s: seq<byte>, t: seq<byte>)
    requires Wrote(mid, before, p, s) && Wrote(buf, mid, p + |s|, t)
    ensures Wrote(buf, before, p, s + t)
  {
    var q := p + |s| + |t|;
    assert buf[q..] == mid[p + |s|..][|t|..] == before[p + |s|..][|t|..] == before[q..];
    assert buf[..q] == before[..p] + s + t;
  }

  lemma WroteSlice(buf: seq<byte>, before: seq<byte>, p: nat, s: seq<byte>, from: nat)
    requires Wrote(buf, before, p, s)
    ensures buf[p..p + |s|] == s && buf[..p] == before[..p]
    ensures from <= p ==> buf[from..p + |s|] == before[from..p] + s
  {
    assert buf[..p] == buf[..p + |s|][..p];
    assert buf[p..p + |s|] == buf[..p + |s|][p..];
    if from <= p { assert buf[from..p + |s|] == buf[..p + |s|][from..]; }
  }

  /** ngx_cpymem. */
  method PutBytes(buf: array<byte>, p: nat, s: seq<byte>) returns (q: nat)
    requires p + |s| <= buf.Length
    modifies buf
    ensures q == p + |s| && Wrote(buf[..], old(buf[..]), p, s)
  {
    for i := 0 to |s|
      invariant buf[..p] == old(buf[..p]) && buf[p..p + i] == s[..i]
      invariant buf[p + |s|..] == old(buf[p + |s|..])
    {
      buf[p + i] := s[i];
      assert buf[p..p + i + 1] == buf[p..p + i] + [s[i]];
    }
    assert buf[..p + |s|] == buf[..p] + buf[p..p + |s|];
    q := p + |s|;
  }

  method PutU16(buf: array<byte>, p: nat, v: nat) returns (q: nat)
    requires p + 2 <= buf.Length
    modifies buf
    ensures q == p + 2 && Wrote(buf[..], old(buf[..]), p, LE(v, 2))
  {
    buf[p] := v % 256;
    buf[p + 1] := v / 256 % 256;
    assert LE(v, 2) == [v % 256, v / 256 % 256] by { ByteOfLE(v, 2, 0); ByteOfLE(v, 2, 1); }
    q := p + 2;
  }

  method PutU32(buf: array<byte>, p: nat, v: nat) returns (q: nat)
    requires p + 4 <= buf.Length
    modifies buf
    ensures q == p + 4 && Wrote(buf[..], old(buf[..]), p, LE(v, 4))
  {
    buf[p] := v % 256;
    buf[p + 1] := Shr(v, 1) % 256;
    buf[p + 2] := Shr(v, 2) % 256;
    buf[p + 3] := Shr(v, 3) % 256;
    ByteOfLE(v, 4, 0); ByteOfLE(v, 4, 1); ByteOfLE(v, 4, 2); ByteOfLE(v, 4, 3);
    q := p + 4;
  }

  method PutU64(buf: array<byte>, p: nat, v: nat) returns (q: nat)
    requires p + 8 <= buf.Length
    modifies buf
    ensures q == p + 8 && Wrote(buf[..], old(buf[..]), p, LE(v, 8))
  {
    for i := 0 to 8
      invariant buf[..p] == old(buf[..p]) && buf[p + 8..] == old(buf[p + 8..])
      invariant buf[p..p + i] == LE(v, 8)[..i]
    {
      ByteOfLE(v, 8, i);
      buf[p + i] := Shr(v, i) % 256;
      assert buf[p..p + i + 1] == buf[p..p + i] + [buf[p + i]];
    }
    assert buf[..p + 8] == buf[..p] + buf[p..p + 8];
    q := p + 8;
  }

  method GetU64(s: seq<byte>, p: nat) returns (v: nat)
    requires p + 8 <= |s|
    ensures v == UnLE(s[p..p + 8])
  {
    v := 0;
    for i := 0 to 8
      invariant v == UnLE(s[p..p + i])
    {
      UnLEAppend(s[p..p + i], s[p + i]);
      assert s[p..p + i + 1] == s[p..p + i] + [s[p + i]];
      v := v + s[p + i] * Pow256(i);
    }
  }

  function GetU16(s: seq<byte>, p: nat): nat
    requires p + 2 <= |s|
  {
    s[p] as int + s[p + 1] as int * 256
  }

  function GetU32(s: seq<byte>, p: nat): nat
    requires p + 4 <= |s|
  {
    s[p] as int + s[p + 1] as int * 0x100 + s[p + 2] as int * 0x1_0000 + s[p + 3] as int * 0x100_0000
  }

  lemma GetU16IsLE(s: seq<byte>, p: nat)
    requires p + 2 <= |s|
    ensures GetU16(s, p) == UnLE(s[p..p + 2])
  {
    UnLEOf2(s[p..p + 2]);
  }

  lemma UnLEOf2(s: seq<byte>)
    requires |s| == 2
    ensures UnLE(s) == s[0] as int + 256 * s[1] as int
  {
    assert UnLE(s[1..]) == s[1] + 256 * UnLE(s[1..][1..]);
  }

  lemma GetU32IsLE(s: seq<byte>, p: nat)
    requires p + 4 <= |s|
    ensures GetU32(s, p) == UnLE(s[p..p + 4])
  {
    var w := s[p..p + 4];
    UnLEOf2(w[2..]);
    assert w[2..] == w[1..][1..];
    assert UnLE(w[1..]) == w[1] + 256 * UnLE(w[2..]);
  }
}

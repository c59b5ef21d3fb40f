/** The status list of a zone: a text of codes and ranges parsed into a bitmap. */
module Statuses {
  import opened ZoneModel

  const MAX_STATUS := 599
  const STATUS_BYTES := 75
  const COMMA: byte := 0x2C
  const DASH: byte := 0x2D
  const ZERO: byte := 0x30
  const MAX_INT: int := 0x7FFF_FFFF_FFFF_FFFF

  datatype Rc = Ok | EmptyElement | TrailingComma | Range

  // ---------------------------------------------------------------- the bitmap

  /** 1 << k as a byte. */
  function Mask(k: nat): bv8
    requires k < 8
  {
    if k == 0 then 1 else if k == 1 then 2 else if k == 2 then 4 else if k == 3 then 8
    else if k == 4 then 16 else if k == 5 then 32 else if k == 6 then 64 else 128
  }

  predicate BitSet(bits: seq<bv8>, status: nat)
    requires |bits| == STATUS_BYTES && status <= MAX_STATUS
  {
    bits[status / 8] & Mask(status % 8) != 0
  }

  /** status_matches(). */
  predicate StatusMatches(bits: seq<bv8>, status: nat)
    requires |bits| == STATUS_BYTES
  {
    status <= MAX_STATUS && BitSet(bits, status)
  }

  lemma MaskBits(b: bv8, j: nat, k: nat)
    requires j < 8 && k < 8
    ensures (b | Mask(j)) & Mask(k) != 0 <==> j == k || b & Mask(k) != 0
  {
  }

  lemma SetOneBit(bits: seq<bv8>, status: nat, other: nat)
    requires |bits| == STATUS_BYTES && status <= MAX_STATUS && other <= MAX_STATUS
    ensures BitSet(bits[status / 8 := bits[status / 8] | Mask(status % 8)], other)
       <==> other == status || BitSet(bits, other)
  {
    hide Mask;
    MaskBits(bits[status / 8], status % 8, other % 8);
  }

  // ---------------------------------------------------------------- nginx string helpers

  /** ngx_strlchr: the first c of s, or |s|. */
  function Strlchr(s: seq<byte>, c: byte): (i: nat)
    ensures i <= |s| && (i < |s| ==> s[i] == c) && forall j :: 0 <= j < i ==> s[j] != c
  {
    if s == [] || s[0] == c then 0 else 1 + Strlchr(s[1..], c)
  }

  /** The decimal value of s, or -1 for a non-digit or an overflow. */
  function Decimal(s: seq<byte>): int
  {
    if s == [] then 0
    else
      var v, c := Decimal(s[..|s| - 1]), s[|s| - 1];
      if v < 0 || !(ZERO <= c < ZERO + 10) || v * 10 + (c - ZERO) > MAX_INT then -1
      else v * 10 + (c - ZERO)
  }

  /** ngx_atoi: -1 is NGX_ERROR. */
  function Atoi(s: seq<byte>): int
  {
    if s == [] then -1 else Decimal(s)
  }

  // ---------------------------------------------------------------- what a list means

  /** The texts between the commas. */
  function Split(s: seq<byte>): (es: seq<seq<byte>>)
    ensures es != []
    decreases |s|
  {
    var i := Strlchr(s, COMMA);
    if i == |s| then [s] else [s[..i]] + Split(s[i + 1..])
  }

  datatype Span = Span(first: int, final: int)
  {
    predicate Proper()
    {
      100 <= first <= final <= MAX_STATUS
    }

    predicate Has(c: int)
    {
      first <= c <= final
    }
  }

  /** The two numbers of an element. */
  function SpanOf(e: seq<byte>): Span
  {
    var d := Strlchr(e, DASH);
    if d == |e| then Span(Atoi(e), Atoi(e)) else Span(Atoi(e[..d]), Atoi(e[d + 1..]))
  }

  predicate WellFormed(e: seq<byte>)
  {
    e != [] && SpanOf(e).Proper()
  }

  /** Position of the first malformed element, or how many there are. */
  function FirstBad(es: seq<seq<byte>>): (k: nat)
    ensures k <= |es| && (k < |es| ==> !WellFormed(es[k])) && forall j :: 0 <= j < k ==> WellFormed(es[j])
  {
    if es == [] || !WellFormed(es[0]) then 0 else 1 + FirstBad(es[1..])
  }

  /** What is wrong with the elements, told from the first malformed one; an empty last element
      behind others is the trailing comma. */
  function Complaint(es: seq<seq<byte>>): Rc
  {
    var k := FirstBad(es);
    if k == |es| then Ok
    else if es[k] != [] then Range
    else if 0 < k && k == |es| - 1 then TrailingComma
    else EmptyElement
  }

  function ParseResult(s: seq<byte>): Rc
  {
    if s == [] then Ok else Complaint(Split(s))
  }

  /** Some element before the first malformed one covers c. */
  ghost predicate Covered(es: seq<seq<byte>>, c: int)
  {
    exists j :: 0 <= j < FirstBad(es) && SpanOf(es[j]).Has(c)
  }

  ghost predicate Listed(s: seq<byte>, c: int)
  {
    s != [] && Covered(Split(s), c)
  }

  /** A list is accepted iff it is empty or all of its elements are codes or ranges within 100..599. */
  lemma AcceptedIff(s: seq<byte>)
    ensures ParseResult(s) == Ok <==> s == [] || forall e :: e in Split(s) ==> WellFormed(e)
  {
    var es := Split(s);
    var k := FirstBad(es);
    if k < |es| { assert es[k] in es; }
  }

  lemma CoveredCons(e: seq<byte>, tail: seq<seq<byte>>, c: int)
    requires WellFormed(e)
    ensures FirstBad([e] + tail) == 1 + FirstBad(tail)
    ensures Covered([e] + tail, c) <==> SpanOf(e).Has(c) || Covered(tail, c)
  {
    hide WellFormed, SpanOf, Span.Has;
    var es := [e] + tail;
    assert es[1..] == tail && es[0] == e;
    if Covered(tail, c) {
      var j :| 0 <= j < FirstBad(tail) && SpanOf(tail[j]).Has(c);
      assert es[j + 1] == tail[j];
    }
    if Covered(es, c) {
      var j :| 0 <= j < FirstBad(es) && SpanOf(es[j]).Has(c);
      if j > 0 { assert tail[j - 1] == es[j]; }
    }
  }

  lemma ComplaintCons(e: seq<byte>, tail: seq<seq<byte>>)
    requires WellFormed(e)
    ensures Complaint([e] + tail) == if |tail| == 1 && tail[0] == [] then TrailingComma else Complaint(tail)
  {
    hide SpanOf;
    CoveredCons(e, tail, 0);
    var k := FirstBad(tail);
    if k < |tail| { assert ([e] + tail)[k + 1] == tail[k]; }
  }

  lemma OneElement(s: seq<byte>)
    requires Strlchr(s, COMMA) == |s|
    ensures Split(s) == [s] && [s] == [s] + []
  {
  }

  lemma FirstElement(s: seq<byte>)
    requires Strlchr(s, COMMA) < |s|
    ensures var i := Strlchr(s, COMMA); Split(s) == [s[..i]] + Split(s[i + 1..])
  {
    hide Strlchr;
    var i := Strlchr(s, COMMA);
    assert i != |s|;
    assert Split(s) == [s[..i]] + Split(s[i + 1..]);
  }

  /** What the loop knows after an element that is neither empty nor out of range. */
  lemma AfterElement(s: seq<byte>, c: int)
    requires s != [] && WellFormed(s[..Strlchr(s, COMMA)])
    ensures var i := Strlchr(s, COMMA);
            if i == |s| then ParseResult(s) == Ok && (Listed(s, c) <==> SpanOf(s[..i]).Has(c))
            else if i == |s| - 1 then
              ParseResult(s) == TrailingComma && (Listed(s, c) <==> SpanOf(s[..i]).Has(c))
            else ParseResult(s) == ParseResult(s[i + 1..])
                 && (Listed(s, c) <==> SpanOf(s[..i]).Has(c) || Listed(s[i + 1..], c))
  {
    hide WellFormed, SpanOf, Covered, Complaint, FirstBad, Split, Strlchr, Span.Has;
    var i := Strlchr(s, COMMA);
    Nothing(c);
    if i == |s| {
      assert s[..i] == s;
      OneElement(s);
      CoveredCons(s, [], c);
      ComplaintCons(s, []);
    } else {
      var rest := s[i + 1..];
      FirstElement(s);
      CoveredCons(s[..i], Split(rest), c);
      ComplaintCons(s[..i], Split(rest));
      SplitBlank(rest);
    }
  }

  lemma Nothing(c: int)
    ensures !Covered([], c) && !Covered([[]], c) && Complaint([]) == Ok
  {
  }

  lemma SplitBlank(s: seq<byte>)
    ensures s == [] <==> |Split(s)| == 1 && Split(s)[0] == []
    ensures s == [] ==> Split(s) == [[]]
  {
  }

  /** What the loop knows at a malformed element. */
  lemma BadElement(s: seq<byte>, c: int)
    requires s != [] && !WellFormed(s[..Strlchr(s, COMMA)])
    ensures !Listed(s, c) && ParseResult(s) == if Strlchr(s, COMMA) == 0 then EmptyElement else Range
  {
    var es := Split(s);
    assert es[0] == s[..Strlchr(s, COMMA)];
    assert FirstBad(es) == 0;
  }

  // ---------------------------------------------------------------- the parser

  /** The inner loop: set the bits of one span. */
  method MarkSpan(bitmap: array<bv8>, span: Span)
    requires bitmap.Length == STATUS_BYTES && span.Proper()
    modifies bitmap
    ensures forall c: nat :: c <= MAX_STATUS ==>
              (BitSet(bitmap[..], c) <==> BitSet(old(bitmap[..]), c) || span.Has(c))
  {
    hide BitSet;
    for status := span.first to span.final + 1
      invariant forall c: nat :: c <= MAX_STATUS ==>
                  (BitSet(bitmap[..], c) <==> BitSet(old(bitmap[..]), c) || span.first <= c < status)
    {
      ghost var bits := bitmap[..];
      bitmap[status / 8] := bitmap[status / 8] | Mask(status % 8);
      assert bitmap[..] == bits[status / 8 := bits[status / 8] | Mask(status % 8)];
      forall c: nat | c <= MAX_STATUS ensures BitSet(bitmap[..], c) <==> c == status || BitSet(bits, c) {
        SetOneBit(bits, status, c);
      }
    }
  }

  /** Parse a list into the bitmap. Bits are only ever added: those of every element in front of the
      first malformed one, hence on Ok those of the whole list. */
  method ParseStatuses(data: seq<byte>, bitmap: array<bv8>) returns (rc: Rc)
    requires bitmap.Length == STATUS_BYTES
    modifies bitmap
    ensures rc == ParseResult(data)
    ensures forall c: nat :: c <= MAX_STATUS ==>
              (BitSet(bitmap[..], c) <==> BitSet(old(bitmap[..]), c) || Listed(data, c))
  {
    hide ParseResult, Listed, BitSet, SpanOf;
    var p := 0;
    ghost var before := bitmap[..];
    assert data[0..] == data;
    while p < |data|
      invariant p <= |data| && ParseResult(data) == ParseResult(data[p..])
      invariant forall c: nat :: c <= MAX_STATUS ==>
                  (BitSet(before, c) || Listed(data, c) <==> BitSet(bitmap[..], c) || Listed(data[p..], c))
      decreases |data| - p
    {
      ghost var rest, bits := data[p..], bitmap[..];
      var end := p + Strlchr(data[p..], COMMA);
      assert data[p..end] == rest[..end - p];
      if end == p {
        forall c ensures !Listed(rest, c) { BadElement(rest, c); }
        BadElement(rest, 0);
        return EmptyElement;
      }
      var span := SpanOf(data[p..end]);
      if span.first < 100 || span.final < span.first || span.final > MAX_STATUS {
        forall c ensures !Listed(rest, c) { BadElement(rest, c); }
        BadElement(rest, 0);
        return Range;
      }
      MarkSpan(bitmap, span);
      AfterElement(rest, 0);
      if end == |data| {
        forall c ensures Listed(rest, c) <==> span.Has(c) { AfterElement(rest, c); }
        return Ok;
      }
      assert rest[end - p + 1..] == data[end + 1..];
      if end + 1 == |data| {
        forall c ensures Listed(rest, c) <==> span.Has(c) { AfterElement(rest, c); }
        return TrailingComma;
      }
      forall c ensures Listed(rest, c) <==> span.Has(c) || Listed(data[end + 1..], c) { AfterElement(rest, c); }
      p := end + 1;
    }
    assert data[p..] == [];
    EmptyList();
    rc := Ok;
  }

  lemma EmptyList()
    ensures ParseResult([]) == Ok && forall c :: !Listed([], c)
  {
  }

  // ---------------------------------------------------------------- printing a list

  function PrintCode(n: nat): (s: seq<byte>)
    requires 100 <= n <= MAX_STATUS
    ensures |s| == 3 && forall b :: b in s ==> ZERO <= b < ZERO + 10
  {
    [ZERO + n / 100, ZERO + n / 10 % 10, ZERO + n % 10]
  }

  function PrintSpan(sp: Span): seq<byte>
    requires sp.Proper()
  {
    if sp.first == sp.final then PrintCode(sp.first)
    else PrintCode(sp.first) + [DASH] + PrintCode(sp.final)
  }

  function PrintList(spans: seq<Span>): seq<byte>
    requires forall sp :: sp in spans ==> sp.Proper()
  {
    if spans == [] then []
    else if |spans| == 1 then PrintSpan(spans[0])
    else PrintSpan(spans[0]) + ([COMMA] + PrintList(spans[1..]))
  }

  lemma CodeReadsBack(n: nat)
    requires 100 <= n <= MAX_STATUS
    ensures Atoi(PrintCode(n)) == n
  {
    var s := PrintCode(n);
    assert s[..2] == [s[0], s[1]] && s[..2][..1] == [s[0]] && [s[0]][..0] == [];
    assert Decimal([s[0]]) == n / 100;
    assert Decimal(s[..2]) == n / 10;
  }

  lemma {:induction false} StrlchrAt(a: seq<byte>, c: byte, b: seq<byte>)
    requires c !in a
    ensures Strlchr(a + ([c] + b), c) == |a| && Strlchr(a, c) == |a|
  {
    if a != [] {
      assert a[0] in a && forall x :: x in a[1..] ==> x in a;
      assert (a + ([c] + b))[1..] == a[1..] + ([c] + b);
      StrlchrAt(a[1..], c, b);
    }
  }

  lemma SpanReadsBack(sp: Span)
    requires sp.Proper()
    ensures var s := PrintSpan(sp); s != [] && COMMA !in s && SpanOf(s) == sp
  {
    hide Atoi, PrintCode;
    var a, b := PrintCode(sp.first), PrintCode(sp.final);
    CodeReadsBack(sp.first);
    CodeReadsBack(sp.final);
    StrlchrAt(a, DASH, b);
    var s := a + ([DASH] + b);
    assert a + [DASH] + b == s;
    assert s[..3] == a && s[4..] == b;
  }

  /** Printing spans of codes and parsing the text back accepts exactly those codes. */
  lemma {:induction false} PrintedListParses(spans: seq<Span>, c: int)
    requires forall sp :: sp in spans ==> sp.Proper()
    ensures ParseResult(PrintList(spans)) == Ok
    ensures Listed(PrintList(spans), c) <==> exists sp :: sp in spans && sp.Has(c)
  {
    hide SpanOf, PrintSpan, ParseResult, Listed;
    if spans == [] {
      EmptyList();
    } else {
      var s, e, tail := PrintList(spans), PrintSpan(spans[0]), spans[1..];
      assert spans[0] in spans && forall sp :: sp in spans <==> sp == spans[0] || sp in tail;
      SpanReadsBack(spans[0]);
      StrlchrAt(e, COMMA, if tail == [] then [] else PrintList(tail));
      if tail == [] {
        assert s[..|e|] == e;
        AfterElement(s, c);
      } else {
        PrintedListParses(tail, c);
        PrintedNonEmpty(tail);
        assert s[..|e|] == e && s[|e| + 1..] == PrintList(tail);
        AfterElement(s, c);
      }
    }
  }

  lemma PrintedNonEmpty(spans: seq<Span>)
    requires spans != [] && forall sp :: sp in spans ==> sp.Proper()
    ensures PrintList(spans) != []
  {
    SpanReadsBack(spans[0]);
  }

  /** A bitmap that was blank before the printed list was parsed into it matches exactly the listed
      codes, and no status beyond the largest. */
  lemma PrintedListMatches(spans: seq<Span>, bits: seq<bv8>, status: nat)
    requires |bits| == STATUS_BYTES && forall sp :: sp in spans ==> sp.Proper()
    requires forall c: nat :: c <= MAX_STATUS ==> (BitSet(bits, c) <==> Listed(PrintList(spans), c))
    ensures StatusMatches(bits, status) <==> exists sp :: sp in spans && sp.Has(status)
  {
    hide BitSet, Listed, PrintList;
    PrintedListParses(spans, status);
  }
}

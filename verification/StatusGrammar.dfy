/** The status list on bytes alone: which texts are accepted, why the others are not, and which codes
    a text lists, told without the parser's own readings. */
module StatusGrammar {
  import opened ZoneModel
  import opened Statuses

  // ---------------------------------------------------------------- numbers

  function Pow10(n: nat): nat
  {
    if n == 0 then 1 else 10 * Pow10(n - 1)
  }

  ghost predicate Digits(s: seq<byte>)
  {
    forall i :: 0 <= i < |s| ==> 0x30 <= s[i] <= 0x39
  }

  /** The sum of the digits times their powers of ten. */
  function PlaceValue(s: seq<byte>): int
  {
    if s == [] then 0 else (s[0] - 0x30) * Pow10(|s| - 1) + PlaceValue(s[1..])
  }

  lemma {:induction false} PlaceValueSnoc(s: seq<byte>, c: byte)
    ensures PlaceValue(s + [c]) == 10 * PlaceValue(s) + (c - 0x30)
  {
    if s == [] {
      assert (s + [c])[1..] == [] && Pow10(0) == 1;
    } else {
      assert (s + [c])[1..] == s[1..] + [c];
      PlaceValueSnoc(s[1..], c);
      var d: int := s[0];
      TimesTen(d - 0x30, Pow10(|s| - 1));
      assert Pow10(|s|) == 10 * Pow10(|s| - 1);
    }
  }

  lemma TimesTen(d: int, p: nat)
    ensures d * (10 * p) == 10 * (d * p)
  {
  }

  lemma {:induction false} DigitsArePositive(s: seq<byte>)
    requires Digits(s)
    ensures PlaceValue(s) >= 0
  {
    if s != [] {
      var front, c := s[..|s| - 1], s[|s| - 1];
      DigitsArePositive(front);
      PlaceValueSnoc(front, c);
      assert s == front + [c];
    }
  }

  /** What ngx_atoi makes of a text. */
  lemma {:induction false} DecimalIs(s: seq<byte>)
    ensures Decimal(s) == if Digits(s) && PlaceValue(s) <= 0x7FFF_FFFF_FFFF_FFFF then PlaceValue(s) else -1
    ensures Decimal(s) >= -1
  {
    if s != [] {
      var front, c := s[..|s| - 1], s[|s| - 1];
      assert s == front + [c];
      DecimalIs(front);
      PlaceValueSnoc(front, c);
      assert Digits(s) <==> Digits(front) && 0x30 <= c <= 0x39;
      if Digits(front) { DigitsArePositive(front); }
    }
  }

  // ---------------------------------------------------------------- elements

  ghost predicate Number(s: seq<byte>, v: int)
  {
    s != [] && Digits(s) && PlaceValue(s) == v
  }

  /** The element is one number, or two with a dash between. */
  ghost predicate Reads(e: seq<byte>, lo: int, hi: int)
  {
    || (Number(e, lo) && lo == hi)
    || exists k :: 0 <= k < |e| && e[k] == 0x2D && Number(e[..k], lo) && Number(e[k + 1..], hi)
  }

  ghost predicate Good(e: seq<byte>)
  {
    exists lo, hi :: Reads(e, lo, hi) && 100 <= lo <= hi <= 599
  }

  lemma AtoiIs(s: seq<byte>, v: int)
    requires 0 <= v <= 599
    ensures Atoi(s) == v <==> Number(s, v)
  {
    DecimalIs(s);
  }

  lemma DashIsNoDigit(s: seq<byte>, k: nat)
    requires k < |s| && s[k] == 0x2D
    ensures !Digits(s)
  {
  }

  /** The element reads as these numbers exactly when the parser takes it for their range. */
  lemma ReadsIff(e: seq<byte>, lo: int, hi: int)
    requires 100 <= lo <= hi <= 599
    ensures Reads(e, lo, hi) <==> e != [] && SpanOf(e) == Span(lo, hi)
  {
    hide Atoi, Number;
    var d := Strlchr(e, DASH);
    if d == |e| {
      AtoiIs(e, lo);
      AtoiIs(e, hi);
      if Number(e, lo) { NumberIsThere(e, lo); }
    } else {
      AtoiIs(e[..d], lo);
      AtoiIs(e[d + 1..], hi);
      NumberHasNoDash(e, lo, d);
      forall k | 0 <= k < |e| && e[k] == 0x2D && Number(e[..k], lo) && Number(e[k + 1..], hi) ensures k == d {
        if d < k { NumberHasNoDash(e[..k], lo, d); }
      }
    }
  }

  lemma NumberIsThere(e: seq<byte>, v: int)
    requires Number(e, v)
    ensures e != []
  {
  }

  lemma NumberHasNoDash(e: seq<byte>, v: int, k: nat)
    requires k < |e| && e[k] == 0x2D
    ensures !Number(e, v)
  {
    DashIsNoDigit(e, k);
  }

  lemma GoodIff(e: seq<byte>)
    ensures Good(e) <==> WellFormed(e)
  {
    hide SpanOf, Reads;
    forall lo, hi | 100 <= lo <= hi <= 599 ensures Reads(e, lo, hi) <==> e != [] && SpanOf(e) == Span(lo, hi) {
      ReadsIff(e, lo, hi);
    }
    if WellFormed(e) { assert Reads(e, SpanOf(e).first, SpanOf(e).final); }
  }

  // ---------------------------------------------------------------- texts

  /** The elements with commas between. */
  function Joined(es: seq<seq<byte>>): seq<byte>
    requires es != []
  {
    if |es| == 1 then es[0] else es[0] + ([0x2C] + Joined(es[1..]))
  }

  ghost predicate NoCommas(es: seq<seq<byte>>)
  {
    forall e :: e in es ==> 0x2C !in e
  }

  /** Every text is that of its elements, and of no others. */
  lemma {:induction false} SplitJoins(s: seq<byte>)
    ensures Joined(Split(s)) == s && NoCommas(Split(s))
    decreases |s|
  {
    hide Strlchr;
    var i := Strlchr(s, COMMA);
    if i == |s| {
      OneElement(s);
      assert COMMA !in s;
    } else {
      var rest := s[i + 1..];
      FirstElement(s);
      SplitJoins(rest);
      var es := Split(s);
      assert es[1..] == Split(rest) && s == s[..i] + ([COMMA] + rest);
      assert COMMA !in s[..i];
    }
  }

  lemma SplitFirst(e: seq<byte>, rest: seq<byte>)
    requires 0x2C !in e
    ensures Split(e + ([0x2C] + rest)) == [e] + Split(rest)
    ensures Split(e) == [e]
  {
    hide Strlchr;
    var s := e + ([COMMA] + rest);
    StrlchrAt(e, COMMA, rest);
    OneElement(e);
    assert s[..|e|] == e && s[|e| + 1..] == rest;
    FirstElement(s);
  }

  lemma {:induction false} JoinSplits(es: seq<seq<byte>>)
    requires es != [] && NoCommas(es)
    ensures Split(Joined(es)) == es
  {
    hide Split;
    var e, tail := es[0], es[1..];
    assert e in es && es == [e] + tail;
    if tail == [] {
      SplitFirst(e, []);
    } else {
      assert forall x :: x in tail ==> x in es;
      JoinSplits(tail);
      SplitFirst(e, Joined(tail));
    }
  }

  /** What a text of these elements parses to, k being its first bad element if it has one: an empty
      text is accepted and lists nothing; otherwise all elements must be good, the first bad one names the
      error, and the codes listed are those in the ranges before it. */
  lemma TextMeans(es: seq<seq<byte>>, k: nat, c: int)
    requires es != [] && NoCommas(es) && Joined(es) != []
    requires k <= |es| && (forall j :: 0 <= j < k ==> Good(es[j])) && (k < |es| ==> !Good(es[k]))
    ensures ParseResult(Joined(es))
         == if k == |es| then Ok
            else if es[k] != [] then Range
            else if 0 < k && k == |es| - 1 then TrailingComma
            else EmptyElement
    ensures Listed(Joined(es), c)
       <==> exists j, lo, hi :: 0 <= j < k && Reads(es[j], lo, hi) && 100 <= lo <= c <= hi <= 599
  {
    hide SpanOf, WellFormed, Reads, Good;
    JoinSplits(es);
    forall e ensures Good(e) <==> WellFormed(e) { GoodIff(e); }
    assert FirstBad(es) == k;
    if Covered(es, c) {
      var j :| 0 <= j < k && SpanOf(es[j]).Has(c);
      GoodReads(es[j]);
      assert Reads(es[j], SpanOf(es[j]).first, SpanOf(es[j]).final);
    }
    forall j, lo, hi | 0 <= j < k && Reads(es[j], lo, hi) && 100 <= lo <= c <= hi <= 599
      ensures SpanOf(es[j]).Has(c)
    {
      ReadsIff(es[j], lo, hi);
    }
  }

  lemma GoodReads(e: seq<byte>)
    requires Good(e)
    ensures var sp := SpanOf(e); Reads(e, sp.first, sp.final) && 100 <= sp.first <= sp.final <= 599
  {
    hide SpanOf, Reads;
    var lo, hi :| Reads(e, lo, hi) && 100 <= lo <= hi <= 599;
    ReadsIff(e, lo, hi);
  }

  /** A text is accepted if and only if it is empty or made of good elements with commas between. */
  lemma AcceptedTexts(s: seq<byte>)
    ensures ParseResult(s) == Ok
       <==> s == [] || exists es :: es != [] && NoCommas(es) && s == Joined(es) && forall e :: e in es ==> Good(e)
  {
    hide Good, WellFormed;
    AcceptedIff(s);
    SplitJoins(s);
    forall e ensures Good(e) <==> WellFormed(e) { GoodIff(e); }
    if es :| es != [] && NoCommas(es) && s == Joined(es) && forall e :: e in es ==> Good(e) {
      JoinSplits(es);
    }
  }
}

/** Progress ratios: percentages as three characters. */
module Ratio {
  import opened Bytes

  type Percent = x: int | 0 <= x <= 100

  const SPACE: byte := 32
  const PLUS: byte := 43
  const MINUS: byte := 45

  predicate IsDigit(c: byte) {
    48 <= c <= 57
  }

  /** White space of the "C" locale. */
  predicate IsSpace(c: byte) {
    c == SPACE || 9 <= c <= 13
  }

  /** Right-aligned in three columns. */
  function RatioBytes(n: Percent): (b: seq<byte>)
    ensures |b| == 3
  {
    if n < 10 then [SPACE, SPACE, 48 + n]
    else if n < 100 then [SPACE, 48 + n / 10, 48 + n % 10]
    else [49, 48, 48]
  }

  function SkipSpace(s: seq<byte>): (r: seq<byte>)
    ensures |r| <= |s|
  {
    if s != [] && IsSpace(s[0]) then SkipSpace(s[1..]) else s
  }

  /** Value of the digits at the front of `s`, on top of the digits already read. */
  function LeadingNumber(s: seq<byte>, soFar: nat): nat {
    if s != [] && IsDigit(s[0]) then LeadingNumber(s[1..], 10 * soFar + (s[0] - 48)) else soFar
  }

  /**
   * The conversion of `std::stoul`, narrowed to 32 bits: white space, an optional sign, then at least one digit;
   * anything after the digits is ignored, and a minus sign wraps around.
   */
  function Number(s: seq<byte>): Option<uint32> {
    var t := SkipSpace(s);
    var signed := t != [] && (t[0] == PLUS || t[0] == MINUS);
    var digits := if signed then t[1..] else t;
    if digits == [] || !IsDigit(digits[0]) then
      None
    else
      var n: int := LeadingNumber(digits, 0);
      Some((if signed && t[0] == MINUS then -n else n) % 0x1_0000_0000)
  }

  datatype RatioParse = BadRatio | GoodRatio(value: Percent, rest: seq<byte>)

  function ParseRatio(b: seq<byte>): RatioParse {
    if |b| < 3 then BadRatio
    else match Number(b[..3])
      case None => BadRatio
      case Some(n) => if n > 100 then BadRatio else GoodRatio(n, b[3..])
  }

  lemma RatioRoundTrip(n: Percent, rest: seq<byte>)
    ensures ParseRatio(RatioBytes(n) + rest) == GoodRatio(n, rest)
  {
    var b := RatioBytes(n) + rest;
    assert b[..3] == RatioBytes(n) && b[3..] == rest;
    if n < 10 {
      var d: byte := 48 + n;
      assert [SPACE, SPACE, d][1..] == [SPACE, d];
      assert [SPACE, d][1..] == [d];
      assert SkipSpace([d]) == [d];
      assert SkipSpace([SPACE, d]) == [d];
      assert SkipSpace(b[..3]) == [d];
      assert LeadingNumber([d], 0) == n;
    } else if n < 100 {
      var t: byte, d: byte := 48 + n / 10, 48 + n % 10;
      assert [SPACE, t, d][1..] == [t, d];
      assert SkipSpace([t, d]) == [t, d];
      assert SkipSpace(b[..3]) == [t, d];
      assert [t, d][1..] == [d];
      assert LeadingNumber([d], n / 10) == n;
      assert LeadingNumber([t, d], 0) == n;
    } else {
      var h: seq<byte> := [49, 48, 48];
      assert SkipSpace(h) == h;
      assert h[1..] == [48, 48] && h[1..][1..] == [48];
      assert LeadingNumber([48], 10) == 100;
      assert LeadingNumber(h[1..], 1) == 100;
      assert LeadingNumber(h, 0) == 100;
    }
  }

  lemma RatioExtends(b: seq<byte>, more: seq<byte>)
    requires ParseRatio(b).GoodRatio?
    ensures ParseRatio(b + more) == GoodRatio(ParseRatio(b).value, ParseRatio(b).rest + more)
  {
    assert (b + more)[..3] == b[..3];
    assert (b + more)[3..] == b[3..] + more;
  }
}

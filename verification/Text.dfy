/** Length-prefixed, NUL-terminated strings. */
module Text {
  import opened Bytes

  type Chars = seq<byte>

  /** The part of `s` in front of its first NUL, or all of `s` if it has none. */
  function CutAtNul(s: Chars): (r: Chars)
    ensures r <= s && NUL !in r
    ensures |r| < |s| ==> s[|r|] == NUL
    ensures NUL in s <==> |r| < |s|
  {
    if s == [] || s[0] == NUL then [] else [s[0]] + CutAtNul(s[1..])
  }

  function Zeros(n: nat): (r: seq<byte>)
    ensures |r| == n && forall i :: 0 <= i < n ==> r[i] == 0
  {
    seq(n, _ => 0)
  }

  /** Size of the string on the wire without its length octet; the terminator counts unless the string is empty. */
  function RawSize(s: Chars): nat {
    if s == [] then 0 else |s| + 1
  }

  /** With its length octet. */
  function TextSize(s: Chars): nat {
    1 + RawSize(s)
  }

  predicate TextFits(s: Chars, fixedLength: byte) {
    RawSize(s) < 255 && (fixedLength != 0 ==> RawSize(s) <= fixedLength)
  }

  /** The octets of `s`: length, characters and zero padding. */
  function TextBytes(s: Chars, fixedLength: byte): (r: seq<byte>)
    requires TextFits(s, fixedLength)
  {
    var size: byte := if fixedLength != 0 then fixedLength else RawSize(s);
    [size] + s + Zeros(size - |s|)
  }

  datatype TextParse = BadText | GoodText(s: Chars, rest: seq<byte>)

  function ParseText(b: seq<byte>): TextParse {
    if b == [] || |b| - 1 < b[0] then
      BadText
    else if b[0] == 0 then
      GoodText([], b[1..])
    else
      var field := b[1..1 + b[0]];
      if NUL in field then GoodText(CutAtNul(field), b[1 + b[0]..]) else BadText
  }

  /** `CutAtNul` cuts at the first NUL, wherever that is. */
  lemma {:induction false} CutIsFirstNul(s: Chars, n: nat)
    requires n <= |s| && NUL !in s[..n] && (n < |s| ==> s[n] == NUL)
    ensures CutAtNul(s) == s[..n]
  {
  }

  lemma CutOfPadded(s: Chars, n: nat)
    requires n > 0
    ensures CutAtNul(s + Zeros(n)) == CutAtNul(s)
  {
    var k := |CutAtNul(s)|;
    assert (s + Zeros(n))[..k] == CutAtNul(s);
    CutIsFirstNul(s + Zeros(n), k);
  }

  /** Decoding an encoded string gives the string up to its first NUL and exactly what followed it. */
  lemma TextRoundTrip(s: Chars, fixedLength: byte, rest: seq<byte>)
    requires TextFits(s, fixedLength)
    ensures ParseText(TextBytes(s, fixedLength) + rest) == GoodText(CutAtNul(s), rest)
  {
    var b := TextBytes(s, fixedLength) + rest;
    var size := b[0];
    if size != 0 {
      var pad := size - |s|;
      assert b[1..1 + size] == s + Zeros(pad);
      assert (s + Zeros(pad))[|s|] == NUL;
      CutOfPadded(s, pad);
    }
    assert b[1 + size..] == rest;
  }

  /** What a decoded string looks like, and what it took from the input. */
  lemma ParsedText(b: seq<byte>)
    requires ParseText(b).GoodText?
    ensures var p := ParseText(b);
            && NUL !in p.s && |p.s| <= 254
            && 1 + RawSize(p.s) + |p.rest| <= |b|
  {
  }

  /** Octets after a string do not change how it is read. */
  lemma TextExtends(b: seq<byte>, more: seq<byte>)
    requires ParseText(b).GoodText?
    ensures ParseText(b + more) == GoodText(ParseText(b).s, ParseText(b).rest + more)
  {
    var n: int := b[0];
    assert (b + more)[1..n + 1] == b[1..n + 1];
    assert (b + more)[n + 1..] == b[n + 1..] + more;
  }

  /** The decoder accepts strings of 254 characters and the encoder refuses them; no other string differs. */
  lemma DecodedTextEncodes(b: seq<byte>)
    requires ParseText(b).GoodText?
    ensures TextFits(ParseText(b).s, 0) <==> |ParseText(b).s| != 254
  {
  }

  /** A string of 254 characters on the wire: there is room for its terminator in the field, but the encoder refuses it. */
  function LongestText(s: Chars): seq<byte>
    requires |s| == 254
  {
    [255] + s + [NUL]
  }

  lemma LongestIsDecodedOnly(s: Chars, rest: seq<byte>)
    requires |s| == 254 && NUL !in s
    ensures ParseText(LongestText(s) + rest) == GoodText(s, rest)
    ensures !TextFits(s, 0)
  {
    var b := LongestText(s) + rest;
    assert b[1..1 + 255] == s + [NUL] && b[1 + 255..] == rest;
    assert (s + [NUL])[..254] == s;
    CutIsFirstNul(s + [NUL], 254);
  }

  /** Encodes into a zeroed buffer. `None` is the exception "string too long". */
  method StringEncode(s: Chars, fixedLength: byte) returns (r: Option<seq<byte>>)
    ensures r == if TextFits(s, fixedLength) then Some(TextBytes(s, fixedLength)) else None
  {
    var rawSize := if s == [] then 0 else |s| + 1;
    if rawSize >= 255 || (fixedLength != 0 && rawSize > fixedLength) {
      return None;
    }
    var size: byte := if fixedLength != 0 then fixedLength else rawSize;
    var raw := new byte[1 + size](_ => 0);
    raw[0] := size;
    var i := 0;
    while i < |s|
      invariant 0 <= i <= |s|
      invariant raw[0] == size
      invariant raw[1..1 + i] == s[..i]
      invariant forall j :: 1 + i <= j < raw.Length ==> raw[j] == 0
    {
      raw[1 + i] := s[i];
      i := i + 1;
      assert raw[1..1 + i] == raw[1..i] + [s[i - 1]];
    }
    if s != [] {
      raw[raw.Length - 1] := 0;
    }
    assert raw[1..1 + |s|] == s;
    assert raw[..] == TextBytes(s, fixedLength) by {
      var e := TextBytes(s, fixedLength);
      forall j | 0 <= j < raw.Length ensures raw[j] == e[j] {
        if 1 <= j <= |s| {
          assert raw[1..1 + |s|][j - 1] == s[j - 1];
        }
      }
    }
    r := Some(raw[..]);
  }

  /** Cuts one string off the front of `data`. */
  method StringDecode(data: seq<byte>) returns (r: TextParse)
    ensures r == ParseText(data)
  {
    if data == [] {
      return BadText;
    }
    var size, remaining := data[0], data[1..];
    if |remaining| < size {
      return BadText;
    }
    var text: Chars := [];
    if size > 0 {
      var field := remaining[..size];
      remaining := remaining[size..];
      assert field == data[1..1 + size] && remaining == data[1 + size..];
      var end := 0;
      while end < |field| && field[end] != NUL
        invariant 0 <= end <= |field|
        invariant NUL !in field[..end]
      {
        end := end + 1;
      }
      if end == |field| {
        return BadText;
      }
      CutIsFirstNul(field, end);
      text := field[..end];
    }
    r := GoodText(text, remaining);
  }
}

/** The TFTP error messages `WAIT:[seconds]` and `ABORT:[status code]`. */
module ErrorMessage {
  import opened Bytes
  import opened Grammar

  const WAIT := "WAIT:"
  const ABORT := "ABORT:"
  const STATUS_INVALID: uint16 := 0xFFFF

  function DigitValue(c: char): nat {
    if '0' <= c <= '9' then (c - '0') as nat
    else if 'a' <= c <= 'f' then (c - 'a') as nat + 10
    else if 'A' <= c <= 'F' then (c - 'A') as nat + 10
    else 99
  }

  predicate IsDigit(base: nat, c: char) {
    DigitValue(c) < base
  }

  function Shift(base: nat, value: nat, digit: nat): nat {
    value * base + digit
  }

  function ValueOf(base: nat, s: string): nat {
    if s == "" then 0 else Shift(base, ValueOf(base, s[..|s| - 1]), DigitValue(s[|s| - 1]))
  }

  function LeadingDigits(base: nat, s: string): (n: nat)
    ensures n <= |s| && (forall c <- s[..n] :: IsDigit(base, c)) && (n < |s| ==> !IsDigit(base, s[n]))
  {
    if s == "" || !IsDigit(base, s[0]) then 0
    else
      assert s == [s[0]] + s[1..];
      1 + LeadingDigits(base, s[1..])
  }

  /** `std::from_chars` into 16 bits: the longest run of digits, which must not be empty or too large. */
  function FromChars(base: nat, s: string): Option<uint16> {
    var n := LeadingDigits(base, s);
    if n == 0 || ValueOf(base, s[..n]) > 0xFFFF then None else Some(ValueOf(base, s[..n]))
  }

  predicate AbortCode(c: int) {
    KnownStatus(c) && c != OPERATION_IN_PROGRESS_ADDITIONAL_INFO
  }

  function ParseWait(m: string): Option<uint16> {
    if WAIT <= m then FromChars(10, m[|WAIT|..]) else None
  }

  function ParseAbort(m: string): uint16 {
    if !(ABORT <= m) then STATUS_INVALID
    else match FromChars(16, m[|ABORT|..])
      case None => STATUS_INVALID
      case Some(c) => if AbortCode(c) then c else STATUS_INVALID
  }

  function DigitChar(n: nat): char
    requires n < 16
  {
    if n < 10 then '0' + n as char else 'A' + (n - 10) as char
  }

  function Digits(base: nat, n: nat): (s: string)
    requires 2 <= base <= 16
    ensures s != ""
  {
    if n < base then [DigitChar(n)] else Digits(base, n / base) + [DigitChar(n % base)]
  }

  /** `None` is the exception "Value out of range". */
  function PrintWait(seconds: int): Option<string> {
    if 0 <= seconds <= 0xFFFF then Some(WAIT + Digits(10, seconds)) else None
  }

  /** At least four hexadecimal digits. */
  function PaddedDigits(code: uint16): string {
    var s := Digits(16, code);
    if |s| < 4 then seq(4 - |s|, _ => '0') + s else s
  }

  function PrintAbort(code: uint16): string {
    ABORT + PaddedDigits(code)
  }

  datatype MessageKind = Neither | Wait | Abort

  function KindOf(m: string): MessageKind {
    if WAIT <= m then (if |m| <= |WAIT| then Neither else Wait)
    else if ABORT <= m then (if |m| <= |ABORT| then Neither else Abort)
    else Neither
  }

  // ---- What the parsers accept -------------------------------------------------------------------------------------

  /** `s` starts with the digits `d`, and no further digit follows them. */
  predicate MaximalRun(base: nat, d: string, s: string) {
    && d != "" && d <= s
    && (forall c <- d :: IsDigit(base, c))
    && (|d| < |s| ==> !IsDigit(base, s[|d|]))
  }

  lemma {:induction false} RunIsUnique(base: nat, d: string, s: string)
    requires MaximalRun(base, d, s)
    ensures |d| == LeadingDigits(base, s)
  {
  }

  lemma FromCharsAccepts(base: nat, s: string, n: int)
    ensures FromChars(base, s) == Some(n) <==>
            0 <= n <= 0xFFFF && exists d :: MaximalRun(base, d, s) && ValueOf(base, d) == n
  {
    forall d | MaximalRun(base, d, s) ensures d == s[..LeadingDigits(base, s)] { RunIsUnique(base, d, s); }
    var k := LeadingDigits(base, s);
    if k > 0 {
      assert MaximalRun(base, s[..k], s);
    }
  }

  /** A wait message is the tag and a maximal, non-empty run of decimal digits worth the wait time, within 16 bits. */
  lemma WaitAccepts(m: string, n: int)
    ensures ParseWait(m) == Some(n) <==>
            && WAIT <= m && 0 <= n <= 0xFFFF
            && exists d :: MaximalRun(10, d, m[|WAIT|..]) && ValueOf(10, d) == n
    ensures ParseWait(m).Some? ==> KindOf(m) == Wait
  {
    if WAIT <= m {
      FromCharsAccepts(10, m[|WAIT|..], n);
    }
  }

  /** The same in hexadecimal for one of the nine codes an abort message can carry. */
  lemma AbortAccepts(m: string, c: uint16)
    requires c != STATUS_INVALID
    ensures ParseAbort(m) == c <==>
            && ABORT <= m && AbortCode(c)
            && exists d :: MaximalRun(16, d, m[|ABORT|..]) && ValueOf(16, d) == c
    ensures ParseAbort(m) != STATUS_INVALID ==> KindOf(m) == Abort
  {
    if ABORT <= m {
      FromCharsAccepts(16, m[|ABORT|..], c);
      assert m[0] == ABORT[0] != WAIT[0];
    }
  }

  lemma NeverBoth(m: string)
    ensures ParseWait(m) == None || ParseAbort(m) == STATUS_INVALID
  {
  }

  // ---- Round trips -----------------------------------------------------------------------------------------------------

  lemma {:induction false} DigitsValue(base: nat, n: nat)
    requires base == 10 || base == 16
    ensures ValueOf(base, Digits(base, n)) == n
    ensures forall c <- Digits(base, n) :: IsDigit(base, c)
    decreases n
  {
    hide ValueOf, Shift, DigitChar, DigitValue;
    Division(base, n);
    if n < base {
      LastDigit(base, [], 0, n);
      assert [] + [DigitChar(n)] == [DigitChar(n)];
    } else {
      var q, r := n / base, n % base;
      DigitsValue(base, q);
      LastDigit(base, Digits(base, q), q, r);
    }
  }

  lemma LastDigit(base: nat, s: string, value: nat, digit: nat)
    requires digit < base <= 16 && (s == [] ==> value == 0) && ValueOf(base, s) == value
    requires forall c <- s :: IsDigit(base, c)
    ensures ValueOf(base, s + [DigitChar(digit)]) == Shift(base, value, digit)
    ensures forall c <- s + [DigitChar(digit)] :: IsDigit(base, c)
  {
    hide ValueOf, Shift, DigitChar, DigitValue;
    DigitCharValue(digit);
    ValueOfAppend(base, s, DigitChar(digit));
  }

  lemma Division(base: nat, n: nat)
    requires base == 10 || base == 16
    ensures Shift(base, n / base, n % base) == n
    ensures Shift(base, 0, n) == n && ValueOf(base, []) == 0
    ensures n >= base ==> n / base < n
  {
    if base == 10 {
      assert n == 10 * (n / 10) + n % 10;
    } else {
      assert n == 16 * (n / 16) + n % 16;
    }
  }

  lemma DigitCharValue(n: nat)
    requires n < 16
    ensures DigitValue(DigitChar(n)) == n
  {
  }

  lemma ValueOfAppend(base: nat, s: string, c: char)
    ensures ValueOf(base, s + [c]) == Shift(base, ValueOf(base, s), DigitValue(c))
  {
  }

  lemma {:induction false} LeadingZeros(base: nat, z: nat, s: string)
    requires s != ""
    ensures ValueOf(base, seq(z, _ => '0') + s) == ValueOf(base, s)
  {
    var t := seq(z, _ => '0') + s;
    if |s| == 1 {
      assert t[..|t| - 1] == seq(z, _ => '0');
      assert s[..0] == "";
      ZerosAreNothing(base, z);
    } else {
      assert t[..|t| - 1] == seq(z, _ => '0') + s[..|s| - 1];
      LeadingZeros(base, z, s[..|s| - 1]);
    }
  }

  lemma {:induction false} ZerosAreNothing(base: nat, z: nat)
    ensures ValueOf(base, seq(z, _ => '0')) == 0
  {
    if z > 0 {
      assert seq(z, _ => '0')[..z - 1] == seq(z - 1, _ => '0');
      ZerosAreNothing(base, z - 1);
    }
  }

  /** Printing then parsing gives every wait time back, whatever follows, as long as it is not another digit. */
  lemma WaitRoundTrip(seconds: int, more: string)
    requires more != "" ==> !IsDigit(10, more[0])
    ensures PrintWait(seconds).Some? <==> 0 <= seconds <= 0xFFFF
    ensures PrintWait(seconds).Some? ==> ParseWait(PrintWait(seconds).value + more) == Some(seconds)
  {
    if 0 <= seconds <= 0xFFFF {
      DigitsValue(10, seconds);
      var d := Digits(10, seconds);
      var m := WAIT + d + more;
      assert m[|WAIT|..] == d + more;
      assert MaximalRun(10, d, m[|WAIT|..]);
      WaitAccepts(m, seconds);
    }
  }

  /**
   * The same for status codes, but only the nine listed ones come back: the additional-information code 4 and the
   * internal codes print to messages that the parser refuses.
   */
  lemma AbortRoundTrip(code: uint16, more: string)
    requires more != "" ==> !IsDigit(16, more[0])
    ensures ParseAbort(PrintAbort(code) + more) == if AbortCode(code) then code else STATUS_INVALID
  {
    var m := PrintAbort(code) + more;
    var d := PaddedDigits(code);
    PaddedValue(code);
    assert m[|ABORT|..] == d + more;
    assert ABORT <= m;
    assert MaximalRun(16, d, d + more);
    FromCharsAccepts(16, d + more, code);
  }

  lemma PaddedValue(code: uint16)
    ensures PaddedDigits(code) != "" && ValueOf(16, PaddedDigits(code)) == code
    ensures forall c <- PaddedDigits(code) :: IsDigit(16, c)
  {
    DigitsValue(16, code);
    var s := Digits(16, code);
    if |s| < 4 {
      LeadingZeros(16, 4 - |s|, s);
    }
  }
}

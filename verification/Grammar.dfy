/**
 * The bodies of all protocol files are built from the same few fields. A `Grammar` says which fields follow each
 * other; `Print` and `Parse` are the two directions, and what is proved about them here holds for every file type.
 */
module Grammar {
  import opened Bytes
  import opened Text
  import opened Ratio

  datatype Grammar =
    | U16
    | I16
    | Status             // a 16-bit status code the decoder checks
    | Acceptance         // the same for initialisation files
    | String
    | Percentage
    | Blob               // octets behind an 8-bit count
    | Both(first: Grammar, second: Grammar)
    | Counted(item: Grammar)   // entries behind a 16-bit count

  datatype Value =
    | Num(n: int)
    | Str(s: Chars)
    | Pair(a: Value, b: Value)
    | List(items: seq<Value>)

  datatype Parsed = Reject | Accept(value: Value, rest: seq<byte>)

  const OPERATION_ACCEPTED: uint16 := 0x0001
  const OPERATION_IN_PROGRESS: uint16 := 0x0002
  const OPERATION_COMPLETED: uint16 := 0x0003
  const OPERATION_IN_PROGRESS_ADDITIONAL_INFO: uint16 := 0x0004
  const OPERATION_NOT_ACCEPTED: uint16 := 0x1000
  const OPERATION_NOT_SUPPORTED: uint16 := 0x1002
  const OPERATION_ABORTED_BY_TARGET_HW: uint16 := 0x1003
  const OPERATION_ABORTED_BY_DLP: uint16 := 0x1004
  const OPERATION_ABORTED_BY_OPERATOR: uint16 := 0x1005
  const LOAD_OR_FILE_FAILED: uint16 := 0x1007

  predicate KnownStatus(n: int) {
    n in {OPERATION_ACCEPTED, OPERATION_IN_PROGRESS, OPERATION_COMPLETED, OPERATION_IN_PROGRESS_ADDITIONAL_INFO,
          OPERATION_NOT_ACCEPTED, OPERATION_NOT_SUPPORTED, OPERATION_ABORTED_BY_TARGET_HW,
          OPERATION_ABORTED_BY_DLP, OPERATION_ABORTED_BY_OPERATOR, LOAD_OR_FILE_FAILED}
  }

  predicate KnownAcceptance(n: int) {
    n in {OPERATION_ACCEPTED, OPERATION_NOT_ACCEPTED, OPERATION_NOT_SUPPORTED}
  }

  /** The value has the shape and the number ranges that the fields of the file classes have. */
  predicate Fits(g: Grammar, v: Value) {
    match g
    case U16 | Status | Acceptance => v.Num? && 0 <= v.n < 0x1_0000
    case I16 => v.Num? && -0x8000 <= v.n < 0x8000
    case Percentage => v.Num? && 0 <= v.n <= 100
    case String | Blob => v.Str?
    case Both(g1, g2) => v.Pair? && Fits(g1, v.a) && Fits(g2, v.b)
    case Counted(item) => v.List? && forall x <- v.items :: Fits(item, x)
  }

  /** The encoder does not refuse the value. */
  predicate Encodable(g: Grammar, v: Value)
    requires Fits(g, v)
  {
    match g
    case String => TextFits(v.s, 0)
    case Blob => |v.s| <= 0xFF
    case Both(g1, g2) => Encodable(g1, v.a) && Encodable(g2, v.b)
    case Counted(item) => |v.items| <= 0xFFFF && forall x <- v.items :: Encodable(item, x)
    case _ => true
  }

  /** The decoder knows all codes in the value. */
  predicate CodesKnown(g: Grammar, v: Value)
    requires Fits(g, v)
  {
    match g
    case Status => KnownStatus(v.n)
    case Acceptance => KnownAcceptance(v.n)
    case Both(g1, g2) => CodesKnown(g1, v.a) && CodesKnown(g2, v.b)
    case Counted(item) => forall x <- v.items :: CodesKnown(item, x)
    case _ => true
  }

  /** The value with every string cut at its first NUL. */
  function Trim(g: Grammar, v: Value): (r: Value)
    requires Fits(g, v)
    ensures Fits(g, r)
  {
    match g
    case String => Str(CutAtNul(v.s))
    case Both(g1, g2) => Pair(Trim(g1, v.a), Trim(g2, v.b))
    case Counted(item) =>
      List(seq(|v.items|, i requires 0 <= i < |v.items| => Trim(item, v.items[i])))
    case _ => v
  }

  /** No string of the value contains a NUL. */
  predicate NulFree(g: Grammar, v: Value)
    requires Fits(g, v)
  {
    match g
    case String => NUL !in v.s
    case Both(g1, g2) => NulFree(g1, v.a) && NulFree(g2, v.b)
    case Counted(item) => forall x <- v.items :: NulFree(item, x)
    case _ => true
  }

  /** Some string of the value is `n` characters long. */
  predicate HasStringOf(g: Grammar, v: Value, n: nat)
    requires Fits(g, v)
  {
    match g
    case String => |v.s| == n
    case Both(g1, g2) => HasStringOf(g1, v.a, n) || HasStringOf(g2, v.b, n)
    case Counted(item) => exists x <- v.items :: HasStringOf(item, x, n)
    case _ => false
  }

  function Print(g: Grammar, v: Value): (r: seq<byte>)
    requires Fits(g, v) && Encodable(g, v)
    decreases g, 0
  {
    match g
    case U16 | Status | Acceptance => PutU16(v.n)
    case I16 => PutI16(v.n)
    case String => TextBytes(v.s, 0)
    case Percentage => RatioBytes(v.n)
    case Blob => var n: byte := |v.s|; [n] + v.s
    case Both(g1, g2) => Print(g1, v.a) + Print(g2, v.b)
    case Counted(item) => PutU16(|v.items|) + PrintAll(item, v.items)
  }

  ghost predicate AllPrintable(g: Grammar, vs: seq<Value>) {
    forall x <- vs :: Fits(g, x) && Encodable(g, x)
  }

  function PrintAll(g: Grammar, vs: seq<Value>): seq<byte>
    requires AllPrintable(g, vs)
    decreases g, |vs| + 1
  {
    if vs == [] then [] else Print(g, vs[0]) + PrintAll(g, vs[1..])
  }

  function Parse(g: Grammar, b: seq<byte>): Parsed
    decreases g, 0
  {
    match g
    case U16 => if |b| < 2 then Reject else Accept(Num(GetU16(b)), b[2..])
    case I16 => if |b| < 2 then Reject else Accept(Num(GetI16(b)), b[2..])
    case Status => if |b| < 2 || !KnownStatus(GetU16(b)) then Reject else Accept(Num(GetU16(b)), b[2..])
    case Acceptance => if |b| < 2 || !KnownAcceptance(GetU16(b)) then Reject else Accept(Num(GetU16(b)), b[2..])
    case String => (match ParseText(b) case BadText => Reject case GoodText(s, r) => Accept(Str(s), r))
    case Percentage => (match ParseRatio(b) case BadRatio => Reject case GoodRatio(n, r) => Accept(Num(n), r))
    case Blob =>
      if b == [] || |b| - 1 < b[0] then Reject else var n: int := b[0]; Accept(Str(b[1..n + 1]), b[n + 1..])
    case Both(g1, g2) =>
      (match Parse(g1, b)
       case Reject => Reject
       case Accept(x, r1) =>
         match Parse(g2, r1)
         case Reject => Reject
         case Accept(y, r2) => Accept(Pair(x, y), r2))
    case Counted(item) => if |b| < 2 then Reject else ParseAll(item, GetU16(b), b[2..])
  }

  function ParseAll(g: Grammar, n: nat, b: seq<byte>): (r: Parsed)
    ensures r.Accept? ==> r.value.List? && |r.value.items| == n
    decreases g, n + 1
  {
    if n == 0 then Accept(List([]), b)
    else match Parse(g, b)
      case Reject => Reject
      case Accept(x, r) => PutInFront([x], ParseAll(g, n - 1, r))
  }

  /** The result of reading a list after `xs` have already been read. */
  function PutInFront(xs: seq<Value>, p: Parsed): Parsed
    requires p.Accept? ==> p.value.List?
  {
    if p.Accept? then Accept(List(xs + p.value.items), p.rest) else Reject
  }

  // ---- Round trip ----------------------------------------------------------------------------------------------

  /**
   * Decoding what was encoded, with anything behind it, gives the value with its strings cut at NUL and exactly
   * what was behind it; it fails if and only if a status code is not one the decoder knows.
   */
  lemma {:induction false} RoundTrip(g: Grammar, v: Value, rest: seq<byte>)
    requires Fits(g, v) && Encodable(g, v)
    ensures Parse(g, Print(g, v) + rest) == ReadBack(g, v, rest)
    decreases g, 0
  {
    hide Print, Parse, PrintAll, ParseAll, ReadBack;
    match g {
      case Both(g1, g2) =>
        RoundTrip(g1, v.a, Print(g2, v.b) + rest);
        RoundTrip(g2, v.b, rest);
        BothRoundTrip(g1, g2, v, rest);
      case Counted(item) =>
        RoundTripAll(item, v.items, rest);
        CountedRoundTrip(item, v, rest);
      case _ => LeafRoundTrip(g, v, rest);
    }
  }

  function ReadBack(g: Grammar, v: Value, rest: seq<byte>): Parsed
    requires Fits(g, v)
  {
    if CodesKnown(g, v) then Accept(Trim(g, v), rest) else Reject
  }

  lemma LeafRoundTrip(g: Grammar, v: Value, rest: seq<byte>)
    requires !g.Both? && !g.Counted? && Fits(g, v) && Encodable(g, v)
    ensures Parse(g, Print(g, v) + rest) == ReadBack(g, v, rest)
  {
    hide ParseText, TextBytes, ParseRatio, RatioBytes, KnownStatus, KnownAcceptance, GetI16, PutI16;
    match g {
      case U16 | Status | Acceptance => U16RoundTrip(v.n, rest);
      case I16 => I16RoundTrip(v.n, rest);
      case String => TextRoundTrip(v.s, 0, rest);
      case Percentage => RatioRoundTrip(v.n, rest);
      case Blob =>
        var b := Print(Blob, v) + rest;
        assert b[1..|v.s| + 1] == v.s && b[|v.s| + 1..] == rest;
    }
  }

  lemma BothRoundTrip(g1: Grammar, g2: Grammar, v: Value, rest: seq<byte>)
    requires Fits(Both(g1, g2), v) && Encodable(Both(g1, g2), v)
    requires Parse(g1, Print(g1, v.a) + (Print(g2, v.b) + rest)) == ReadBack(g1, v.a, Print(g2, v.b) + rest)
    requires Parse(g2, Print(g2, v.b) + rest) == ReadBack(g2, v.b, rest)
    ensures Parse(Both(g1, g2), Print(Both(g1, g2), v) + rest) == ReadBack(Both(g1, g2), v, rest)
  {
    hide Print, Parse;
    PairPrinted(g1, g2, v.a, v.b);
    assert Print(g1, v.a) + Print(g2, v.b) + rest == Print(g1, v.a) + (Print(g2, v.b) + rest);
    PairParsed(g1, g2, Print(g1, v.a) + (Print(g2, v.b) + rest));
  }

  lemma CountedRoundTrip(item: Grammar, v: Value, rest: seq<byte>)
    requires Fits(Counted(item), v) && Encodable(Counted(item), v)
    requires ParseAll(item, |v.items|, PrintAll(item, v.items) + rest) == ReadBack(Counted(item), v, rest)
    ensures Parse(Counted(item), Print(Counted(item), v) + rest) == ReadBack(Counted(item), v, rest)
  {
    hide Print, Parse, ParseAll, PrintAll, ReadBack, PutU16, GetU16;
    var tail := PrintAll(item, v.items) + rest;
    CountedPrinted(item, v.items);
    assert PutU16(|v.items|) + PrintAll(item, v.items) + rest == PutU16(|v.items|) + tail;
    U16RoundTrip(|v.items|, tail);
    CountedParsed(item, PutU16(|v.items|) + tail);
    NothingInFront(ParseAll(item, |v.items|, tail));
  }

  lemma NothingInFront(p: Parsed)
    requires p.Accept? ==> p.value.List?
    ensures PutInFront([], p) == p
  {
  }

  lemma {:induction false} RoundTripAll(g: Grammar, vs: seq<Value>, rest: seq<byte>)
    requires AllPrintable(g, vs)
    ensures ParseAll(g, |vs|, PrintAll(g, vs) + rest) == ReadBack(Counted(g), List(vs), rest)
    decreases g, |vs| + 1
  {
    hide Fits, Encodable, Print, Parse, ReadBack;
    ReadBackFront(g, vs, rest);
    if vs == [] {
      assert PrintAll(g, vs) + rest == rest;
    } else {
      var x, xs := vs[0], vs[1..];
      var tail := PrintAll(g, xs) + rest;
      assert PrintAll(g, vs) + rest == Print(g, x) + tail;
      RoundTrip(g, x, tail);
      RoundTripAll(g, xs, rest);
      ReadBackItem(g, x, tail);
    }
  }

  lemma ReadBackItem(g: Grammar, x: Value, rest: seq<byte>)
    requires Fits(g, x)
    ensures ReadBack(g, x, rest) == if CodesKnown(g, x) then Accept(Trim(g, x), rest) else Reject
  {
  }

  lemma ReadBackFront(g: Grammar, vs: seq<Value>, rest: seq<byte>)
    requires forall x <- vs :: Fits(g, x)
    ensures Fits(Counted(g), List(vs)) && (vs != [] ==> Fits(Counted(g), List(vs[1..])))
    ensures vs == [] ==> ReadBack(Counted(g), List(vs), rest) == Accept(List([]), rest)
    ensures vs != [] ==>
              ReadBack(Counted(g), List(vs), rest) ==
              if CodesKnown(g, vs[0]) then PutInFront([Trim(g, vs[0])], ReadBack(Counted(g), List(vs[1..]), rest))
              else Reject
  {
    if vs != [] {
      assert vs == [vs[0]] + vs[1..];
      TrimFront(g, vs);
    }
  }

  lemma TrimFront(g: Grammar, vs: seq<Value>)
    requires vs != [] && forall x <- vs :: Fits(g, x)
    ensures Trim(Counted(g), List(vs)) == List([Trim(g, vs[0])] + Trim(Counted(g), List(vs[1..])).items)
  {
  }

  // ---- What the decoder accepts ----------------------------------------------------------------------------------

  /** Everything the decoder accepts is well-formed, uses known codes and has no NUL in its strings. */
  lemma {:induction false} Accepted(g: Grammar, b: seq<byte>)
    requires Parse(g, b).Accept?
    ensures var p := Parse(g, b);
            Fits(g, p.value) && CodesKnown(g, p.value) && NulFree(g, p.value)
    decreases g, 0
  {
    hide ParseText, ParseRatio, KnownStatus, KnownAcceptance, GetU16, GetI16;
    match g {
      case String => ParsedText(b);
      case Both(g1, g2) =>
        Accepted(g1, b);
        Accepted(g2, Parse(g1, b).rest);
      case Counted(item) => AcceptedAll(item, GetU16(b), b[2..]);
      case _ =>
    }
  }

  lemma {:induction false} AcceptedAll(g: Grammar, n: nat, b: seq<byte>)
    requires ParseAll(g, n, b).Accept?
    ensures var p := ParseAll(g, n, b);
            forall x <- p.value.items :: Fits(g, x) && CodesKnown(g, x) && NulFree(g, x)
    decreases g, n + 1
  {
    if n > 0 {
      Accepted(g, b);
      AcceptedAll(g, n - 1, Parse(g, b).rest);
    }
  }

  lemma NumberExtends(b: seq<byte>, more: seq<byte>)
    requires |b| >= 2
    ensures GetU16(b + more) == GetU16(b) && GetI16(b + more) == GetI16(b) && (b + more)[2..] == b[2..] + more
  {
  }

  lemma BlobExtends(b: seq<byte>, more: seq<byte>)
    requires Parse(Blob, b).Accept?
    ensures Parse(Blob, b + more) == Accept(Parse(Blob, b).value, Parse(Blob, b).rest + more)
  {
    var n: int := b[0];
    assert (b + more)[1..n + 1] == b[1..n + 1] && (b + more)[n + 1..] == b[n + 1..] + more;
  }

  /** Octets behind a body do not change how it is read, so no body is a proper prefix of another one. */
  lemma {:induction false} Extends(g: Grammar, b: seq<byte>, more: seq<byte>)
    requires Parse(g, b).Accept?
    ensures Parse(g, b + more) == Accept(Parse(g, b).value, Parse(g, b).rest + more)
    decreases g, 0
  {
    match g {
      case U16 | I16 | Status | Acceptance => NumberExtends(b, more);
      case String => TextExtends(b, more);
      case Percentage => RatioExtends(b, more);
      case Blob => BlobExtends(b, more);
      case Both(g1, g2) =>
        Extends(g1, b, more);
        Extends(g2, Parse(g1, b).rest, more);
      case Counted(item) =>
        NumberExtends(b, more);
        ExtendsAll(item, GetU16(b), b[2..], more);
    }
  }

  lemma {:induction false} ExtendsAll(g: Grammar, n: nat, b: seq<byte>, more: seq<byte>)
    requires ParseAll(g, n, b).Accept?
    ensures ParseAll(g, n, b + more) == Accept(ParseAll(g, n, b).value, ParseAll(g, n, b).rest + more)
    decreases g, n + 1
  {
    if n > 0 {
      Extends(g, b, more);
      ExtendsAll(g, n - 1, Parse(g, b).rest, more);
    }
  }

  lemma PrefixFree(g: Grammar, b: seq<byte>, more: seq<byte>)
    requires Parse(g, b).Accept? && Parse(g, b).rest == []
    requires Parse(g, b + more).Accept? && Parse(g, b + more).rest == []
    ensures more == []
  {
    Extends(g, b, more);
  }

  /** Different NUL-free values have different encodings, even when something follows them. */
  lemma PrintInjective(g: Grammar, v: Value, w: Value, rest: seq<byte>, rest': seq<byte>)
    requires Fits(g, v) && Encodable(g, v) && NulFree(g, v) && CodesKnown(g, v)
    requires Fits(g, w) && Encodable(g, w) && NulFree(g, w) && CodesKnown(g, w)
    requires Print(g, v) + rest == Print(g, w) + rest'
    ensures v == w && rest == rest'
  {
    RoundTrip(g, v, rest);
    RoundTrip(g, w, rest');
    TrimNulFree(g, v);
    TrimNulFree(g, w);
  }

  lemma {:induction false} TrimNulFree(g: Grammar, v: Value)
    requires Fits(g, v) && NulFree(g, v)
    ensures Trim(g, v) == v
  {
    match g {
      case String =>
      case Both(g1, g2) =>
        TrimNulFree(g1, v.a);
        TrimNulFree(g2, v.b);
      case Counted(item) =>
        forall x <- v.items ensures Trim(item, x) == x { TrimNulFree(item, x); }
        assert Trim(g, v).items == v.items;
      case _ =>
    }
  }

  // ---- Canonical form ----------------------------------------------------------------------------------------------

  /** Strings of 254 characters are the only thing the decoder accepts and the encoder refuses. */
  lemma {:induction false} ReencodableIff(g: Grammar, b: seq<byte>)
    requires Parse(g, b).Accept?
    ensures Fits(g, Parse(g, b).value)
    ensures Encodable(g, Parse(g, b).value) <==> !HasStringOf(g, Parse(g, b).value, 254)
    decreases g, 0
  {
    Accepted(g, b);
    match g {
      case String => DecodedTextEncodes(b);
      case Both(g1, g2) =>
        ReencodableIff(g1, b);
        ReencodableIff(g2, Parse(g1, b).rest);
      case Counted(item) => ReencodableAllIff(item, GetU16(b), b[2..]);
      case _ =>
    }
  }

  lemma {:induction false} ReencodableAllIff(g: Grammar, n: nat, b: seq<byte>)
    requires ParseAll(g, n, b).Accept?
    ensures forall x <- ParseAll(g, n, b).value.items ::
              Fits(g, x) && (Encodable(g, x) <==> !HasStringOf(g, x, 254))
    decreases g, n + 1
  {
    if n > 0 {
      ReencodableIff(g, b);
      ReencodableAllIff(g, n - 1, Parse(g, b).rest);
    }
  }

  /** Encoding again what was decoded never takes more octets than were read. */
  lemma {:induction false} ReencodingIsShort(g: Grammar, b: seq<byte>)
    requires Parse(g, b).Accept? && Fits(g, Parse(g, b).value) && Encodable(g, Parse(g, b).value)
    ensures |Print(g, Parse(g, b).value)| + |Parse(g, b).rest| <= |b|
    decreases g, 0
  {
    match g {
      case String => ParsedText(b);
      case Both(g1, g2) =>
        ReencodingIsShort(g1, b);
        ReencodingIsShort(g2, Parse(g1, b).rest);
      case Counted(item) => ReencodingAllIsShort(item, GetU16(b), b[2..]);
      case _ =>
    }
  }

  lemma {:induction false} ReencodingAllIsShort(g: Grammar, n: nat, b: seq<byte>)
    requires ParseAll(g, n, b).Accept? && AllPrintable(g, ParseAll(g, n, b).value.items)
    ensures |PrintAll(g, ParseAll(g, n, b).value.items)| + |ParseAll(g, n, b).rest| <= |b|
    decreases g, n + 1
  {
    if n > 0 {
      var p, q := ParseAll(g, n, b), ParseAll(g, n - 1, Parse(g, b).rest);
      assert p.value.items[0] == Parse(g, b).value && p.value.items[1..] == q.value.items;
      ReencodingIsShort(g, b);
      ReencodingAllIsShort(g, n - 1, Parse(g, b).rest);
    }
  }

  /** The re-encoded body is the canonical form: it is no longer, and it reads the same, whatever follows. */
  lemma Canonical(g: Grammar, b: seq<byte>)
    requires Parse(g, b).Accept? && Fits(g, Parse(g, b).value) && !HasStringOf(g, Parse(g, b).value, 254)
    ensures Encodable(g, Parse(g, b).value)
    ensures |Print(g, Parse(g, b).value)| + |Parse(g, b).rest| <= |b|
    ensures forall rest :: Parse(g, Print(g, Parse(g, b).value) + rest) == Accept(Parse(g, b).value, rest)
  {
    hide Print, Parse, Trim, NulFree, HasStringOf, CodesKnown, Fits, Encodable;
    var v := Parse(g, b).value;
    Accepted(g, b);
    ReencodableIff(g, b);
    ReencodingIsShort(g, b);
    TrimNulFree(g, v);
    forall rest ensures Parse(g, Print(g, v) + rest) == Accept(v, rest) { RoundTrip(g, v, rest); }
  }

  // ---- Sizes -------------------------------------------------------------------------------------------------------

  function MaxSize(g: Grammar): nat {
    match g
    case U16 | I16 | Status | Acceptance => 2
    case String => 255
    case Percentage => 3
    case Blob => 256
    case Both(g1, g2) => MaxSize(g1) + MaxSize(g2)
    case Counted(item) => 2 + 0xFFFF * MaxSize(item)
  }

  lemma Times(m: nat, n: nat, k: nat)
    requires m <= n
    ensures m * k <= n * k
  {
  }

  lemma {:induction false} SizeBound(g: Grammar, v: Value)
    requires Fits(g, v) && Encodable(g, v)
    ensures |Print(g, v)| <= MaxSize(g)
    decreases g, 0
  {
    match g {
      case Both(g1, g2) =>
        SizeBound(g1, v.a);
        SizeBound(g2, v.b);
      case Counted(item) =>
        SizeBoundAll(item, v.items);
        Times(|v.items|, 0xFFFF, MaxSize(item));
      case _ =>
    }
  }

  lemma {:induction false} SizeBoundAll(g: Grammar, vs: seq<Value>)
    requires AllPrintable(g, vs)
    ensures |PrintAll(g, vs)| <= |vs| * MaxSize(g)
    decreases g, |vs| + 1
  {
    if vs != [] {
      SizeBound(g, vs[0]);
      SizeBoundAll(g, vs[1..]);
      assert |vs| * MaxSize(g) == MaxSize(g) + (|vs| - 1) * MaxSize(g);
    }
  }

  /** Size of a list of equal entries. */
  lemma {:induction false} SizeOfCopies(g: Grammar, v: Value, n: nat)
    requires Fits(g, v) && Encodable(g, v)
    ensures |PrintAll(g, seq(n, _ => v))| == n * |Print(g, v)|
    decreases n
  {
    if n > 0 {
      SizeOfCopies(g, v, n - 1);
      assert seq(n, _ => v)[1..] == seq(n - 1, _ => v);
      assert n * |Print(g, v)| == |Print(g, v)| + (n - 1) * |Print(g, v)|;
    }
  }

  // ---- Lists grow at the end -----------------------------------------------------------------------------------------

  lemma {:induction false} PrintAllAppend(g: Grammar, vs: seq<Value>, v: Value)
    requires AllPrintable(g, vs) && Fits(g, v) && Encodable(g, v)
    ensures AllPrintable(g, vs + [v])
    ensures PrintAll(g, vs + [v]) == PrintAll(g, vs) + Print(g, v)
  {
    hide Fits, Encodable, Print;
    if vs == [] {
      assert [v][1..] == [];
      assert PrintAll(g, []) == [];
    } else {
      PrintAllAppend(g, vs[1..], v);
      assert (vs + [v])[1..] == vs[1..] + [v];
      assert (vs + [v])[0] == vs[0];
    }
  }

  lemma PrintAllStep(g: Grammar, vs: seq<Value>, i: nat)
    requires i < |vs| && AllPrintable(g, vs[..i]) && Fits(g, vs[i]) && Encodable(g, vs[i])
    ensures AllPrintable(g, vs[..i + 1])
    ensures PrintAll(g, vs[..i + 1]) == PrintAll(g, vs[..i]) + Print(g, vs[i])
  {
    PrintAllAppend(g, vs[..i], vs[i]);
    assert vs[..i + 1] == vs[..i] + [vs[i]];
  }

  /** A counted list is printed once all of its entries are, and cannot be printed if one of them cannot. */
  lemma CountedPrinted(g: Grammar, vs: seq<Value>)
    requires forall x <- vs :: Fits(g, x)
    ensures Fits(Counted(g), List(vs))
    ensures |vs| > 0xFFFF || !AllPrintable(g, vs) <==> !Encodable(Counted(g), List(vs))
    ensures Encodable(Counted(g), List(vs)) ==> Print(Counted(g), List(vs)) == PutU16(|vs|) + PrintAll(g, vs)
    ensures AllPrintable(g, vs[..0]) && PrintAll(g, vs[..0]) == []
  {
  }

  lemma PairPrinted(g1: Grammar, g2: Grammar, x: Value, y: Value)
    requires Fits(g1, x) && Fits(g2, y)
    ensures Fits(Both(g1, g2), Pair(x, y))
    ensures Encodable(Both(g1, g2), Pair(x, y)) <==> Encodable(g1, x) && Encodable(g2, y)
    ensures Encodable(g1, x) && Encodable(g2, y) ==> Print(Both(g1, g2), Pair(x, y)) == Print(g1, x) + Print(g2, y)
    ensures CodesKnown(Both(g1, g2), Pair(x, y)) <==> CodesKnown(g1, x) && CodesKnown(g2, y)
  {
  }

  lemma PairTaken(g1: Grammar, g2: Grammar, v: Value)
    requires Fits(Both(g1, g2), v) && CodesKnown(Both(g1, g2), v)
    ensures v.Pair? && Fits(g1, v.a) && Fits(g2, v.b) && CodesKnown(g1, v.a) && CodesKnown(g2, v.b)
  {
  }

  lemma LeafPrinted(v: Value)
    ensures v.Num? && 0 <= v.n < 0x1_0000 ==>
              && Fits(U16, v) && Encodable(U16, v) && Print(U16, v) == PutU16(v.n)
              && Fits(Status, v) && Encodable(Status, v) && Print(Status, v) == PutU16(v.n)
    ensures v.Num? && -0x8000 <= v.n < 0x8000 ==> Fits(I16, v) && Encodable(I16, v) && Print(I16, v) == PutI16(v.n)
    ensures v.Num? && 0 <= v.n <= 100 ==>
              Fits(Percentage, v) && Encodable(Percentage, v) && Print(Percentage, v) == RatioBytes(v.n)
    ensures v.Str? ==> Fits(String, v) && (Encodable(String, v) <==> TextFits(v.s, 0))
    ensures v.Str? && TextFits(v.s, 0) ==> Print(String, v) == TextBytes(v.s, 0)
  {
    hide PutU16, PutI16, RatioBytes, TextBytes, TextFits;
  }

  lemma PairParsed(g1: Grammar, g2: Grammar, b: seq<byte>)
    ensures Parse(g1, b) == Reject ==> Parse(Both(g1, g2), b) == Reject
    ensures Parse(g1, b).Accept? ==>
              var r := Parse(g1, b).rest;
              && (Parse(g2, r) == Reject ==> Parse(Both(g1, g2), b) == Reject)
              && (Parse(g2, r).Accept? ==>
                    Parse(Both(g1, g2), b) == Accept(Pair(Parse(g1, b).value, Parse(g2, r).value), Parse(g2, r).rest))
  {
    hide ParseAll, ParseText, ParseRatio, KnownStatus, KnownAcceptance, GetU16, GetI16;
  }

  lemma LeafParsed(b: seq<byte>)
    ensures Parse(U16, b) == if |b| < 2 then Reject else Accept(Num(GetU16(b)), b[2..])
    ensures Parse(I16, b) == if |b| < 2 then Reject else Accept(Num(GetI16(b)), b[2..])
    ensures Parse(Status, b) ==
            if |b| < 2 || !KnownStatus(GetU16(b)) then Reject else Accept(Num(GetU16(b)), b[2..])
    ensures var t := ParseText(b); Parse(String, b) == if t.BadText? then Reject else Accept(Str(t.s), t.rest)
    ensures var r := ParseRatio(b);
            Parse(Percentage, b) == if r.BadRatio? then Reject else Accept(Num(r.value), r.rest)
  {
    hide ParseText, ParseRatio, KnownStatus;
  }

  lemma CountedParsed(g: Grammar, b: seq<byte>)
    ensures Parse(Counted(g), b) == if |b| < 2 then Reject else PutInFront([], ParseAll(g, GetU16(b), b[2..]))
  {
  }

  lemma ParseAllStep(g: Grammar, done: seq<Value>, n: nat, b: seq<byte>)
    requires n > 0
    ensures PutInFront(done, ParseAll(g, n, b)) ==
            match Parse(g, b)
            case Reject => Reject
            case Accept(x, r) => PutInFront(done + [x], ParseAll(g, n - 1, r))
  {
    if Parse(g, b).Accept? {
      var p := ParseAll(g, n - 1, Parse(g, b).rest);
      if p.Accept? {
        assert done + ([Parse(g, b).value] + p.value.items) == done + [Parse(g, b).value] + p.value.items;
      }
    }
  }

  lemma ParseAllDone(g: Grammar, done: seq<Value>, b: seq<byte>)
    ensures PutInFront(done, ParseAll(g, 0, b)) == Accept(List(done), b)
  {
    assert done + [] == done;
  }
}

/** The protocol file types: a six-octet header (file size, protocol version) and a body. */
module Files {
  import opened Bytes
  import opened Text
  import opened Grammar

  const HEADER_SIZE := 6

  const VERSION_A3: uint16 := 0x4133
  const VERSION_A4: uint16 := 0x4134

  predicate Supported(version: uint16) {
    version == VERSION_A3 || version == VERSION_A4
  }

  datatype FileKind =
    | INIT   // LCI, LUI, LND and LNO
    | LCL | LCS
    | LUR | LUS
    | LNR | LNL | LNA | LNS

  function PartNumber(): Grammar { Both(String, Both(String, String)) }
  function TargetHardware(): Grammar { Both(String, Both(String, Counted(PartNumber()))) }
  function LoadStatus(): Grammar { Both(String, Both(String, Both(Percentage, Both(Status, String)))) }
  function FileStatus(): Grammar { Both(String, Both(Status, String)) }

  /** Code, description, counter, exception timer, estimated time, list ratio, then the entries. */
  function StatusList(entry: Grammar): Grammar {
    Both(Status, Both(String, Both(U16, Both(U16, Both(I16, Both(Percentage, Counted(entry)))))))
  }

  function Body(k: FileKind): Grammar {
    match k
    case INIT => Both(Acceptance, String)
    case LCL => Counted(TargetHardware())
    case LCS => Both(U16, Both(Status, Both(U16, Both(I16, String))))
    case LUR => Counted(Both(String, String))
    case LUS => StatusList(LoadStatus())
    case LNR => Both(Counted(String), Blob)
    case LNL => Counted(Both(String, String))
    case LNA => Counted(String)
    case LNS => StatusList(FileStatus())
  }

  /** The decoders refuse anything shorter before they look at it. */
  function MinimumSize(k: FileKind): nat {
    match k
    case INIT => HEADER_SIZE + 3
    case LCL => HEADER_SIZE + 13
    case LCS | LUS | LNS => HEADER_SIZE + 9
    case LNR => HEADER_SIZE + 3
    case LUR | LNL | LNA => HEADER_SIZE + 2
  }

  function HeaderOf(size: nat, version: uint16): (h: seq<byte>)
    ensures |h| == HEADER_SIZE
  {
    PutU32(size % 0x1_0000_0000) + PutU16(version)
  }

  /** Fills in the header in front of a body that is already in its place. */
  method InsertHeader(rawData: array<byte>, version: uint16)
    requires rawData.Length >= HEADER_SIZE
    modifies rawData
    ensures rawData[..] == HeaderOf(rawData.Length, version) + old(rawData[HEADER_SIZE..])
  {
    var size := PutU32(rawData.Length % 0x1_0000_0000);
    rawData[0], rawData[1], rawData[2], rawData[3] := size[0], size[1], size[2], size[3];
    var number := PutU16(version);
    rawData[4], rawData[5] := number[0], number[1];
    assert rawData[..4] == size && rawData[4..6] == number;
    assert rawData[HEADER_SIZE..] == old(rawData[HEADER_SIZE..]);
    assert rawData[..] == rawData[..4] + rawData[4..6] + rawData[HEADER_SIZE..];
  }

  /** The last step of every encoder. */
  method AddHeader(body: seq<byte>, version: uint16) returns (file: seq<byte>)
    ensures file == HeaderOf(HEADER_SIZE + |body|, version) + body
  {
    var raw := new byte[HEADER_SIZE + |body|](i =>
      if HEADER_SIZE <= i < HEADER_SIZE + |body| then body[i - HEADER_SIZE] else 0);
    assert raw[HEADER_SIZE..] == body;
    InsertHeader(raw, version);
    file := raw[..];
  }

  /** A whole file; `None` is the exception of an encoder. */
  function EncodeFile(k: FileKind, version: uint16, v: Value): Option<seq<byte>>
    requires Fits(Body(k), v)
  {
    if Encodable(Body(k), v) then
      var body := Print(Body(k), v);
      Some(HeaderOf(HEADER_SIZE + |body|, version) + body)
    else
      None
  }

  datatype File = File(version: uint16, value: Value)

  /** The version in the header, if size field and version are acceptable. */
  function DecodeHeader(b: seq<byte>): Option<uint16> {
    if |b| < HEADER_SIZE || GetU32(b) != |b| || !Supported(GetU16(b[4..])) then None else Some(GetU16(b[4..]))
  }

  /** `None` is the exception of a decoder. */
  function DecodeFile(k: FileKind, b: seq<byte>): Option<File> {
    if |b| < MinimumSize(k) then None
    else match DecodeHeader(b)
      case None => None
      case Some(version) =>
        match Parse(Body(k), b[HEADER_SIZE..])
        case Reject => None
        case Accept(v, rest) => if rest == [] then Some(File(version, v)) else None
  }

  lemma HeaderRoundTrip(size: nat, version: uint16, body: seq<byte>)
    requires size == HEADER_SIZE + |body|
    ensures DecodeHeader(HeaderOf(size, version) + body) ==
            if size < 0x1_0000_0000 && Supported(version) then Some(version) else None
  {
  }

  /**
   * Decoding an encoded file of any type gives back its version and its value (strings cut at NUL), if and only if
   * the version is A3 or A4, all codes are known, and the size is at least the decoder's minimum and below 2^32.
   */
  lemma FileRoundTrip(k: FileKind, version: uint16, v: Value)
    requires Fits(Body(k), v) && Encodable(Body(k), v)
    ensures var b := EncodeFile(k, version, v).value;
            DecodeFile(k, b) ==
            if Supported(version) && CodesKnown(Body(k), v) && MinimumSize(k) <= |b| < 0x1_0000_0000
            then Some(File(version, Trim(Body(k), v)))
            else None
  {
    hide Fits, Encodable, CodesKnown, Trim, Print, Parse, DecodeHeader, HeaderOf, Supported;
    var body := Print(Body(k), v);
    var b := EncodeFile(k, version, v).value;
    assert b[HEADER_SIZE..] == body;
    HeaderRoundTrip(HEADER_SIZE + |body|, version, body);
    RoundTrip(Body(k), v, []);
    assert body + [] == body;
  }

  /** Every type but the load configuration list has room for its smallest value. */
  lemma MinimumIsMet(k: FileKind, version: uint16, v: Value)
    requires k != LCL && Fits(Body(k), v) && Encodable(Body(k), v)
    ensures |EncodeFile(k, version, v).value| >= MinimumSize(k)
  {
    match k {
      case INIT => SmallestPair(Acceptance, String, v);
      case LCS =>
        SmallestPair(U16, Both(Status, Both(U16, Both(I16, String))), v);
        SmallestPair(Status, Both(U16, Both(I16, String)), v.b);
        SmallestPair(U16, Both(I16, String), v.b.b);
        SmallestPair(I16, String, v.b.b.b);
      case LUS => SmallestStatusList(LoadStatus(), v);
      case LNS => SmallestStatusList(FileStatus(), v);
      case _ =>
    }
  }

  lemma SmallestPair(g1: Grammar, g2: Grammar, v: Value)
    requires Fits(Both(g1, g2), v) && Encodable(Both(g1, g2), v)
    ensures |Print(Both(g1, g2), v)| == |Print(g1, v.a)| + |Print(g2, v.b)|
    ensures g2 == String ==> |Print(g2, v.b)| >= 1
  {
  }

  lemma SmallestStatusList(entry: Grammar, v: Value)
    requires Fits(StatusList(entry), v) && Encodable(StatusList(entry), v)
    ensures |Print(StatusList(entry), v)| >= 14
  {
    var g5 := Both(Percentage, Counted(entry));
    var g4 := Both(I16, g5);
    var g3 := Both(U16, g4);
    var g2 := Both(U16, g3);
    SmallestPair(Status, Both(String, g2), v);
    SmallestPair(String, g2, v.b);
    SmallestPair(U16, g3, v.b.b);
    SmallestPair(U16, g4, v.b.b.b);
    SmallestPair(I16, g5, v.b.b.b.b);
    SmallestPair(Percentage, Counted(entry), v.b.b.b.b.b);
  }

  // ---- Sizes and the 32-bit length field ---------------------------------------------------------------------------

  /** The length field of every type but the load configuration list holds the true size. */
  lemma LengthNeverTruncates(k: FileKind, version: uint16, v: Value)
    requires k != LCL && Fits(Body(k), v) && Encodable(Body(k), v)
    ensures |EncodeFile(k, version, v).value| < 0x1_0000_0000
    ensures GetU32(EncodeFile(k, version, v).value) == |EncodeFile(k, version, v).value|
  {
    SizeBound(Body(k), v);
    MaxSizes(k);
    LengthField(Print(Body(k), v), version);
  }

  lemma LengthField(body: seq<byte>, version: uint16)
    requires HEADER_SIZE + |body| < 0x1_0000_0000
    ensures GetU32(HeaderOf(HEADER_SIZE + |body|, version) + body) == HEADER_SIZE + |body|
  {
  }

  lemma MaxSizes(k: FileKind)
    requires k != LCL
    ensures HEADER_SIZE + MaxSize(Body(k)) < 0x1_0000_0000
  {
    match k {
      case LUS =>
        assert MaxSize(LoadStatus()) == 770 by {
          assert MaxSize(Both(Percentage, Both(Status, String))) == 260;
          assert MaxSize(Both(String, Both(Percentage, Both(Status, String)))) == 515;
        }
        MaxStatusList(LoadStatus());
      case LNS =>
        assert MaxSize(FileStatus()) == 512 by {
          assert MaxSize(Both(Status, String)) == 257;
        }
        MaxStatusList(FileStatus());
      case LCS =>
        assert MaxSize(Both(I16, String)) == 257;
        assert MaxSize(Both(U16, Both(I16, String))) == 259;
        assert MaxSize(Both(Status, Both(U16, Both(I16, String)))) == 261;
      case LUR | LNL => assert MaxSize(Both(String, String)) == 510;
      case LNR => assert MaxSize(Counted(String)) == 2 + 0xFFFF * 255;
      case LNA => assert MaxSize(String) == 255;
      case INIT =>
    }
  }

  lemma MaxStatusList(entry: Grammar)
    ensures MaxSize(StatusList(entry)) == 268 + 0xFFFF * MaxSize(entry)
  {
    var list := Counted(entry);
    assert MaxSize(Both(Percentage, list)) == 3 + MaxSize(list);
    assert MaxSize(Both(I16, Both(Percentage, list))) == 5 + MaxSize(list);
    assert MaxSize(Both(U16, Both(I16, Both(Percentage, list)))) == 7 + MaxSize(list);
    assert MaxSize(Both(U16, Both(U16, Both(I16, Both(Percentage, list))))) == 9 + MaxSize(list);
    assert MaxSize(Both(String, Both(U16, Both(U16, Both(I16, Both(Percentage, list)))))) == 264 + MaxSize(list);
  }

  function EmptyPartNumber(): Value { Pair(Str([]), Pair(Str([]), Str([]))) }

  function NamelessTarget(parts: nat): Value {
    Pair(Str([]), Pair(Str([]), List(seq(parts, _ => EmptyPartNumber()))))
  }

  /** As many targets as the counter allows, each with as many nameless parts as its counter allows. */
  function HugeConfiguration(): Value { List(seq(0xFFFF, _ => NamelessTarget(0xFFFF))) }

  lemma SizeOfEmptyPartNumber()
    ensures Fits(PartNumber(), EmptyPartNumber()) && Encodable(PartNumber(), EmptyPartNumber())
    ensures |Print(PartNumber(), EmptyPartNumber())| == 3
  {
  }

  lemma SizeOfNamelessTarget(parts: nat)
    requires parts <= 0xFFFF
    ensures Fits(TargetHardware(), NamelessTarget(parts)) && Encodable(TargetHardware(), NamelessTarget(parts))
    ensures |Print(TargetHardware(), NamelessTarget(parts))| == 4 + 3 * parts
  {
    var target := NamelessTarget(parts);
    var list := Counted(PartNumber());
    SizeOfEmptyPartNumber();
    assert Fits(list, target.b.b) && Encodable(list, target.b.b);
    SizeOfCopies(PartNumber(), EmptyPartNumber(), parts);
    assert |Print(list, target.b.b)| == 2 + 3 * parts;
    assert Fits(Both(String, list), target.b) && Encodable(Both(String, list), target.b);
    SmallestPair(String, list, target.b);
    SmallestPair(String, Both(String, list), target);
  }

  lemma SizeOfNamelessTargets(parts: nat, targets: nat)
    requires parts <= 0xFFFF && targets <= 0xFFFF
    ensures var v := List(seq(targets, _ => NamelessTarget(parts)));
            && Fits(Body(LCL), v) && Encodable(Body(LCL), v)
            && |Print(Body(LCL), v)| == 2 + targets * (4 + 3 * parts)
  {
    SizeOfNamelessTarget(parts);
    SizeOfCopies(TargetHardware(), NamelessTarget(parts), targets);
  }

  /** The load configuration list can outgrow its length field: the encoder then produces a file nobody accepts. */
  lemma LengthCanTruncate(version: uint16)
    ensures Fits(Body(LCL), HugeConfiguration()) && Encodable(Body(LCL), HugeConfiguration())
    ensures |EncodeFile(LCL, version, HugeConfiguration()).value| >= 0x1_0000_0000
    ensures DecodeFile(LCL, EncodeFile(LCL, version, HugeConfiguration()).value) == None
  {
    SizeOfNamelessTargets(0xFFFF, 0xFFFF);
    FileRoundTrip(LCL, version, HugeConfiguration());
  }

  // ---- Accepted files ----------------------------------------------------------------------------------------------

  /** The header of a file of this size in version A3 or A4, octet by octet. */
  predicate HasHeader(b: seq<byte>) {
    && |b| >= 6
    && Word(b, 0) * 0x1_0000 + Word(b, 2) == |b|
    && (Word(b, 4) == 0x4133 || Word(b, 4) == 0x4134)
  }

  lemma HeaderAccepted(b: seq<byte>)
    ensures DecodeHeader(b).Some? <==> HasHeader(b)
    ensures DecodeHeader(b).Some? ==> DecodeHeader(b).value == Word(b, 4)
  {
  }

  /** The header, and behind it a body with nothing left. */
  predicate WellFormed(k: FileKind, b: seq<byte>) {
    HasHeader(b) && |b| >= MinimumSize(k) && Parse(Body(k), b[6..]).Accept? && Parse(Body(k), b[6..]).rest == []
  }

  /**
   * Over all octets: a file is accepted exactly when it has the minimum size, its first four octets are its size, the
   * version in the next two is A3 or A4, and the rest is a body with nothing left.
   */
  lemma AcceptedIff(k: FileKind, b: seq<byte>)
    ensures DecodeFile(k, b).Some? <==> WellFormed(k, b)
    ensures WellFormed(k, b) ==> DecodeFile(k, b) == Some(File(Word(b, 4), Parse(Body(k), b[6..]).value))
  {
    hide Parse, DecodeHeader, Body, HasHeader;
    HeaderAccepted(b);
  }

  /** So the first six octets of an accepted file are those that an encoder writes for its size and version. */
  lemma AcceptedHeader(k: FileKind, b: seq<byte>)
    requires DecodeFile(k, b).Some?
    ensures |b| < 0x1_0000_0000 && b[..6] == HeaderOf(|b|, DecodeFile(k, b).value.version)
  {
    hide Parse, Body, DecodeFile, PutU16, GetU16;
    AcceptedIff(k, b);
    WordOctets(b, 0);
    WordOctets(b, 2);
    WordOctets(b, 4);
    assert b[..6] == b[0..2] + b[2..4] + b[4..6];
  }

  lemma WordOctets(b: seq<byte>, i: nat)
    requires i + 2 <= |b|
    ensures 0 <= Word(b, i) < 0x1_0000 && PutU16(Word(b, i)) == b[i..i + 2]
  {
  }

  /** No accepted file, of whatever type, is a proper prefix of another: none stays accepted with more or fewer octets. */
  lemma AcceptedHasItsSize(k: FileKind, b: seq<byte>, k': FileKind, b': seq<byte>)
    requires DecodeFile(k, b).Some? && DecodeFile(k', b').Some? && b <= b'
    ensures b == b'
  {
    hide Parse, DecodeHeader, Body, DecodeFile;
    AcceptedIff(k, b);
    AcceptedIff(k', b');
    assert b[0] == b'[0] && b[1] == b'[1] && b[2] == b'[2] && b[3] == b'[3];
  }

  /** No accepted body is a proper prefix of another accepted body of the same type. */
  lemma BodiesPrefixFree(k: FileKind, b: seq<byte>, b': seq<byte>)
    requires DecodeFile(k, b).Some? && DecodeFile(k, b').Some?
    requires b[HEADER_SIZE..] <= b'[HEADER_SIZE..]
    ensures b[HEADER_SIZE..] == b'[HEADER_SIZE..]
  {
    var short, long := b[HEADER_SIZE..], b'[HEADER_SIZE..];
    var more := long[|short|..];
    assert long == short + more;
    PrefixFree(Body(k), short, more);
  }

  /** Encoders are injective on NUL-free values with known codes. */
  lemma EncodersInjective(k: FileKind, version: uint16, v: Value, version': uint16, v': Value)
    requires Fits(Body(k), v) && Encodable(Body(k), v) && NulFree(Body(k), v) && CodesKnown(Body(k), v)
    requires Fits(Body(k), v') && Encodable(Body(k), v') && NulFree(Body(k), v') && CodesKnown(Body(k), v')
    requires EncodeFile(k, version, v) == EncodeFile(k, version', v')
    ensures version == version' && v == v'
  {
    var g := Body(k);
    var b := EncodeFile(k, version, v).value;
    assert b[HEADER_SIZE..] == Print(g, v) == Print(g, v');
    PrintInjective(g, v, v', [], []);
    var size := PutU32(|b| % 0x1_0000_0000);
    assert b[4..] == PutU16(version) + Print(g, v) == PutU16(version') + Print(g, v');
    U16RoundTrip(version, Print(g, v));
    U16RoundTrip(version', Print(g, v'));
  }

  /**
   * A file that was accepted can be encoded again if and only if none of its strings has 254 characters. The result
   * is no longer than the file, and decodes to the same content if and only if it still has the minimum size, which
   * only a load configuration list can lose.
   */
  lemma CanonicalFile(k: FileKind, b: seq<byte>)
    requires DecodeFile(k, b).Some?
    ensures var File(version, v) := DecodeFile(k, b).value;
            && Fits(Body(k), v)
            && (EncodeFile(k, version, v).Some? <==> !HasStringOf(Body(k), v, 254))
            && (EncodeFile(k, version, v).Some? ==>
                  var b' := EncodeFile(k, version, v).value;
                  && |b'| <= |b|
                  && (DecodeFile(k, b') == DecodeFile(k, b) <==> |b'| >= MinimumSize(k))
                  && (k != LCL ==> |b'| >= MinimumSize(k)))
  {
    hide Fits, Encodable, HasStringOf, Print, Parse, CodesKnown, Trim, NulFree;
    var File(version, v) := DecodeFile(k, b).value;
    var body := b[HEADER_SIZE..];
    Accepted(Body(k), body);
    ReencodableIff(Body(k), body);
    if EncodeFile(k, version, v).Some? {
      Canonical(Body(k), body);
      FileRoundTrip(k, version, v);
      TrimNulFree(Body(k), v);
      if k != LCL {
        MinimumIsMet(k, version, v);
      }
    }
  }

  /** One nameless target, its literal name padded to seven octets. */
  function PaddedList(): seq<byte> {
    var body := PutU16(1) + (TextBytes([], 7) + (TextBytes([], 0) + PutU16(0)));
    HeaderOf(HEADER_SIZE + |body|, VERSION_A4) + body
  }

  /** A list with one nameless target is accepted when a string is padded, but not in its canonical form. */
  lemma CanonicalListCanBeTooShort()
    ensures var v := List(seq(1, _ => NamelessTarget(0)));
            && Fits(Body(LCL), v) && Encodable(Body(LCL), v)
            && DecodeFile(LCL, PaddedList()) == Some(File(VERSION_A4, v))
            && DecodeFile(LCL, EncodeFile(LCL, VERSION_A4, v).value) == None
  {
    var target := NamelessTarget(0);
    var padded := TextBytes([], 7) + (TextBytes([], 0) + PutU16(0));
    var body := PutU16(1) + padded;
    var v := List(seq(1, _ => target));
    TextRoundTrip([], 7, TextBytes([], 0) + PutU16(0));
    TextRoundTrip([], 0, PutU16(0));
    assert target.b.b == List([]);
    assert Parse(Counted(PartNumber()), PutU16(0)) == Accept(List([]), []);
    assert Parse(Both(String, Counted(PartNumber())), TextBytes([], 0) + PutU16(0)) == Accept(target.b, []);
    assert Parse(TargetHardware(), padded) == Accept(target, []);
    U16RoundTrip(1, padded);
    assert body[2..] == padded;
    assert ParseAll(TargetHardware(), 0, []) == Accept(List([]), []);
    assert v.items == [target] + [];
    assert ParseAll(TargetHardware(), 1, padded) == Accept(v, []);
    HeaderRoundTrip(HEADER_SIZE + |body|, VERSION_A4, body);
    assert PaddedList()[HEADER_SIZE..] == body;
    SizeOfNamelessTargets(0, 1);
    FileRoundTrip(LCL, VERSION_A4, v);
  }
}

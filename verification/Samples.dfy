/**
 * Three example files, octet by octet. The first two fix what round trips leave open: the order, the width and the
 * form of the fields. The third is accepted and cannot be encoded.
 */
module Samples {
  import opened Bytes
  import opened Text
  import opened Ratio
  import opened Grammar
  import opened Files
  import opened ListFiles
  import opened StatusFiles

  const HF_1: Chars := [0x48, 0x46, 0x5F, 0x31]
  const HF_2: Chars := [0x48, 0x46, 0x5F, 0x32]
  const PN_1: Chars := [0x50, 0x4E, 0x5F, 0x31]
  const PN_2: Chars := [0x50, 0x4E, 0x5F, 0x32]
  const FILE_1: Chars := [0x46, 0x49, 0x4C, 0x45, 0x5F, 0x31]
  const FILE_2: Chars := [0x46, 0x49, 0x4C, 0x45, 0x5F, 0x32]
  const XXX: Chars := [0x58, 0x58, 0x58]
  const YYY: Chars := [0x59, 0x59, 0x59]
  const ZZZ: Chars := [0x5A, 0x5A, 0x5A]

  /** A string of one to 253 characters on the wire. */
  function OnTheWire(s: Chars): seq<byte>
    requires 0 < |s| <= 253
  {
    var size: byte := |s| + 1;
    [size] + s + [0]
  }

  lemma TextOnTheWire(s: Chars)
    requires 0 < |s| <= 253
    ensures TextFits(s, 0) && TextBytes(s, 0) == OnTheWire(s)
  {
  }

  lemma TwoEntries(g: Grammar, x: Value, y: Value)
    requires Fits(g, x) && Fits(g, y) && Encodable(g, x) && Encodable(g, y)
    ensures var v := List([x, y]);
            && Fits(Counted(g), v) && Encodable(Counted(g), v)
            && Print(Counted(g), v) == [0, 2] + Print(g, x) + Print(g, y)
  {
    hide Fits, Encodable, Print, PrintAll;
    var vs := [x, y];
    CountedPrinted(g, vs);
    assert vs[..0] == [] && vs[..1] == [x] && vs[..2] == vs;
    PrintAllStep(g, vs, 0);
    PrintAllStep(g, vs, 1);
  }

  /** The file around a body that is shorter than 256 octets. */
  lemma FileAround(k: FileKind, v: Value, body: seq<byte>)
    requires Fits(Body(k), v) && Encodable(Body(k), v) && Print(Body(k), v) == body && |body| < 250
    ensures var size: byte := HEADER_SIZE + |body|;
            EncodeFile(k, VERSION_A4, v) == Some([0, 0, 0, size, 0x41, 0x34] + body)
  {
    hide Fits, Encodable, Print, HeaderOf;
    HeaderOctets(HEADER_SIZE + |body|);
  }

  lemma HeaderOctets(size: byte)
    ensures HeaderOf(size, VERSION_A4) == [0, 0, 0, size, 0x41, 0x34]
  {
  }

  lemma UploadRequestSample()
    ensures var v := LoadsValue([Load(HF_1, PN_1), Load(HF_2, PN_2)]);
            && Fits(Body(LUR), v)
            && EncodeFile(LUR, VERSION_A4, v) ==
               Some([0, 0, 0, 32, 0x41, 0x34] + ([0, 2] + (OnTheWire(HF_1) + OnTheWire(PN_1)) + (OnTheWire(HF_2) + OnTheWire(PN_2))))
  {
    hide Fits, Encodable, Print, PrintAll, TextBytes, TextFits, EncodeFile;
    var l1, l2 := Load(HF_1, PN_1), Load(HF_2, PN_2);
    TextOnTheWire(HF_1);
    TextOnTheWire(HF_2);
    TextOnTheWire(PN_1);
    TextOnTheWire(PN_2);
    LoadPrinted(l1);
    LoadPrinted(l2);
    TwoEntries(Both(String, String), l1.ToValue(), l2.ToValue());
    assert LoadListValues([l1, l2]) == [l1.ToValue(), l2.ToValue()];
    FileAround(LUR, LoadsValue([l1, l2]), Print(Body(LUR), LoadsValue([l1, l2])));
  }

  /** Code, description, counter, exception timer, estimated time, ratio, number of files; then the files. */
  lemma DownloadStatusSample()
    ensures var files := [FileEntry(FILE_1, OPERATION_IN_PROGRESS, YYY), FileEntry(FILE_2, OPERATION_COMPLETED, ZZZ)];
            var v := StatusValue(Head(OPERATION_IN_PROGRESS, XXX, 1, 0, -1, 10), FileValues(files));
            && Fits(Body(LNS), v)
            && EncodeFile(LNS, VERSION_A4, v) ==
               Some([0, 0, 0, 54, 0x41, 0x34]
                    + ([0x00, 0x02] + OnTheWire(XXX) + ([0x00, 0x01] + [0x00, 0x00] + [0xFF, 0xFF]) + [0x20, 0x31, 0x30]
                       + ([0, 2] + (OnTheWire(FILE_1) + ([0x00, 0x02] + OnTheWire(YYY)))
                          + (OnTheWire(FILE_2) + ([0x00, 0x03] + OnTheWire(ZZZ))))))
  {
    hide Fits, Encodable, Print, PrintAll, TextBytes, TextFits, EncodeFile;
    var e1, e2 := FileEntry(FILE_1, OPERATION_IN_PROGRESS, YYY), FileEntry(FILE_2, OPERATION_COMPLETED, ZZZ);
    TextOnTheWire(XXX);
    TextOnTheWire(YYY);
    TextOnTheWire(ZZZ);
    TextOnTheWire(FILE_1);
    TextOnTheWire(FILE_2);
    EntryPrinted(e1);
    EntryPrinted(e2);
    TwoEntries(FileStatus(), e1.ToValue(), e2.ToValue());
    assert FileValues([e1, e2]) == [e1.ToValue(), e2.ToValue()];
    var h := Head(OPERATION_IN_PROGRESS, XXX, 1, 0, -1, 10);
    StatusPrinted(FileStatus(), h, FileValues([e1, e2]));
    assert RatioBytes(10) == [0x20, 0x31, 0x30];
    FileAround(LNS, StatusValue(h, FileValues([e1, e2])), Print(Body(LNS), StatusValue(h, FileValues([e1, e2]))));
  }

  // ---- A file that is accepted but cannot be encoded -------------------------------------------------------------------------

  /** A download status with this description and no files. */
  function LongStatusBody(s: Chars): seq<byte>
    requires |s| == 254
  {
    PutU16(OPERATION_IN_PROGRESS) + (LongestText(s)
      + (PutU16(0) + (PutU16(0) + (PutI16(0) + (RatioBytes(0) + PutU16(0))))))
  }

  function LongStatusFile(s: Chars): seq<byte>
    requires |s| == 254
  {
    HeaderOf(HEADER_SIZE + |LongStatusBody(s)|, VERSION_A4) + LongStatusBody(s)
  }

  /** What follows the description, as the encoder would write it. */
  lemma LongStatusTail(h: Head)
    requires h.description == [] && h.counter == h.exceptionTimer == h.estimatedTime == h.listRatio == 0
    ensures var tail := PutU16(0) + (PutU16(0) + (PutI16(0) + (RatioBytes(0) + PutU16(0))));
            Parse(Tail(FileStatus(), 2), tail) == Accept(StatusValue(h, []).b.b, [])
  {
    hide Parse, Print, Encodable, Fits, Trim, CodesKnown, ReadBack, PutU16, PutI16, RatioBytes;
    var v := StatusValue(h, []).b.b;
    var g := FileStatus();
    CountedPrinted(g, []);
    EmptyList(g);
    LeafPrinted(v.a);
    LeafPrinted(v.b.a);
    LeafPrinted(v.b.b.a);
    LeafPrinted(v.b.b.b.a);
    PairPrinted(Percentage, Tail(g, 6), v.b.b.b.a, v.b.b.b.b);
    PairPrinted(I16, Tail(g, 5), v.b.b.a, v.b.b.b);
    PairPrinted(U16, Tail(g, 4), v.b.a, v.b.b);
    PairPrinted(U16, Tail(g, 3), v.a, v.b);
    RoundTrip(Tail(g, 2), v, []);
    assert Print(Tail(g, 2), v) + [] == Print(Tail(g, 2), v);
    NoCodesNoText(v, g);
  }

  lemma EmptyList(g: Grammar)
    ensures Fits(Counted(g), List([])) && Encodable(Counted(g), List([])) && Print(Counted(g), List([])) == PutU16(0)
    ensures CodesKnown(Counted(g), List([])) && Trim(Counted(g), List([])) == List([])
  {
  }

  lemma NoCodesNoText(v: Value, g: Grammar)
    requires v == Pair(Num(0), Pair(Num(0), Pair(Num(0), Pair(Num(0), List([])))))
    ensures Fits(Tail(g, 2), v) && ReadBack(Tail(g, 2), v, []) == Accept(v, [])
  {
    hide Fits, CodesKnown, Trim;
    EmptyList(g);
    ZeroUnchanged();
    PairUnchanged(Percentage, Tail(g, 6), Num(0), List([]));
    PairUnchanged(I16, Tail(g, 5), Num(0), v.b.b.b);
    PairUnchanged(U16, Tail(g, 4), Num(0), v.b.b);
    PairUnchanged(U16, Tail(g, 3), Num(0), v.b);
  }

  lemma ZeroUnchanged()
    ensures forall g <- [U16, I16, Percentage] :: Fits(g, Num(0)) && CodesKnown(g, Num(0)) && Trim(g, Num(0)) == Num(0)
  {
  }

  lemma PairUnchanged(g1: Grammar, g2: Grammar, x: Value, y: Value)
    requires Fits(g1, x) && CodesKnown(g1, x) && Trim(g1, x) == x
    requires Fits(g2, y) && CodesKnown(g2, y) && Trim(g2, y) == y
    ensures Fits(Both(g1, g2), Pair(x, y)) && CodesKnown(Both(g1, g2), Pair(x, y))
    ensures Trim(Both(g1, g2), Pair(x, y)) == Pair(x, y)
  {
  }

  /** It is accepted, and its content cannot be encoded. */
  lemma LongStatusIsDecodedOnly(s: Chars)
    requires |s| == 254 && NUL !in s
    ensures var v := StatusValue(Head(OPERATION_IN_PROGRESS, s, 0, 0, 0, 0), []);
            && Fits(Body(LNS), v) && HasStringOf(Body(LNS), v, 254)
            && DecodeFile(LNS, LongStatusFile(s)) == Some(File(VERSION_A4, v))
            && EncodeFile(LNS, VERSION_A4, v) == None
  {
    hide Parse, Print, Encodable, Fits, HasStringOf, PutU16, GetU16, PutI16, RatioBytes, ParseText, LongestText, TextFits, HeaderOf;
    var h := Head(OPERATION_IN_PROGRESS, s, 0, 0, 0, 0);
    var v := StatusValue(h, []);
    var g := FileStatus();
    var tail := PutU16(0) + (PutU16(0) + (PutI16(0) + (RatioBytes(0) + PutU16(0))));
    var b := LongestText(s) + tail;
    LongStatusTail(h.(description := []));
    LongestIsDecodedOnly(s, tail);
    LeafParsed(b);
    PairParsed(String, Tail(g, 2), b);
    U16RoundTrip(OPERATION_IN_PROGRESS, b);
    LeafParsed(PutU16(OPERATION_IN_PROGRESS) + b);
    PairParsed(Status, Tail(g, 1), PutU16(OPERATION_IN_PROGRESS) + b);
    assert (PutU16(OPERATION_IN_PROGRESS) + b)[2..] == b;
    assert Parse(Body(LNS), LongStatusBody(s)) == Accept(v, []);
    SizeOfLongStatus(s);
    HeaderRoundTrip(HEADER_SIZE + |LongStatusBody(s)|, VERSION_A4, LongStatusBody(s));
    assert LongStatusFile(s)[HEADER_SIZE..] == LongStatusBody(s);
    StatusPrinted(g, h, []);
    LongDescription(h);
  }

  lemma SizeOfLongStatus(s: Chars)
    requires |s| == 254
    ensures |LongStatusBody(s)| == 269
  {
  }

  lemma LongDescription(h: Head)
    requires |h.description| == 254
    ensures Fits(Body(LNS), StatusValue(h, [])) && HasStringOf(Body(LNS), StatusValue(h, []), 254)
  {
    StatusPrinted(FileStatus(), h, []);
  }
}

/** The formats in octets, letters and numbers: what round trips and iffs about printer and parser leave open. */
module Layouts {
  import opened Bytes
  import opened Text
  import opened Grammar
  import opened Files
  import opened ListFiles
  import opened StatusFiles
  import opened LoadConfigurationList
  import R = Ratio
  import F = Filenames
  import E = ErrorMessage
  import P = FindPacket

  // ---- Numbers ------------------------------------------------------------------------------------------------------------

  lemma StatusNumbers(n: int)
    ensures KnownStatus(n) <==> n in {0x0001, 0x0002, 0x0003, 0x0004, 0x1000, 0x1002, 0x1003, 0x1004, 0x1005, 0x1007}
    ensures KnownAcceptance(n) <==> n in {0x0001, 0x1000, 0x1002}
    ensures E.AbortCode(n) <==> n in {0x0001, 0x0002, 0x0003, 0x1000, 0x1002, 0x1003, 0x1004, 0x1005, 0x1007}
  {
  }

  /** Negative numbers are those from 0x8000 on, less 0x10000. */
  lemma SignedNumbers(b: seq<byte>)
    requires |b| >= 2
    ensures GetU16(b) == Word(b, 0)
    ensures GetI16(b) == if Word(b, 0) < 0x8000 then Word(b, 0) else Word(b, 0) - 0x1_0000
  {
  }

  /** Three digits are read as their decimal value, if that is at most 100. */
  lemma ThreeDigits(a: byte, b: byte, c: byte, rest: seq<byte>)
    requires R.IsDigit(a) && R.IsDigit(b) && R.IsDigit(c)
    ensures var n := 100 * (a as int - 48) + 10 * (b as int - 48) + (c as int - 48);
            R.ParseRatio([a, b, c] + rest) == if n <= 100 then R.GoodRatio(n, rest) else R.BadRatio
  {
    var s := [a, b, c];
    assert (s + rest)[..3] == s && (s + rest)[3..] == rest;
    assert s[1..] == [b, c] && [b, c][1..] == [c] && [c][1..] == [];
    var x: int, y: int, z: int := a - 48, b - 48, c - 48;
    assert R.LeadingNumber([], 100 * x + 10 * y + z) == 100 * x + 10 * y + z;
    assert R.LeadingNumber([c], 10 * x + y) == 100 * x + 10 * y + z;
    assert R.LeadingNumber([b, c], x) == 100 * x + 10 * y + z;
    assert R.LeadingNumber(s, 0) == 100 * x + 10 * y + z;
  }

  /** White space in front is skipped; behind it there must be digits. */
  lemma SpacedRatios(a: byte, b: byte, c: byte, rest: seq<byte>)
    requires R.IsSpace(a)
    ensures var p := R.ParseRatio([a, b, c] + rest);
            && (R.IsDigit(b) && R.IsDigit(c) ==> p == R.GoodRatio(10 * (b as int - 48) + (c as int - 48), rest))
            && (R.IsSpace(b) && R.IsDigit(c) ==> p == R.GoodRatio(c as int - 48, rest))
            && (R.IsSpace(b) && !R.IsDigit(c) ==> p == R.BadRatio)
  {
    var s := [a, b, c];
    assert (s + rest)[..3] == s && (s + rest)[3..] == rest;
    DigitsBehind(b, c);
    assert s[1..] == [b, c] && [b, c][1..] == [c] && [c][1..] == [];
    assert R.SkipSpace([]) == [] && R.SkipSpace([c]) == if R.IsSpace(c) then [] else [c];
    assert R.SkipSpace([b, c]) == if R.IsSpace(b) then R.SkipSpace([c]) else [b, c];
    assert R.SkipSpace(s) == R.SkipSpace([b, c]);
  }

  lemma DigitsBehind(b: byte, c: byte)
    ensures R.IsDigit(b) && R.IsDigit(c) ==> R.LeadingNumber([b, c], 0) == 10 * (b as int - 48) + (c as int - 48)
    ensures R.IsDigit(c) ==> R.LeadingNumber([c], 0) == c as int - 48
  {
    var y: int, z: int := b - 48, c - 48;
    assert [b, c][1..] == [c] && [c][1..] == [];
    if R.IsDigit(b) && R.IsDigit(c) {
      assert R.LeadingNumber([], 10 * y + z) == 10 * y + z;
      assert R.LeadingNumber([c], y) == 10 * y + z;
    }
    if R.IsDigit(c) {
      assert R.LeadingNumber([], z) == z;
    }
  }

  /** A plus sign is skipped, a minus sign leaves only zero, what follows a digit is ignored, and the rest is refused. */
  lemma SignedRatios(a: byte, b: byte, c: byte, rest: seq<byte>)
    requires !R.IsSpace(a)
    ensures var p := R.ParseRatio([a, b, c] + rest);
            && (!R.IsDigit(a) && a != 43 && a != 45 ==> p == R.BadRatio)
            && (a == 43 && R.IsDigit(b) && R.IsDigit(c) ==>
                  p == R.GoodRatio(10 * (b as int - 48) + (c as int - 48), rest))
            && (a == 45 && R.IsDigit(b) && R.IsDigit(c) ==>
                  p == if b == 48 && c == 48 then R.GoodRatio(0, rest) else R.BadRatio)
            && (R.IsDigit(a) && !R.IsDigit(b) ==> p == R.GoodRatio(a as int - 48, rest))
  {
    var s := [a, b, c];
    assert (s + rest)[..3] == s && (s + rest)[3..] == rest;
    DigitsBehind(b, c);
    assert s[1..] == [b, c] && R.SkipSpace(s) == s;
    if R.IsDigit(a) && !R.IsDigit(b) {
      var x: int := a - 48;
      assert R.LeadingNumber([b, c], x) == x && R.LeadingNumber(s, 0) == x;
    }
  }

  // ---- Strings ------------------------------------------------------------------------------------------------------------

  /** A string can be written if it has at most 253 characters and fits the fixed length together with its terminator. */
  lemma WhatFits(s: Chars, fixedLength: byte)
    ensures TextFits(s, fixedLength) <==> |s| <= 253 && (s != [] && fixedLength != 0 ==> |s| + 1 <= fixedLength)
  {
  }

  /** A string without fixed length is its size, its characters and a NUL, or just a zero. */
  lemma TextLayout(s: Chars)
    requires |s| <= 253
    ensures TextBytes([], 0) == [0]
    ensures s != [] ==> TextBytes(s, 0)[1..] == s + [0] && TextBytes(s, 0)[0] == |s| + 1
  {
  }

  /** With one it is that length, its characters, and zeros up to it. */
  lemma FixedLayout(s: Chars, fixedLength: byte)
    requires TextFits(s, fixedLength) && fixedLength != 0
    ensures var b := TextBytes(s, fixedLength);
            && |b| as int - 1 == fixedLength && b[0] == fixedLength && b[1..1 + |s|] == s
            && forall i :: 1 + |s| <= i < |b| ==> b[i] == 0
  {
  }

  // ---- Order of the fields ------------------------------------------------------------------------------------------------

  lemma InitializationLayout(code: uint16, description: Chars)
    requires TextFits(description, 0)
    ensures var v := Pair(Num(code), Str(description));
            && Fits(Body(INIT), v) && Encodable(Body(INIT), v)
            && Print(Body(INIT), v) == PutU16(code) + TextBytes(description, 0)
  {
    hide PutU16, TextBytes, TextFits;
    PairPrinted(Acceptance, String, Num(code), Str(description));
  }

  /** Counter, code, exception timer, estimated time, description. */
  lemma InformationStatusLayout(counter: uint16, code: uint16, exceptionTimer: uint16, estimatedTime: int16, description: Chars)
    requires TextFits(description, 0)
    ensures var v :=
              Pair(Num(counter), Pair(Num(code), Pair(Num(exceptionTimer), Pair(Num(estimatedTime), Str(description)))));
            && Fits(Body(LCS), v) && Encodable(Body(LCS), v)
            && Print(Body(LCS), v) ==
               PutU16(counter) + (PutU16(code) + (PutU16(exceptionTimer) + (PutI16(estimatedTime) + TextBytes(description, 0))))
  {
    hide Fits, Encodable, Print, PutU16, PutI16, TextBytes, TextFits;
    var d, e := Str(description), Num(estimatedTime);
    LeafPrinted(Num(counter));
    LeafPrinted(Num(code));
    LeafPrinted(Num(exceptionTimer));
    LeafPrinted(e);
    LeafPrinted(d);
    PairPrinted(I16, String, e, d);
    PairPrinted(U16, Both(I16, String), Num(exceptionTimer), Pair(e, d));
    PairPrinted(Status, Both(U16, Both(I16, String)), Num(code), Pair(Num(exceptionTimer), Pair(e, d)));
    PairPrinted(U16, Both(Status, Both(U16, Both(I16, String))), Num(counter),
                Pair(Num(code), Pair(Num(exceptionTimer), Pair(e, d))));
  }

  /** Header filename, part number, ratio, code, description. */
  lemma LoadEntryLayout(e: LoadEntry)
    requires TextFits(e.headerFilename, 0) && TextFits(e.partNumber, 0) && TextFits(e.description, 0)
    ensures Fits(LoadStatus(), e.ToValue()) && Encodable(LoadStatus(), e.ToValue())
    ensures Print(LoadStatus(), e.ToValue()) ==
            TextBytes(e.headerFilename, 0)
            + (TextBytes(e.partNumber, 0) + (R.RatioBytes(e.ratio) + (PutU16(e.code) + TextBytes(e.description, 0))))
  {
    hide Fits, Encodable, Print, PutU16, R.RatioBytes, TextBytes, TextFits;
    var d, c, r := Str(e.description), Num(e.code), Num(e.ratio);
    LeafPrinted(Str(e.headerFilename));
    LeafPrinted(Str(e.partNumber));
    LeafPrinted(r);
    LeafPrinted(c);
    LeafPrinted(d);
    PairPrinted(Status, String, c, d);
    PairPrinted(Percentage, Both(Status, String), r, Pair(c, d));
    PairPrinted(String, Both(Percentage, Both(Status, String)), Str(e.partNumber), Pair(r, Pair(c, d)));
    PairPrinted(String, Both(String, Both(Percentage, Both(Status, String))), Str(e.headerFilename),
                Pair(Str(e.partNumber), Pair(r, Pair(c, d))));
  }

  /** Part number, amendment, part designation. */
  lemma PartLayout(p: PartNumberInfo)
    requires TextFits(p.partNumber, 0) && TextFits(p.amendment, 0) && TextFits(p.partDesignation, 0)
    ensures Fits(PartNumber(), p.ToValue()) && Encodable(PartNumber(), p.ToValue())
    ensures Print(PartNumber(), p.ToValue()) ==
            TextBytes(p.partNumber, 0) + (TextBytes(p.amendment, 0) + TextBytes(p.partDesignation, 0))
  {
    hide Fits, Encodable, Print, TextBytes, TextFits;
    LeafPrinted(Str(p.partNumber));
    LeafPrinted(Str(p.amendment));
    LeafPrinted(Str(p.partDesignation));
    PairPrinted(String, String, Str(p.amendment), Str(p.partDesignation));
    PairPrinted(String, Both(String, String), Str(p.partNumber), Pair(Str(p.amendment), Str(p.partDesignation)));
  }

  /** Literal name, serial number, number of parts, the parts. */
  lemma TargetLayout(t: TargetInfo)
    requires TextFits(t.literalName, 0) && TextFits(t.serialNumber, 0)
    requires |t.partNumbers| <= 0xFFFF && AllPrintable(PartNumber(), PartValues(t.partNumbers))
    ensures Fits(TargetHardware(), t.ToValue()) && Encodable(TargetHardware(), t.ToValue())
    ensures Print(TargetHardware(), t.ToValue()) ==
            TextBytes(t.literalName, 0)
            + (TextBytes(t.serialNumber, 0)
               + (PutU16(|t.partNumbers|) + PrintAll(PartNumber(), PartValues(t.partNumbers))))
  {
    hide Fits, Encodable, Print, PrintAll, TextBytes, TextFits, PutU16;
    var list, v := Counted(PartNumber()), List(PartValues(t.partNumbers));
    LeafPrinted(Str(t.literalName));
    LeafPrinted(Str(t.serialNumber));
    CountedPrinted(PartNumber(), v.items);
    PairPrinted(String, list, Str(t.serialNumber), v);
    PairPrinted(String, Both(String, list), Str(t.literalName), Pair(Str(t.serialNumber), v));
  }

  /** A list is its count and its entries, one behind the other. */
  lemma ListLayout(g: Grammar, vs: seq<Value>, i: nat)
    requires AllPrintable(g, vs) && |vs| <= 0xFFFF && i < |vs|
    ensures Fits(Counted(g), List(vs)) && Encodable(Counted(g), List(vs))
    ensures Print(Counted(g), List(vs)) ==
            PutU16(|vs|) + (PrintAll(g, vs[..i]) + (Print(g, vs[i]) + PrintAll(g, vs[i + 1..])))
  {
    hide Fits, Encodable, Print, PutU16;
    CountedPrinted(g, vs);
    Middle(g, vs, i);
  }

  lemma {:induction false} Middle(g: Grammar, vs: seq<Value>, i: nat)
    requires AllPrintable(g, vs) && i < |vs|
    ensures PrintAll(g, vs) == PrintAll(g, vs[..i]) + (Print(g, vs[i]) + PrintAll(g, vs[i + 1..]))
  {
    hide Fits, Encodable, Print;
    if i == 0 {
      assert vs[..0] == [] && PrintAll(g, []) == [];
    } else {
      Middle(g, vs[1..], i - 1);
      assert vs[1..][..i - 1] == vs[..i][1..] && vs[1..][i - 1] == vs[i] && vs[1..][i..] == vs[i + 1..];
      assert vs[..i][0] == vs[0];
    }
  }

  // ---- Names --------------------------------------------------------------------------------------------------------------

  /** Which extension belongs to which file. */
  lemma ExtensionTable(t: F.TargetId)
    ensures forall row <- [(F.LoadConfigurationInitialization, "LCI"), (F.LoadConfigurationList, "LCL"),
                           (F.LoadConfigurationStatus, "LCS"), (F.UploadInitialization, "LUI"), (F.UploadRequest, "LUR"),
                           (F.UploadStatus, "LUS"), (F.MediaDefinedDownloadInitialization, "LND"),
                           (F.MediaDefinedDownloadRequest, "LNR"), (F.OperatorDefinedDownloadInitialization, "LNO"),
                           (F.OperatorDefinedDownloadList, "LNL"), (F.OperatorDefinedDownloadAnswer, "LNA"),
                           (F.DownloadStatus, "LNS")] ::
              F.PrintFilename(F.ProtocolFilename(t, row.0)) == t.thwId + "_" + t.position + "." + row.1
  {
  }

  predicate LettersAndDigits(s: string) {
    forall c <- s :: '0' <= c <= '9' || 'A' <= c <= 'Z' || 'a' <= c <= 'z'
  }

  predicate AreTargetParts(s: string, a: string, b: string) {
    s == a + "_" + b && 4 <= |a| <= 15 && |b| <= 8 && LettersAndDigits(a) && LettersAndDigits(b)
  }

  /** A target ID is 4 to 15 letters and digits, an underscore, and 0 to 8 letters and digits. */
  lemma TargetIdIff(s: string)
    ensures F.IsTargetId(s) <==> exists a, b :: AreTargetParts(s, a, b)
  {
    hide AreTargetParts;
    if a, b :| AreTargetParts(s, a, b) {
      PartsAreTargetId(s, a, b);
    }
    if F.IsTargetId(s) {
      TargetIdHasParts(s);
    }
  }

  lemma PartsAreTargetId(s: string, a: string, b: string)
    requires AreTargetParts(s, a, b)
    ensures F.IsTargetId(s)
  {
    assert '_' !in a;
    F.SplitPrinted(a, '_', b);
  }

  lemma TargetIdHasParts(s: string)
    requires F.IsTargetId(s)
    ensures exists a, b :: AreTargetParts(s, a, b)
  {
    var i := F.Find(s, '_');
    assert AreTargetParts(s, s[..i], s[i + 1..]);
  }

  /** A protocol filename is a target ID, a dot and one of the twelve extensions. */
  lemma ProtocolFilenameIff(s: string)
    ensures F.IsProtocolFilename(s) <==>
            exists a, e :: s == a + "." + e && F.IsTargetId(a)
                           && e in {"LCI", "LCL", "LCS", "LUI", "LUR", "LUS", "LND", "LNR", "LNO", "LNL", "LNA", "LNS"}
  {
    hide F.IsTargetId;
    if a, e :| s == a + "." + e && F.IsTargetId(a)
               && e in {"LCI", "LCL", "LCS", "LUI", "LUR", "LUS", "LND", "LNR", "LNO", "LNL", "LNA", "LNS"}
    {
      NoDot(a);
      F.SplitPrinted(a, '.', e);
    }
    if F.IsProtocolFilename(s) {
      TwelveExtensions(F.Split(s, '.').1);
      var i := F.Find(s, '.');
      assert s == s[..i] + "." + s[i + 1..];
    }
  }

  lemma TwelveExtensions(e: string)
    ensures F.FileTypeOf(e) != F.Invalid <==>
            e in {"LCI", "LCL", "LCS", "LUI", "LUR", "LUS", "LND", "LNR", "LNO", "LNL", "LNA", "LNS"}
  {
  }

  lemma NoDot(a: string)
    requires F.IsTargetId(a)
    ensures '.' !in a
  {
    var i := F.Find(a, '_');
    assert a == a[..i] + "_" + a[i + 1..];
  }

  // ---- Messages and packets -----------------------------------------------------------------------------------------------

  lemma MessageSamples()
    ensures E.PrintWait(0) == Some("WAIT:0") && E.PrintWait(65) == Some("WAIT:65") && E.PrintWait(0x1_0000) == None
    ensures E.PrintAbort(0x1004) == "ABORT:1004" && E.PrintAbort(0x0003) == "ABORT:0003"
  {
    assert E.Digits(10, 6) == "6" && E.Digits(10, 65) == "65";
    assert E.Digits(16, 1) == "1" && E.Digits(16, 0x10) == "10" && E.Digits(16, 0x100) == "100";
    assert E.Digits(16, 0x1004) == "1004" && E.Digits(16, 3) == "3";
    assert seq(3, _ => '0') == "000";
    assert "WAIT:" + "0" == "WAIT:0" && "WAIT:" + "65" == "WAIT:65" && E.Digits(10, 0) == "0";
  }

  /** A message is a wait or an abort message if it has the tag and something behind it. */
  lemma KindIff(m: string)
    ensures E.KindOf(m) == E.Wait <==> |m| > 5 && m[..5] == "WAIT:"
    ensures E.KindOf(m) == E.Abort <==> |m| > 6 && m[..6] == "ABORT:"
  {
    if |m| > 6 && m[..6] == "ABORT:" {
      assert m[0] == m[..6][0] == 'A';
    }
  }

  lemma PacketLayout(opcode: uint16, a: Chars, b: Chars)
    ensures P.EncodePacket(P.Contents(opcode, [a])) == PutU16(opcode) + (a + [0]) + [0x10]
    ensures P.EncodePacket(P.Contents(opcode, [a, b])) == PutU16(opcode) + (a + [0] + (b + [0])) + [0x10]
  {
    assert [a][1..] == [] && [a, b][1..] == [b] && [b][1..] == [];
    assert P.Terminated([]) == [];
    assert P.Terminated([b]) == b + [0];
  }

  lemma PacketTypeIs(raw: seq<byte>)
    ensures P.PacketType(raw) ==
            if |raw| >= 2 && (Word(raw, 0) == 1 || Word(raw, 0) == 2) then Word(raw, 0) else 0xFFFF
  {
  }
}

/** The load configuration list (LCL): targets, each with its part numbers. */
module LoadConfigurationList {
  import opened Bytes
  import opened Text
  import opened Grammar
  import opened Files

  datatype PartNumberInfo = PartNumberInfo(partNumber: Chars, amendment: Chars, partDesignation: Chars)
  {
    function ToValue(): Value { Pair(Str(partNumber), Pair(Str(amendment), Str(partDesignation))) }
  }

  datatype TargetInfo = TargetInfo(literalName: Chars, serialNumber: Chars, partNumbers: seq<PartNumberInfo>)
  {
    function ToValue(): Value { Pair(Str(literalName), Pair(Str(serialNumber), List(PartValues(partNumbers)))) }
  }

  function PartValues(parts: seq<PartNumberInfo>): (vs: seq<Value>)
    ensures |vs| == |parts| && forall i :: 0 <= i < |parts| ==> vs[i] == parts[i].ToValue()
  {
    seq(|parts|, i requires 0 <= i < |parts| => parts[i].ToValue())
  }

  function TargetValues(targets: seq<TargetInfo>): (vs: seq<Value>)
    ensures |vs| == |targets| && forall i :: 0 <= i < |targets| ==> vs[i] == targets[i].ToValue()
  {
    seq(|targets|, i requires 0 <= i < |targets| => targets[i].ToValue())
  }

  lemma PartFits(p: PartNumberInfo)
    ensures Fits(PartNumber(), p.ToValue())
  {
  }

  lemma TargetFits(t: TargetInfo)
    ensures Fits(TargetHardware(), t.ToValue())
  {
    forall p: PartNumberInfo ensures Fits(PartNumber(), p.ToValue()) { PartFits(p); }
    CountedPrinted(PartNumber(), PartValues(t.partNumbers));
    PairPrinted(String, Counted(PartNumber()), Str(t.serialNumber), List(PartValues(t.partNumbers)));
  }

  lemma TargetsFit(targets: seq<TargetInfo>)
    ensures forall x <- TargetValues(targets) :: Fits(TargetHardware(), x)
    ensures Fits(Body(LCL), List(TargetValues(targets)))
  {
    forall t: TargetInfo ensures Fits(TargetHardware(), t.ToValue()) { TargetFits(t); }
    CountedPrinted(TargetHardware(), TargetValues(targets));
  }

  class LoadConfigurationListFile {
    var protocolVersion: uint16
    var targetsHardware: seq<TargetInfo>

    constructor (protocolVersion: uint16, targetsHardware: seq<TargetInfo>)
      ensures this.protocolVersion == protocolVersion && this.targetsHardware == targetsHardware
    {
      this.protocolVersion := protocolVersion;
      this.targetsHardware := targetsHardware;
    }

    method Encode() returns (r: Option<seq<byte>>)
      ensures Fits(Body(LCL), List(TargetValues(targetsHardware)))
      ensures r == EncodeFile(LCL, protocolVersion, List(TargetValues(targetsHardware)))
    {
      ghost var vs := TargetValues(targetsHardware);
      hide Fits, Encodable, Print, PrintAll;
      TargetsFit(targetsHardware);
      CountedPrinted(TargetHardware(), vs);
      if |targetsHardware| > 0xFFFF {
        return None;
      }
      var raw := PutU16(|targetsHardware|);
      var i := 0;
      while i < |targetsHardware|
        invariant 0 <= i <= |targetsHardware|
        invariant AllPrintable(TargetHardware(), vs[..i])
        invariant raw == PutU16(|vs|) + PrintAll(TargetHardware(), vs[..i])
      {
        var thw := EncodeTarget(targetsHardware[i]);
        if thw == None {
          assert vs[i] in vs;
          return None;
        }
        PrintAllStep(TargetHardware(), vs, i);
        raw := raw + thw.value;
        i := i + 1;
      }
      assert vs[..i] == vs;
      var file := AddHeader(raw, protocolVersion);
      r := Some(file);
    }

    /** One entry of the outer loop of the encoder. */
    static method EncodeTarget(thw: TargetInfo) returns (r: Option<seq<byte>>)
      ensures Fits(TargetHardware(), thw.ToValue())
      ensures r == if Encodable(TargetHardware(), thw.ToValue())
                   then Some(Print(TargetHardware(), thw.ToValue())) else None
    {
      TargetFits(thw);
      var name := StringEncode(thw.literalName, 0);
      var serial := StringEncode(thw.serialNumber, 0);
      var parts := EncodeParts(thw.partNumbers);
      ghost var list := Counted(PartNumber());
      ghost var v := List(PartValues(thw.partNumbers));
      PairPrinted(String, list, Str(thw.serialNumber), v);
      PairPrinted(String, Both(String, list), Str(thw.literalName), Pair(Str(thw.serialNumber), v));
      if name == None || serial == None || parts == None {
        return None;
      }
      r := Some(name.value + (serial.value + parts.value));
    }

    /** The inner loop of the encoder. */
    static method EncodeParts(partNumbers: seq<PartNumberInfo>) returns (r: Option<seq<byte>>)
      ensures Fits(Counted(PartNumber()), List(PartValues(partNumbers)))
      ensures r == if Encodable(Counted(PartNumber()), List(PartValues(partNumbers)))
                   then Some(Print(Counted(PartNumber()), List(PartValues(partNumbers)))) else None
    {
      ghost var vs := PartValues(partNumbers);
      hide Fits, Encodable, Print, PrintAll;
      forall p: PartNumberInfo ensures Fits(PartNumber(), p.ToValue()) { PartFits(p); }
      CountedPrinted(PartNumber(), vs);
      if |partNumbers| > 0xFFFF {
        return None;
      }
      var raw := PutU16(|partNumbers|);
      var i := 0;
      while i < |partNumbers|
        invariant 0 <= i <= |partNumbers|
        invariant AllPrintable(PartNumber(), vs[..i])
        invariant raw == PutU16(|vs|) + PrintAll(PartNumber(), vs[..i])
      {
        var part := EncodePart(partNumbers[i]);
        if part == None {
          assert vs[i] in vs;
          return None;
        }
        PrintAllStep(PartNumber(), vs, i);
        raw := raw + part.value;
        i := i + 1;
      }
      assert vs[..i] == vs;
      r := Some(raw);
    }

    /** One entry of the inner loop of the encoder. */
    static method EncodePart(p: PartNumberInfo) returns (r: Option<seq<byte>>)
      ensures Fits(PartNumber(), p.ToValue())
      ensures r == if Encodable(PartNumber(), p.ToValue()) then Some(Print(PartNumber(), p.ToValue())) else None
    {
      PartFits(p);
      var number := StringEncode(p.partNumber, 0);
      var amendment := StringEncode(p.amendment, 0);
      var designation := StringEncode(p.partDesignation, 0);
      PairPrinted(String, String, Str(p.amendment), Str(p.partDesignation));
      if number == None || amendment == None || designation == None {
        return None;
      }
      r := Some(number.value + (amendment.value + designation.value));
    }

    /** Appends the decoded targets to those already there; `false` is the exception. */
    method Decode(rawData: seq<byte>) returns (ok: bool)
      modifies this
      ensures ok <==> DecodeFile(LCL, rawData).Some?
      ensures ok ==> var File(version, v) := DecodeFile(LCL, rawData).value;
                     && protocolVersion == version
                     && v.List? && TargetValues(targetsHardware) == TargetValues(old(targetsHardware)) + v.items
      ensures !ok ==> old(targetsHardware) <= targetsHardware
    {
      if |rawData| < HEADER_SIZE + 13 {
        return false;
      }
      var version := DecodeHeader(rawData);
      if version == None {
        return false;
      }
      hide Parse, DecodeHeader;
      protocolVersion := version.value;
      ghost var added;
      var remaining;
      ok, remaining, added := DecodeTargets(rawData[HEADER_SIZE..]);
      ok := ok && remaining == [];
      assert TargetValues(targetsHardware) == TargetValues(old(targetsHardware)) + TargetValues(added);
    }

    /** The outer loop of the decoder. */
    method DecodeTargets(data: seq<byte>)
        returns (ok: bool, remaining: seq<byte>, ghost added: seq<TargetInfo>)
      modifies this`targetsHardware
      ensures targetsHardware == old(targetsHardware) + added
      ensures !ok <==> Parse(Counted(TargetHardware()), data) == Reject
      ensures ok ==> Parse(Counted(TargetHardware()), data) == Accept(List(TargetValues(added)), remaining)
    {
      hide Parse, ParseAll, PutInFront, TargetValues;
      added := [];
      CountedParsed(TargetHardware(), data);
      if |data| < 2 {
        return false, data, added;
      }
      var count := GetU16(data);
      remaining := data[2..];
      var i := 0;
      assert TargetValues([]) == [];
      while i < count
        invariant 0 <= i <= count
        invariant targetsHardware == old(targetsHardware) + added
        invariant Parse(Counted(TargetHardware()), data) ==
                  PutInFront(TargetValues(added), ParseAll(TargetHardware(), count - i, remaining))
      {
        ParseAllStep(TargetHardware(), TargetValues(added), count - i, remaining);
        var entry := DecodeTarget(remaining);
        if entry == None {
          return false, remaining, added;
        }
        assert TargetValues(added + [entry.value.0]) == TargetValues(added) + [entry.value.0.ToValue()];
        targetsHardware := targetsHardware + [entry.value.0];
        added := added + [entry.value.0];
        remaining := entry.value.1;
        i := i + 1;
      }
      ParseAllDone(TargetHardware(), TargetValues(added), remaining);
      return true, remaining, added;
    }

    /** One entry of the outer loop of the decoder, and what is left behind it. */
    static method DecodeTarget(data: seq<byte>) returns (r: Option<(TargetInfo, seq<byte>)>)
      ensures r == None <==> Parse(TargetHardware(), data) == Reject
      ensures r.Some? ==> Parse(TargetHardware(), data) == Accept(r.value.0.ToValue(), r.value.1)
    {
      ghost var list := Counted(PartNumber());
      PairParsed(String, Both(String, list), data);
      var name := StringDecode(data);
      if name.BadText? {
        return None;
      }
      PairParsed(String, list, name.rest);
      var serial := StringDecode(name.rest);
      if serial.BadText? {
        return None;
      }
      var parts := DecodeParts(serial.rest);
      if parts == None {
        return None;
      }
      r := Some((TargetInfo(name.s, serial.s, parts.value.0), parts.value.1));
    }

    /** The inner loop of the decoder, and what is left behind it. */
    static method DecodeParts(data: seq<byte>) returns (r: Option<(seq<PartNumberInfo>, seq<byte>)>)
      ensures r == None <==> Parse(Counted(PartNumber()), data) == Reject
      ensures r.Some? ==> Parse(Counted(PartNumber()), data) == Accept(List(PartValues(r.value.0)), r.value.1)
    {
      hide Parse;
      CountedParsed(PartNumber(), data);
      if |data| < 2 {
        return None;
      }
      var count, remaining := GetU16(data), data[2..];
      var parts: seq<PartNumberInfo> := [];
      var i := 0;
      assert PartValues([]) == [];
      while i < count
        invariant 0 <= i <= count
        invariant Parse(Counted(PartNumber()), data) ==
                  PutInFront(PartValues(parts), ParseAll(PartNumber(), count - i, remaining))
      {
        ParseAllStep(PartNumber(), PartValues(parts), count - i, remaining);
        var part := DecodePart(remaining);
        if part == None {
          return None;
        }
        assert PartValues(parts + [part.value.0]) == PartValues(parts) + [part.value.0.ToValue()];
        parts := parts + [part.value.0];
        remaining := part.value.1;
        i := i + 1;
      }
      ParseAllDone(PartNumber(), PartValues(parts), remaining);
      r := Some((parts, remaining));
    }

    /** One entry of the inner loop of the decoder, and what is left behind it. */
    static method DecodePart(data: seq<byte>) returns (r: Option<(PartNumberInfo, seq<byte>)>)
      ensures r == None <==> Parse(PartNumber(), data) == Reject
      ensures r.Some? ==> Parse(PartNumber(), data) == Accept(r.value.0.ToValue(), r.value.1)
    {
      PairParsed(String, Both(String, String), data);
      var number := StringDecode(data);
      if number.BadText? {
        return None;
      }
      PairParsed(String, String, number.rest);
      var amendment := StringDecode(number.rest);
      if amendment.BadText? {
        return None;
      }
      var designation := StringDecode(amendment.rest);
      if designation.BadText? {
        return None;
      }
      r := Some((PartNumberInfo(number.s, amendment.s, designation.s), designation.rest));
    }
  }

  // ---- Sizes -------------------------------------------------------------------------------------------------------

  function PartsSize(parts: seq<PartNumberInfo>): nat {
    if parts == [] then 0
    else
      TextSize(parts[0].partNumber) + TextSize(parts[0].amendment) + TextSize(parts[0].partDesignation)
      + PartsSize(parts[1..])
  }

  function TargetsSize(targets: seq<TargetInfo>): nat {
    if targets == [] then 0
    else
      TextSize(targets[0].literalName) + TextSize(targets[0].serialNumber) + 2 + PartsSize(targets[0].partNumbers)
      + TargetsSize(targets[1..])
  }

  /** Header, number of targets, targets. */
  function ListSize(targets: seq<TargetInfo>): nat {
    HEADER_SIZE + 2 + TargetsSize(targets)
  }

  lemma TextPrintedSize(s: Chars)
    requires TextFits(s, 0)
    ensures |TextBytes(s, 0)| == TextSize(s)
  {
  }

  lemma PartPrinted(p: PartNumberInfo)
    requires Fits(PartNumber(), p.ToValue()) && Encodable(PartNumber(), p.ToValue())
    ensures |Print(PartNumber(), p.ToValue())| ==
            TextSize(p.partNumber) + TextSize(p.amendment) + TextSize(p.partDesignation)
  {
    hide TextFits, TextBytes, TextSize;
    LeafPrinted(Str(p.partNumber));
    LeafPrinted(Str(p.amendment));
    LeafPrinted(Str(p.partDesignation));
    PairPrinted(String, String, Str(p.amendment), Str(p.partDesignation));
    PairPrinted(String, Both(String, String), Str(p.partNumber), Pair(Str(p.amendment), Str(p.partDesignation)));
    TextPrintedSize(p.partNumber);
    TextPrintedSize(p.amendment);
    TextPrintedSize(p.partDesignation);
  }

  lemma {:induction false} PartsPrinted(parts: seq<PartNumberInfo>)
    requires AllPrintable(PartNumber(), PartValues(parts))
    ensures |PrintAll(PartNumber(), PartValues(parts))| == PartsSize(parts)
  {
    hide Fits, Encodable, Print, TextSize;
    if parts != [] {
      var vs := PartValues(parts);
      assert vs[0] == parts[0].ToValue() && vs[1..] == PartValues(parts[1..]);
      PartPrinted(parts[0]);
      PartsPrinted(parts[1..]);
    }
  }

  lemma TargetPrinted(t: TargetInfo)
    requires Fits(TargetHardware(), t.ToValue()) && Encodable(TargetHardware(), t.ToValue())
    ensures |Print(TargetHardware(), t.ToValue())| ==
            TextSize(t.literalName) + TextSize(t.serialNumber) + 2 + PartsSize(t.partNumbers)
  {
    var list, v := Counted(PartNumber()), List(PartValues(t.partNumbers));
    TargetOpened(t);
    hide Fits, Encodable, Print, PrintAll, TextFits, TextBytes, TextSize, PartsSize;
    LeafPrinted(Str(t.literalName));
    LeafPrinted(Str(t.serialNumber));
    CountedPrinted(PartNumber(), v.items);
    PairPrinted(String, list, Str(t.serialNumber), v);
    PairPrinted(String, Both(String, list), Str(t.literalName), Pair(Str(t.serialNumber), v));
    PartsPrinted(t.partNumbers);
    TextPrintedSize(t.literalName);
    TextPrintedSize(t.serialNumber);
  }

  lemma TargetOpened(t: TargetInfo)
    requires Fits(TargetHardware(), t.ToValue())
    ensures var list, v := Counted(PartNumber()), List(PartValues(t.partNumbers));
            && Fits(list, v) && (forall x <- v.items :: Fits(PartNumber(), x))
            && Fits(Both(String, list), Pair(Str(t.serialNumber), v))
  {
  }

  lemma {:induction false} TargetsPrinted(targets: seq<TargetInfo>)
    requires AllPrintable(TargetHardware(), TargetValues(targets))
    ensures |PrintAll(TargetHardware(), TargetValues(targets))| == TargetsSize(targets)
  {
    hide Fits, Encodable, Print, TextSize, PartsSize;
    if targets != [] {
      var vs := TargetValues(targets);
      assert vs[0] == targets[0].ToValue() && vs[1..] == TargetValues(targets[1..]);
      TargetPrinted(targets[0]);
      TargetsPrinted(targets[1..]);
    }
  }

  predicate NulFreeList(targets: seq<TargetInfo>) {
    TargetsFit(targets);
    NulFree(Body(LCL), List(TargetValues(targets)))
  }

  /** The encoder refuses nothing in the list. */
  predicate Accepts(targets: seq<TargetInfo>) {
    TargetsFit(targets);
    Encodable(Body(LCL), List(TargetValues(targets)))
  }

  function Encoded(version: uint16, targets: seq<TargetInfo>): seq<byte>
    requires Accepts(targets)
  {
    TargetsFit(targets);
    EncodeFile(LCL, version, List(TargetValues(targets))).value
  }

  lemma EncodedSize(version: uint16, targets: seq<TargetInfo>)
    requires Accepts(targets)
    ensures |Encoded(version, targets)| == ListSize(targets)
  {
    hide Fits, Encodable, Print, PrintAll, TargetsSize;
    TargetsFit(targets);
    CountedPrinted(TargetHardware(), TargetValues(targets));
    TargetsPrinted(targets);
  }

  /** The length field of a list is its true size exactly below 2^32 octets. */
  lemma LengthIsTrueIff(version: uint16, targets: seq<TargetInfo>)
    requires Accepts(targets)
    ensures |Encoded(version, targets)| >= HEADER_SIZE
    ensures GetU32(Encoded(version, targets)) == |Encoded(version, targets)| <==> ListSize(targets) < 0x1_0000_0000
  {
    hide Fits, Encodable, Print, ListSize, GetU32;
    TargetsFit(targets);
    EncodedSize(version, targets);
    if ListSize(targets) < 0x1_0000_0000 {
      LengthField(Print(Body(LCL), List(TargetValues(targets))), version);
    }
  }

  /**
   * Decoding an encoded list into a fresh object gives back version and targets, exactly when the version is A3 or
   * A4 and header, counts and strings together have at least 19 and fewer than 2^32 octets; otherwise the decoder
   * refuses it.
   */
  lemma ListRoundTrip(version: uint16, targets: seq<TargetInfo>)
    requires Accepts(targets) && NulFreeList(targets)
    ensures DecodeFile(LCL, Encoded(version, targets)) ==
            if Supported(version) && 19 <= ListSize(targets) < 0x1_0000_0000
            then Some(File(version, List(TargetValues(targets))))
            else None
  {
    var v := List(TargetValues(targets));
    TargetsFit(targets);
    EncodedSize(version, targets);
    FileRoundTrip(LCL, version, v);
    TrimNulFree(Body(LCL), v);
    forall t <- targets ensures CodesKnown(TargetHardware(), t.ToValue()) { TargetHasNoCodes(t); }
    assert CodesKnown(Body(LCL), v);
  }

  lemma TargetHasNoCodes(t: TargetInfo)
    ensures Fits(TargetHardware(), t.ToValue()) && CodesKnown(TargetHardware(), t.ToValue())
  {
    TargetFits(t);
    var parts := PartValues(t.partNumbers);
    forall p: PartNumberInfo ensures Fits(PartNumber(), p.ToValue()) && CodesKnown(PartNumber(), p.ToValue()) {
      PartFits(p);
      PairPrinted(String, String, Str(p.amendment), Str(p.partDesignation));
      PairPrinted(String, Both(String, String), Str(p.partNumber), p.ToValue().b);
    }
    CountedPrinted(PartNumber(), parts);
    assert CodesKnown(Counted(PartNumber()), List(parts));
    PairPrinted(String, Counted(PartNumber()), Str(t.serialNumber), List(parts));
    PairPrinted(String, Both(String, Counted(PartNumber())), Str(t.literalName), t.ToValue().b);
  }

  /** Different lists of targets are different values. */
  lemma TargetValuesInjective(ts: seq<TargetInfo>, us: seq<TargetInfo>)
    requires TargetValues(ts) == TargetValues(us)
    ensures ts == us
  {
    forall i | 0 <= i < |ts| ensures ts[i] == us[i] {
      assert ts[i].ToValue() == TargetValues(ts)[i] == TargetValues(us)[i] == us[i].ToValue();
      var ps, qs := ts[i].partNumbers, us[i].partNumbers;
      forall j | 0 <= j < |ps| ensures ps[j] == qs[j] {
        assert ps[j].ToValue() == PartValues(ps)[j] == PartValues(qs)[j] == qs[j].ToValue();
      }
      assert ps == qs;
    }
  }
}

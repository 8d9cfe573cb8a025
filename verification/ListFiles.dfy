/** The files with a flat list: loads to upload (LUR), files to download (LNR), files on offer (LNL), the answer (LNA). */
module ListFiles {
  import opened Bytes
  import opened Text
  import opened Grammar
  import opened Files

  datatype Load = Load(headerFilename: Chars, partNumber: Chars)
  {
    function ToValue(): Value { Pair(Str(headerFilename), Str(partNumber)) }
  }

  function LoadListValues(loads: seq<Load>): (vs: seq<Value>)
    ensures |vs| == |loads| && forall i :: 0 <= i < |loads| ==> vs[i] == loads[i].ToValue()
  {
    seq(|loads|, i requires 0 <= i < |loads| => loads[i].ToValue())
  }

  /** The value of a LUR file. */
  function LoadsValue(loads: seq<Load>): Value { List(LoadListValues(loads)) }

  datatype FileInformation = FileInformation(filename: Chars, description: Chars)
  {
    function ToValue(): Value { Pair(Str(filename), Str(description)) }
  }

  function InformationValues(files: seq<FileInformation>): (vs: seq<Value>)
    ensures |vs| == |files| && forall i :: 0 <= i < |files| ==> vs[i] == files[i].ToValue()
  {
    seq(|files|, i requires 0 <= i < |files| => files[i].ToValue())
  }

  function NameValues(names: seq<Chars>): (vs: seq<Value>)
    ensures |vs| == |names| && forall i :: 0 <= i < |names| ==> vs[i] == Str(names[i])
  {
    seq(|names|, i requires 0 <= i < |names| => Str(names[i]))
  }

  /** The value of an LNA file. */
  function NamesValue(names: seq<Chars>): Value { List(NameValues(names)) }

  /** The value of an LNR file. */
  function RequestValue(names: seq<Chars>, data: seq<byte>): Value { Pair(NamesValue(names), Str(data)) }

  lemma ValuesFit(loads: seq<Load>, names: seq<Chars>, data: seq<byte>)
    ensures forall l: Load :: Fits(Both(String, String), l.ToValue())
    ensures Fits(Body(LUR), LoadsValue(loads))
    ensures Fits(Body(LNA), NamesValue(names))
    ensures Fits(Body(LNR), RequestValue(names, data))
  {
  }

  class UploadOperationRequestFile {
    var protocolVersion: uint16
    var loads: seq<Load>

    constructor (protocolVersion: uint16, loads: seq<Load>)
      ensures this.protocolVersion == protocolVersion && this.loads == loads
    {
      this.protocolVersion, this.loads := protocolVersion, loads;
    }

    method Encode() returns (r: Option<seq<byte>>)
      ensures Fits(Body(LUR), LoadsValue(loads))
      ensures r == EncodeFile(LUR, protocolVersion, LoadsValue(loads))
    {
      hide Fits, Encodable, Print, PrintAll;
      ghost var vs, g := LoadListValues(loads), Both(String, String);
      ValuesFit(loads, [], []);
      CountedPrinted(g, vs);
      if |loads| > 0xFFFF {
        return None;
      }
      var raw := PutU16(|loads|);
      var i := 0;
      while i < |loads|
        invariant 0 <= i <= |loads|
        invariant AllPrintable(g, vs[..i])
        invariant raw == PutU16(|vs|) + PrintAll(g, vs[..i])
      {
        var name := StringEncode(loads[i].headerFilename, 0);
        var part := StringEncode(loads[i].partNumber, 0);
        LoadPrinted(loads[i]);
        if name == None || part == None {
          assert vs[i] in vs;
          return None;
        }
        PrintAllStep(g, vs, i);
        raw := raw + (name.value + part.value);
        i := i + 1;
      }
      assert vs[..i] == vs;
      var file := AddHeader(raw, protocolVersion);
      r := Some(file);
    }

    /** Appends the decoded loads to those already there; `false` is the exception. */
    method Decode(rawData: seq<byte>) returns (ok: bool)
      modifies this
      ensures ok <==> DecodeFile(LUR, rawData).Some?
      ensures ok ==> var File(version, v) := DecodeFile(LUR, rawData).value;
                     && protocolVersion == version
                     && v.List? && LoadListValues(loads) == LoadListValues(old(loads)) + v.items
      ensures !ok ==> old(loads) <= loads
    {
      if |rawData| < HEADER_SIZE + 2 {
        return false;
      }
      var version := DecodeHeader(rawData);
      if version == None {
        return false;
      }
      hide Parse, DecodeHeader;
      protocolVersion := version.value;
      ghost var added;
      var remaining;
      ok, remaining, added := DecodeLoads(rawData[HEADER_SIZE..]);
      ok := ok && remaining == [];
      assert LoadListValues(loads) == LoadListValues(old(loads)) + LoadListValues(added);
    }

    /** The loop of the decoder. */
    method DecodeLoads(data: seq<byte>) returns (ok: bool, remaining: seq<byte>, ghost added: seq<Load>)
      modifies this`loads
      ensures loads == old(loads) + added
      ensures !ok <==> Parse(Body(LUR), data) == Reject
      ensures ok ==> Parse(Body(LUR), data) == Accept(LoadsValue(added), remaining)
    {
      hide Parse, ParseAll, PutInFront, LoadListValues, ParseText;
      ghost var g := Both(String, String);
      added := [];
      CountedParsed(g, data);
      if |data| < 2 {
        return false, data, added;
      }
      var count := GetU16(data);
      remaining := data[2..];
      var i := 0;
      assert LoadListValues([]) == [];
      while i < count
        invariant 0 <= i <= count
        invariant loads == old(loads) + added
        invariant Parse(Counted(g), data) == PutInFront(LoadListValues(added), ParseAll(g, count - i, remaining))
      {
        ParseAllStep(g, LoadListValues(added), count - i, remaining);
        PairParsed(String, String, remaining);
        LeafParsed(remaining);
        var name := StringDecode(remaining);
        if name.BadText? {
          return false, remaining, added;
        }
        LeafParsed(name.rest);
        var part := StringDecode(name.rest);
        if part.BadText? {
          return false, remaining, added;
        }
        var load := Load(name.s, part.s);
        assert LoadListValues(added + [load]) == LoadListValues(added) + [load.ToValue()];
        loads := loads + [load];
        added := added + [load];
        remaining := part.rest;
        i := i + 1;
      }
      ParseAllDone(g, LoadListValues(added), remaining);
      return true, remaining, added;
    }
  }

  lemma LoadPrinted(l: Load)
    ensures Fits(Both(String, String), l.ToValue())
    ensures Encodable(Both(String, String), l.ToValue()) <==> TextFits(l.headerFilename, 0) && TextFits(l.partNumber, 0)
    ensures Encodable(Both(String, String), l.ToValue()) ==>
              Print(Both(String, String), l.ToValue()) == TextBytes(l.headerFilename, 0) + TextBytes(l.partNumber, 0)
  {
  }

  class DownloadOperationRequestFile {
    var protocolVersion: uint16
    var files: seq<Chars>
    var userDefinedData: seq<byte>

    constructor (protocolVersion: uint16, files: seq<Chars>, userDefinedData: seq<byte>)
      ensures this.protocolVersion == protocolVersion && this.files == files && this.userDefinedData == userDefinedData
    {
      this.protocolVersion, this.files, this.userDefinedData := protocolVersion, files, userDefinedData;
    }

    method Encode() returns (r: Option<seq<byte>>)
      ensures Fits(Body(LNR), RequestValue(files, userDefinedData))
      ensures r == EncodeFile(LNR, protocolVersion, RequestValue(files, userDefinedData))
    {
      hide Fits, Encodable, Print, PrintAll;
      var names := EncodeNames(files);
      PairPrinted(Counted(String), Blob, NamesValue(files), Str(userDefinedData));
      BlobPrinted(userDefinedData);
      if names == None || |userDefinedData| > 0xFF {
        return None;
      }
      var size: byte := |userDefinedData|;
      var raw := names.value + ([size] + userDefinedData);
      var file := AddHeader(raw, protocolVersion);
      r := Some(file);
    }

    /** Appends the decoded names and replaces the user-defined data; `false` is the exception. */
    method Decode(rawData: seq<byte>) returns (ok: bool)
      modifies this
      ensures ok <==> DecodeFile(LNR, rawData).Some?
      ensures ok ==> var File(version, v) := DecodeFile(LNR, rawData).value;
                     && protocolVersion == version
                     && v.Pair? && v.a.List? && v.b == Str(userDefinedData)
                     && NameValues(files) == NameValues(old(files)) + v.a.items
      ensures !ok ==> old(files) <= files && userDefinedData == old(userDefinedData)
    {
      if |rawData| < HEADER_SIZE + 3 {
        return false;
      }
      var version := DecodeHeader(rawData);
      if version == None {
        return false;
      }
      hide Parse, DecodeHeader;
      protocolVersion := version.value;
      PairParsed(Counted(String), Blob, rawData[HEADER_SIZE..]);
      var remaining, added;
      ok, remaining, added := DecodeNames(rawData[HEADER_SIZE..]);
      files := files + added;
      if !ok {
        return;
      }
      BlobParsed(remaining);
      if remaining == [] {
        return false;
      }
      var size: int := remaining[0];
      remaining := remaining[1..];
      if |remaining| != size {
        return false;
      }
      userDefinedData := remaining;
      assert NameValues(files) == NameValues(old(files)) + NameValues(added);
    }
  }

  class DownloadOperationAnswerFile {
    var protocolVersion: uint16
    var files: seq<Chars>

    constructor (protocolVersion: uint16, files: seq<Chars>)
      ensures this.protocolVersion == protocolVersion && this.files == files
    {
      this.protocolVersion, this.files := protocolVersion, files;
    }

    method Encode() returns (r: Option<seq<byte>>)
      ensures Fits(Body(LNA), NamesValue(files))
      ensures r == EncodeFile(LNA, protocolVersion, NamesValue(files))
    {
      hide Fits, Encodable, Print, PrintAll;
      var names := EncodeNames(files);
      if names == None {
        return None;
      }
      var file := AddHeader(names.value, protocolVersion);
      r := Some(file);
    }

    /** Appends the decoded names; `false` is the exception. */
    method Decode(rawData: seq<byte>) returns (ok: bool)
      modifies this
      ensures ok <==> DecodeFile(LNA, rawData).Some?
      ensures ok ==> var File(version, v) := DecodeFile(LNA, rawData).value;
                     && protocolVersion == version
                     && v.List? && NameValues(files) == NameValues(old(files)) + v.items
      ensures !ok ==> old(files) <= files
    {
      if |rawData| < HEADER_SIZE + 2 {
        return false;
      }
      var version := DecodeHeader(rawData);
      if version == None {
        return false;
      }
      hide Parse, DecodeHeader;
      protocolVersion := version.value;
      var remaining, added;
      ok, remaining, added := DecodeNames(rawData[HEADER_SIZE..]);
      files := files + added;
      ok := ok && remaining == [];
      assert NameValues(files) == NameValues(old(files)) + NameValues(added);
    }
  }

  /** Count and names, as both encoders with names write them. */
  method EncodeNames(names: seq<Chars>) returns (r: Option<seq<byte>>)
    ensures Fits(Counted(String), NamesValue(names))
    ensures r == if Encodable(Counted(String), NamesValue(names)) then Some(Print(Counted(String), NamesValue(names))) else None
  {
    hide Fits, Encodable, Print, PrintAll;
    ghost var vs := NameValues(names);
    NamePrinted([]);
    CountedPrinted(String, vs);
    if |names| > 0xFFFF {
      return None;
    }
    var raw := PutU16(|names|);
    var i := 0;
    while i < |names|
      invariant 0 <= i <= |names|
      invariant AllPrintable(String, vs[..i])
      invariant raw == PutU16(|vs|) + PrintAll(String, vs[..i])
    {
      var name := StringEncode(names[i], 0);
      NamePrinted(names[i]);
      if name == None {
        assert vs[i] in vs;
        return None;
      }
      PrintAllStep(String, vs, i);
      raw := raw + name.value;
      i := i + 1;
    }
    assert vs[..i] == vs;
    r := Some(raw);
  }

  /** The names in front of the first one that cannot be read, or all that are announced. */
  method DecodeNames(data: seq<byte>) returns (ok: bool, remaining: seq<byte>, names: seq<Chars>)
    ensures Parse(Counted(String), data) == if ok then Accept(NamesValue(names), remaining) else Reject
  {
    hide Parse, ParseAll, PutInFront, NameValues, ParseText;
    names := [];
    CountedParsed(String, data);
    if |data| < 2 {
      return false, data, names;
    }
    var count := GetU16(data);
    remaining := data[2..];
    var i := 0;
    assert NameValues([]) == [];
    while i < count
      invariant 0 <= i <= count
      invariant Parse(Counted(String), data) == PutInFront(NameValues(names), ParseAll(String, count - i, remaining))
    {
      ParseAllStep(String, NameValues(names), count - i, remaining);
      LeafParsed(remaining);
      var name := StringDecode(remaining);
      if name.BadText? {
        return false, remaining, names;
      }
      assert NameValues(names + [name.s]) == NameValues(names) + [Str(name.s)];
      names, remaining := names + [name.s], name.rest;
      i := i + 1;
    }
    ParseAllDone(String, NameValues(names), remaining);
    return true, remaining, names;
  }

  class DownloadOperationListFile {
    var protocolVersion: uint16
    var files: seq<FileInformation>

    constructor (protocolVersion: uint16, files: seq<FileInformation>)
      ensures this.protocolVersion == protocolVersion && this.files == files
    {
      this.protocolVersion, this.files := protocolVersion, files;
    }

    method Encode() returns (r: Option<seq<byte>>)
      ensures Fits(Body(LNL), List(InformationValues(files)))
      ensures r == EncodeFile(LNL, protocolVersion, List(InformationValues(files)))
    {
      hide Fits, Encodable, Print, PrintAll;
      ghost var vs, g := InformationValues(files), Both(String, String);
      forall f: FileInformation ensures Fits(g, f.ToValue()) { InformationPrinted(f); }
      CountedPrinted(g, vs);
      if |files| > 0xFFFF {
        return None;
      }
      var raw := PutU16(|files|);
      var i := 0;
      while i < |files|
        invariant 0 <= i <= |files|
        invariant AllPrintable(g, vs[..i])
        invariant raw == PutU16(|vs|) + PrintAll(g, vs[..i])
      {
        var name := StringEncode(files[i].filename, 0);
        var description := StringEncode(files[i].description, 0);
        InformationPrinted(files[i]);
        if name == None || description == None {
          assert vs[i] in vs;
          return None;
        }
        PrintAllStep(g, vs, i);
        raw := raw + (name.value + description.value);
        i := i + 1;
      }
      assert vs[..i] == vs;
      var file := AddHeader(raw, protocolVersion);
      r := Some(file);
    }

    /** Appends the decoded files; `false` is the exception. */
    method Decode(rawData: seq<byte>) returns (ok: bool)
      modifies this
      ensures ok <==> DecodeFile(LNL, rawData).Some?
      ensures ok ==> var File(version, v) := DecodeFile(LNL, rawData).value;
                     && protocolVersion == version
                     && v.List? && InformationValues(files) == InformationValues(old(files)) + v.items
      ensures !ok ==> old(files) <= files
    {
      if |rawData| < HEADER_SIZE + 2 {
        return false;
      }
      var version := DecodeHeader(rawData);
      if version == None {
        return false;
      }
      hide Parse, DecodeHeader;
      protocolVersion := version.value;
      ghost var added;
      var remaining;
      ok, remaining, added := DecodeFiles(rawData[HEADER_SIZE..]);
      ok := ok && remaining == [];
      assert InformationValues(files) == InformationValues(old(files)) + InformationValues(added);
    }

    /** The loop of the decoder. */
    method DecodeFiles(data: seq<byte>) returns (ok: bool, remaining: seq<byte>, ghost added: seq<FileInformation>)
      modifies this`files
      ensures files == old(files) + added
      ensures Parse(Body(LNL), data) == if ok then Accept(List(InformationValues(added)), remaining) else Reject
    {
      hide Parse, ParseAll, PutInFront, InformationValues, ParseText;
      ghost var g := Both(String, String);
      added := [];
      CountedParsed(g, data);
      if |data| < 2 {
        return false, data, added;
      }
      var count := GetU16(data);
      remaining := data[2..];
      var i := 0;
      assert InformationValues([]) == [];
      while i < count
        invariant 0 <= i <= count
        invariant files == old(files) + added
        invariant Parse(Counted(g), data) == PutInFront(InformationValues(added), ParseAll(g, count - i, remaining))
      {
        ParseAllStep(g, InformationValues(added), count - i, remaining);
        PairParsed(String, String, remaining);
        LeafParsed(remaining);
        var name := StringDecode(remaining);
        if name.BadText? {
          return false, remaining, added;
        }
        LeafParsed(name.rest);
        var description := StringDecode(name.rest);
        if description.BadText? {
          return false, remaining, added;
        }
        var file := FileInformation(name.s, description.s);
        assert InformationValues(added + [file]) == InformationValues(added) + [file.ToValue()];
        files := files + [file];
        added := added + [file];
        remaining := description.rest;
        i := i + 1;
      }
      ParseAllDone(g, InformationValues(added), remaining);
      return true, remaining, added;
    }
  }

  lemma InformationPrinted(f: FileInformation)
    ensures Fits(Both(String, String), f.ToValue())
    ensures Encodable(Both(String, String), f.ToValue()) <==> TextFits(f.filename, 0) && TextFits(f.description, 0)
    ensures Encodable(Both(String, String), f.ToValue()) ==>
              Print(Both(String, String), f.ToValue()) == TextBytes(f.filename, 0) + TextBytes(f.description, 0)
  {
  }

  lemma NamePrinted(s: Chars)
    ensures forall n: Chars :: Fits(String, Str(n))
    ensures Encodable(String, Str(s)) <==> TextFits(s, 0)
    ensures TextFits(s, 0) ==> Print(String, Str(s)) == TextBytes(s, 0)
  {
  }

  lemma BlobPrinted(data: seq<byte>)
    ensures Fits(Blob, Str(data))
    ensures Encodable(Blob, Str(data)) <==> |data| <= 0xFF
    ensures |data| <= 0xFF ==> Print(Blob, Str(data)) == var n: byte := |data|; [n] + data
  {
  }

  /** At the end of a file a blob is read exactly when its count is the number of octets behind it. */
  lemma BlobParsed(b: seq<byte>)
    ensures b == [] ==> Parse(Blob, b) == Reject
    ensures b != [] && |b| - 1 == b[0] ==> Parse(Blob, b) == Accept(Str(b[1..]), [])
    ensures b != [] && |b| - 1 != b[0] ==> Parse(Blob, b) == Reject || Parse(Blob, b).rest != []
  {
    if b != [] && |b| - 1 == b[0] {
      assert b[1..|b|] == b[1..];
    }
  }
}

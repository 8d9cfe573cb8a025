/** The status files of uploads (LUS) and downloads (LNS): a common head and a list of entries. */
module StatusFiles {
  import opened Bytes
  import opened Text
  import opened Ratio
  import opened Grammar
  import opened Files

  /** The fields both status classes inherit or share. */
  datatype Head = Head(
    code: uint16, description: Chars, counter: uint16, exceptionTimer: uint16, estimatedTime: int16, listRatio: Percent)
  {
    /** A new code comes without a description. */
    function WithCode(c: uint16): Head { this.(code := c, description := []) }
  }

  datatype LoadEntry = LoadEntry(
    headerFilename: Chars, partNumber: Chars, ratio: Percent, code: uint16, description: Chars)
  {
    function ToValue(): Value {
      Pair(Str(headerFilename), Pair(Str(partNumber), Pair(Num(ratio), Pair(Num(code), Str(description)))))
    }
  }

  datatype FileEntry = FileEntry(filename: Chars, code: uint16, description: Chars)
  {
    function ToValue(): Value { Pair(Str(filename), Pair(Num(code), Str(description))) }
  }

  function LoadValues(entries: seq<LoadEntry>): (vs: seq<Value>)
    ensures |vs| == |entries| && forall i :: 0 <= i < |entries| ==> vs[i] == entries[i].ToValue()
  {
    seq(|entries|, i requires 0 <= i < |entries| => entries[i].ToValue())
  }

  function FileValues(entries: seq<FileEntry>): (vs: seq<Value>)
    ensures |vs| == |entries| && forall i :: 0 <= i < |entries| ==> vs[i] == entries[i].ToValue()
  {
    seq(|entries|, i requires 0 <= i < |entries| => entries[i].ToValue())
  }

  function StatusValue(h: Head, entries: seq<Value>): Value {
    Pair(Num(h.code), Pair(Str(h.description), Pair(Num(h.counter), Pair(Num(h.exceptionTimer),
      Pair(Num(h.estimatedTime), Pair(Num(h.listRatio), List(entries)))))))
  }

  /** The grammars of the last five, four, ... parts of a status list. */
  function Tail(entry: Grammar, skipped: nat): Grammar
    requires skipped <= 6
    decreases 6 - skipped
  {
    match skipped
    case 0 => StatusList(entry)
    case 1 => Both(String, Tail(entry, 2))
    case 2 => Both(U16, Tail(entry, 3))
    case 3 => Both(U16, Tail(entry, 4))
    case 4 => Both(I16, Tail(entry, 5))
    case 5 => Both(Percentage, Tail(entry, 6))
    case 6 => Counted(entry)
  }

  /** The head, written out, stands in front of the entries. */
  lemma StatusPrinted(g: Grammar, h: Head, entries: seq<Value>)
    requires forall x <- entries :: Fits(g, x)
    ensures Fits(StatusList(g), StatusValue(h, entries)) && Fits(Counted(g), List(entries))
    ensures Encodable(StatusList(g), StatusValue(h, entries)) <==>
            TextFits(h.description, 0) && Encodable(Counted(g), List(entries))
    ensures Encodable(StatusList(g), StatusValue(h, entries)) ==>
              Print(StatusList(g), StatusValue(h, entries)) ==
              PutU16(h.code) + TextBytes(h.description, 0)
              + (PutU16(h.counter) + PutU16(h.exceptionTimer) + PutI16(h.estimatedTime))
              + RatioBytes(h.listRatio) + Print(Counted(g), List(entries))
  {
    hide Fits, Encodable, Print, PutU16, PutI16, RatioBytes, TextBytes, TextFits;
    var v := StatusValue(h, entries);
    CountedPrinted(g, entries);
    LeafPrinted(v.a);
    LeafPrinted(v.b.a);
    LeafPrinted(v.b.b.a);
    LeafPrinted(v.b.b.b.a);
    LeafPrinted(v.b.b.b.b.a);
    LeafPrinted(v.b.b.b.b.b.a);
    PairPrinted(Percentage, Tail(g, 6), v.b.b.b.b.b.a, v.b.b.b.b.b.b);
    PairPrinted(I16, Tail(g, 5), v.b.b.b.b.a, v.b.b.b.b.b);
    PairPrinted(U16, Tail(g, 4), v.b.b.b.a, v.b.b.b.b);
    PairPrinted(U16, Tail(g, 3), v.b.b.a, v.b.b.b);
    PairPrinted(String, Tail(g, 2), v.b.a, v.b.b);
    PairPrinted(Status, Tail(g, 1), v.a, v.b);
    if Encodable(StatusList(g), v) {
      Regroup(PutU16(h.code), TextBytes(h.description, 0), PutU16(h.counter), PutU16(h.exceptionTimer),
              PutI16(h.estimatedTime), RatioBytes(h.listRatio), Print(Counted(g), List(entries)));
    }
  }

  lemma Regroup(a: seq<byte>, b: seq<byte>, c: seq<byte>, d: seq<byte>, e: seq<byte>, f: seq<byte>, g: seq<byte>)
    ensures a + (b + (c + (d + (e + (f + g))))) == a + b + (c + d + e) + f + g
  {
  }

  /** Everything in front of the entries; `None` is the exception. */
  method EncodeHead(h: Head, ghost g: Grammar, ghost entries: seq<Value>) returns (r: Option<seq<byte>>)
    requires forall x <- entries :: Fits(g, x)
    ensures Fits(StatusList(g), StatusValue(h, entries)) && Fits(Counted(g), List(entries))
    ensures r == None ==> !Encodable(StatusList(g), StatusValue(h, entries))
    ensures r.Some? ==>
              && (Encodable(StatusList(g), StatusValue(h, entries)) <==> Encodable(Counted(g), List(entries)))
              && (Encodable(Counted(g), List(entries)) ==>
                    Print(StatusList(g), StatusValue(h, entries)) == r.value + Print(Counted(g), List(entries)))
  {
    hide Fits, Encodable, Print, PutU16, PutI16, RatioBytes, TextBytes, TextFits;
    ghost var v := StatusValue(h, entries);
    StatusPrinted(g, h, entries);
    var raw := PutU16(h.code);
    var description := StringEncode(h.description, 0);
    if description == None {
      return None;
    }
    raw := raw + description.value;
    raw := raw + (PutU16(h.counter) + PutU16(h.exceptionTimer) + PutI16(h.estimatedTime));
    raw := raw + RatioBytes(h.listRatio);
    r := Some(raw);
  }

  /** Fills in the head field by field, and says what is left behind it. */
  method DecodeHead(data: seq<byte>, h: Head, ghost g: Grammar) returns (r: Option<(Head, seq<byte>)>)
    ensures r == None ==> Parse(StatusList(g), data) == Reject
    ensures r.Some? ==>
              match Parse(Counted(g), r.value.1)
              case Reject => Parse(StatusList(g), data) == Reject
              case Accept(v, rest) =>
                v.List? && Parse(StatusList(g), data) == Accept(StatusValue(r.value.0, v.items), rest)
  {
    hide Parse, ParseText, ParseRatio, KnownStatus, GetU16, GetI16;
    LeafParsed(data);
    PairParsed(Status, Tail(g, 1), data);
    if |data| < 2 || !KnownStatus(GetU16(data)) {
      return None;
    }
    var head, remaining := h.WithCode(GetU16(data)), data[2..];
    LeafParsed(remaining);
    PairParsed(String, Tail(g, 2), remaining);
    var description := StringDecode(remaining);
    if description.BadText? {
      return None;
    }
    head, remaining := head.(description := description.s), description.rest;
    LeafParsed(remaining);
    PairParsed(U16, Tail(g, 3), remaining);
    if |remaining| < 2 {
      return None;
    }
    head, remaining := head.(counter := GetU16(remaining)), remaining[2..];
    LeafParsed(remaining);
    PairParsed(U16, Tail(g, 4), remaining);
    if |remaining| < 2 {
      return None;
    }
    head, remaining := head.(exceptionTimer := GetU16(remaining)), remaining[2..];
    LeafParsed(remaining);
    PairParsed(I16, Tail(g, 5), remaining);
    if |remaining| < 2 {
      return None;
    }
    head, remaining := head.(estimatedTime := GetI16(remaining)), remaining[2..];
    LeafParsed(remaining);
    PairParsed(Percentage, Tail(g, 6), remaining);
    var ratio := ParseRatio(remaining);
    if ratio.BadRatio? {
      return None;
    }
    head, remaining := head.(listRatio := ratio.value), ratio.rest;
    CountedParsed(g, remaining);
    r := Some((head, remaining));
  }

  class UploadOperationStatusFile {
    var protocolVersion: uint16
    var head: Head
    var loads: seq<LoadEntry>

    function ToValue(): Value
      reads this
    {
      StatusValue(head, LoadValues(loads))
    }

    constructor (protocolVersion: uint16, head: Head, loads: seq<LoadEntry>)
      ensures this.protocolVersion == protocolVersion && this.head == head && this.loads == loads
    {
      this.protocolVersion, this.head, this.loads := protocolVersion, head, loads;
    }

    method Encode() returns (r: Option<seq<byte>>)
      ensures Fits(Body(LUS), ToValue())
      ensures r == EncodeFile(LUS, protocolVersion, ToValue())
    {
      hide Fits, Encodable, Print, PrintAll;
      forall e: LoadEntry ensures Fits(LoadStatus(), e.ToValue()) { LoadFits(e); }
      var front := EncodeHead(head, LoadStatus(), LoadValues(loads));
      if front == None {
        return None;
      }
      var entries := EncodeLoads(loads);
      if entries == None {
        return None;
      }
      var raw := front.value + entries.value;
      var file := AddHeader(raw, protocolVersion);
      r := Some(file);
    }

    static method EncodeLoads(loads: seq<LoadEntry>) returns (r: Option<seq<byte>>)
      ensures Fits(Counted(LoadStatus()), List(LoadValues(loads)))
      ensures r == if Encodable(Counted(LoadStatus()), List(LoadValues(loads)))
                   then Some(Print(Counted(LoadStatus()), List(LoadValues(loads)))) else None
    {
      hide Fits, Encodable, Print, PrintAll;
      ghost var vs := LoadValues(loads);
      forall e: LoadEntry ensures Fits(LoadStatus(), e.ToValue()) { LoadFits(e); }
      CountedPrinted(LoadStatus(), vs);
      if |loads| > 0xFFFF {
        return None;
      }
      var raw := PutU16(|loads|);
      var i := 0;
      while i < |loads|
        invariant 0 <= i <= |loads|
        invariant AllPrintable(LoadStatus(), vs[..i])
        invariant raw == PutU16(|vs|) + PrintAll(LoadStatus(), vs[..i])
      {
        var entry := EncodeLoad(loads[i]);
        if entry == None {
          assert vs[i] in vs;
          return None;
        }
        PrintAllStep(LoadStatus(), vs, i);
        raw := raw + entry.value;
        i := i + 1;
      }
      assert vs[..i] == vs;
      r := Some(raw);
    }

    static method EncodeLoad(e: LoadEntry) returns (r: Option<seq<byte>>)
      ensures Fits(LoadStatus(), e.ToValue())
      ensures r == if Encodable(LoadStatus(), e.ToValue()) then Some(Print(LoadStatus(), e.ToValue())) else None
    {
      LoadFits(e);
      var name := StringEncode(e.headerFilename, 0);
      var part := StringEncode(e.partNumber, 0);
      var description := StringEncode(e.description, 0);
      ghost var v := e.ToValue();
      PairPrinted(Status, String, v.b.b.b.a, v.b.b.b.b);
      PairPrinted(Percentage, Both(Status, String), v.b.b.a, v.b.b.b);
      PairPrinted(String, Both(Percentage, Both(Status, String)), v.b.a, v.b.b);
      PairPrinted(String, Both(String, Both(Percentage, Both(Status, String))), v.a, v.b);
      if name == None || part == None || description == None {
        return None;
      }
      r := Some(name.value + (part.value + (RatioBytes(e.ratio) + (PutU16(e.code) + description.value))));
    }

    /** Replaces status and loads; `false` is the exception. */
    method Decode(rawData: seq<byte>) returns (ok: bool)
      modifies this
      ensures ok <==> DecodeFile(LUS, rawData).Some?
      ensures ok ==> DecodeFile(LUS, rawData) == Some(File(protocolVersion, ToValue()))
    {
      if |rawData| < HEADER_SIZE + 9 {
        return false;
      }
      var version := DecodeHeader(rawData);
      if version == None {
        return false;
      }
      hide Parse, DecodeHeader;
      protocolVersion := version.value;
      var front := DecodeHead(rawData[HEADER_SIZE..], head, LoadStatus());
      if front == None {
        return false;
      }
      head := front.value.0;
      var entries := DecodeLoads(front.value.1);
      if entries == None {
        return false;
      }
      loads := entries.value.0;
      ok := entries.value.1 == [];
    }

    static method DecodeLoads(data: seq<byte>) returns (r: Option<(seq<LoadEntry>, seq<byte>)>)
      ensures r == None <==> Parse(Counted(LoadStatus()), data) == Reject
      ensures r.Some? ==> Parse(Counted(LoadStatus()), data) == Accept(List(LoadValues(r.value.0)), r.value.1)
    {
      hide Parse, ParseAll, PutInFront, LoadValues;
      CountedParsed(LoadStatus(), data);
      if |data| < 2 {
        return None;
      }
      var count, remaining := GetU16(data), data[2..];
      var entries: seq<LoadEntry> := [];
      var i := 0;
      assert LoadValues([]) == [];
      while i < count
        invariant 0 <= i <= count
        invariant Parse(Counted(LoadStatus()), data) ==
                  PutInFront(LoadValues(entries), ParseAll(LoadStatus(), count - i, remaining))
      {
        ParseAllStep(LoadStatus(), LoadValues(entries), count - i, remaining);
        var entry := DecodeLoad(remaining);
        if entry == None {
          return None;
        }
        assert LoadValues(entries + [entry.value.0]) == LoadValues(entries) + [entry.value.0.ToValue()];
        entries := entries + [entry.value.0];
        remaining := entry.value.1;
        i := i + 1;
      }
      ParseAllDone(LoadStatus(), LoadValues(entries), remaining);
      r := Some((entries, remaining));
    }

    static method DecodeLoad(data: seq<byte>) returns (r: Option<(LoadEntry, seq<byte>)>)
      ensures r == None <==> Parse(LoadStatus(), data) == Reject
      ensures r.Some? ==> Parse(LoadStatus(), data) == Accept(r.value.0.ToValue(), r.value.1)
    {
      hide Parse, ParseText, ParseRatio, KnownStatus, GetU16;
      LeafParsed(data);
      PairParsed(String, Both(String, Both(Percentage, Both(Status, String))), data);
      var name := StringDecode(data);
      if name.BadText? {
        return None;
      }
      LeafParsed(name.rest);
      PairParsed(String, Both(Percentage, Both(Status, String)), name.rest);
      var part := StringDecode(name.rest);
      if part.BadText? {
        return None;
      }
      LeafParsed(part.rest);
      PairParsed(Percentage, Both(Status, String), part.rest);
      var ratio := ParseRatio(part.rest);
      if ratio.BadRatio? {
        return None;
      }
      LeafParsed(ratio.rest);
      PairParsed(Status, String, ratio.rest);
      if |ratio.rest| < 2 || !KnownStatus(GetU16(ratio.rest)) {
        return None;
      }
      LeafParsed(ratio.rest[2..]);
      var description := StringDecode(ratio.rest[2..]);
      if description.BadText? {
        return None;
      }
      r := Some((LoadEntry(name.s, part.s, ratio.value, GetU16(ratio.rest), description.s), description.rest));
    }
  }

  lemma LoadFits(e: LoadEntry)
    ensures Fits(LoadStatus(), e.ToValue())
  {
    var v := e.ToValue();
    PairPrinted(Status, String, v.b.b.b.a, v.b.b.b.b);
    PairPrinted(Percentage, Both(Status, String), v.b.b.a, v.b.b.b);
    PairPrinted(String, Both(Percentage, Both(Status, String)), v.b.a, v.b.b);
  }

  class DownloadOperationStatusFile {
    var protocolVersion: uint16
    var head: Head
    var files: seq<FileEntry>

    function ToValue(): Value
      reads this
    {
      StatusValue(head, FileValues(files))
    }

    constructor (protocolVersion: uint16, head: Head, files: seq<FileEntry>)
      ensures this.protocolVersion == protocolVersion && this.head == head && this.files == files
    {
      this.protocolVersion, this.head, this.files := protocolVersion, head, files;
    }

    method Encode() returns (r: Option<seq<byte>>)
      ensures Fits(Body(LNS), ToValue())
      ensures r == EncodeFile(LNS, protocolVersion, ToValue())
    {
      hide Fits, Encodable, Print, PrintAll;
      forall e: FileEntry ensures Fits(FileStatus(), e.ToValue()) { FileFits(e); }
      var front := EncodeHead(head, FileStatus(), FileValues(files));
      if front == None {
        return None;
      }
      var entries := EncodeFiles(files);
      if entries == None {
        return None;
      }
      var raw := front.value + entries.value;
      var file := AddHeader(raw, protocolVersion);
      r := Some(file);
    }

    static method EncodeFiles(files: seq<FileEntry>) returns (r: Option<seq<byte>>)
      ensures Fits(Counted(FileStatus()), List(FileValues(files)))
      ensures r == if Encodable(Counted(FileStatus()), List(FileValues(files)))
                   then Some(Print(Counted(FileStatus()), List(FileValues(files)))) else None
    {
      hide Fits, Encodable, Print, PrintAll;
      ghost var vs := FileValues(files);
      forall e: FileEntry ensures Fits(FileStatus(), e.ToValue()) { FileFits(e); }
      CountedPrinted(FileStatus(), vs);
      if |files| > 0xFFFF {
        return None;
      }
      var raw := PutU16(|files|);
      var i := 0;
      while i < |files|
        invariant 0 <= i <= |files|
        invariant AllPrintable(FileStatus(), vs[..i])
        invariant raw == PutU16(|vs|) + PrintAll(FileStatus(), vs[..i])
      {
        FileFits(files[i]);
        var name := StringEncode(files[i].filename, 0);
        var description := StringEncode(files[i].description, 0);
        EntryPrinted(files[i]);
        if name == None || description == None {
          assert vs[i] in vs;
          return None;
        }
        PrintAllStep(FileStatus(), vs, i);
        raw := raw + (name.value + (PutU16(files[i].code) + description.value));
        i := i + 1;
      }
      assert vs[..i] == vs;
      r := Some(raw);
    }

    /** Replaces status and files; `false` is the exception. */
    method Decode(rawData: seq<byte>) returns (ok: bool)
      modifies this
      ensures ok <==> DecodeFile(LNS, rawData).Some?
      ensures ok ==> DecodeFile(LNS, rawData) == Some(File(protocolVersion, ToValue()))
    {
      if |rawData| < HEADER_SIZE + 9 {
        return false;
      }
      var version := DecodeHeader(rawData);
      if version == None {
        return false;
      }
      hide Parse, DecodeHeader;
      protocolVersion := version.value;
      var front := DecodeHead(rawData[HEADER_SIZE..], head, FileStatus());
      if front == None {
        return false;
      }
      head := front.value.0;
      var entries := DecodeFiles(front.value.1);
      if entries == None {
        return false;
      }
      files := entries.value.0;
      ok := entries.value.1 == [];
    }

    static method DecodeFiles(data: seq<byte>) returns (r: Option<(seq<FileEntry>, seq<byte>)>)
      ensures r == None <==> Parse(Counted(FileStatus()), data) == Reject
      ensures r.Some? ==> Parse(Counted(FileStatus()), data) == Accept(List(FileValues(r.value.0)), r.value.1)
    {
      hide Parse, ParseAll, PutInFront, FileValues;
      CountedParsed(FileStatus(), data);
      if |data| < 2 {
        return None;
      }
      var count, remaining := GetU16(data), data[2..];
      var entries: seq<FileEntry> := [];
      var i := 0;
      assert FileValues([]) == [];
      while i < count
        invariant 0 <= i <= count
        invariant Parse(Counted(FileStatus()), data) ==
                  PutInFront(FileValues(entries), ParseAll(FileStatus(), count - i, remaining))
      {
        ParseAllStep(FileStatus(), FileValues(entries), count - i, remaining);
        var entry := DecodeEntry(remaining);
        if entry == None {
          return None;
        }
        assert FileValues(entries + [entry.value.0]) == FileValues(entries) + [entry.value.0.ToValue()];
        entries := entries + [entry.value.0];
        remaining := entry.value.1;
        i := i + 1;
      }
      ParseAllDone(FileStatus(), FileValues(entries), remaining);
      r := Some((entries, remaining));
    }

    static method DecodeEntry(data: seq<byte>) returns (r: Option<(FileEntry, seq<byte>)>)
      ensures r == None <==> Parse(FileStatus(), data) == Reject
      ensures r.Some? ==> Parse(FileStatus(), data) == Accept(r.value.0.ToValue(), r.value.1)
    {
      PairParsed(String, Both(Status, String), data);
      var name := StringDecode(data);
      if name.BadText? {
        return None;
      }
      PairParsed(Status, String, name.rest);
      if |name.rest| < 2 || !KnownStatus(GetU16(name.rest)) {
        return None;
      }
      var description := StringDecode(name.rest[2..]);
      if description.BadText? {
        return None;
      }
      r := Some((FileEntry(name.s, GetU16(name.rest), description.s), description.rest));
    }
  }

  lemma FileFits(e: FileEntry)
    ensures Fits(FileStatus(), e.ToValue())
  {
  }

  lemma EntryPrinted(e: FileEntry)
    ensures Fits(FileStatus(), e.ToValue())
    ensures Encodable(FileStatus(), e.ToValue()) <==> TextFits(e.filename, 0) && TextFits(e.description, 0)
    ensures Encodable(FileStatus(), e.ToValue()) ==>
              Print(FileStatus(), e.ToValue()) ==
              TextBytes(e.filename, 0) + (PutU16(e.code) + TextBytes(e.description, 0))
  {
    FileFits(e);
    PairPrinted(Status, String, e.ToValue().b.a, e.ToValue().b.b);
    PairPrinted(String, Both(Status, String), e.ToValue().a, e.ToValue().b);
  }
}

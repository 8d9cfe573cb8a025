/** The files without a list: initialisation (LCI, LUI, LND, LNO) and information status (LCS). */
module FixedFiles {
  import opened Bytes
  import opened Text
  import opened Grammar
  import opened Files

  class InitializationFile {
    var protocolVersion: uint16
    var code: uint16
    var description: Chars

    function ToValue(): Value
      reads this
    {
      Pair(Num(code), Str(description))
    }

    constructor (protocolVersion: uint16, code: uint16, description: Chars)
      ensures this.protocolVersion == protocolVersion && this.code == code && this.description == description
    {
      this.protocolVersion, this.code, this.description := protocolVersion, code, description;
    }

    method Encode() returns (r: Option<seq<byte>>)
      ensures Fits(Body(INIT), ToValue())
      ensures r == EncodeFile(INIT, protocolVersion, ToValue())
    {
      PairPrinted(Acceptance, String, Num(code), Str(description));
      var raw := PutU16(code);
      var message := StringEncode(description, 0);
      if message == None {
        return None;
      }
      raw := raw + message.value;
      var file := AddHeader(raw, protocolVersion);
      r := Some(file);
    }

    /** Replaces code and description; `false` is the exception. */
    method Decode(rawData: seq<byte>) returns (ok: bool)
      modifies this
      ensures ok <==> DecodeFile(INIT, rawData).Some?
      ensures ok ==> DecodeFile(INIT, rawData) == Some(File(protocolVersion, ToValue()))
    {
      if |rawData| < HEADER_SIZE + 3 {
        return false;
      }
      var version := DecodeHeader(rawData);
      if version == None {
        return false;
      }
      hide DecodeHeader;
      protocolVersion := version.value;
      var remaining := rawData[HEADER_SIZE..];
      PairParsed(Acceptance, String, remaining);
      if !KnownAcceptance(GetU16(remaining)) {
        return false;
      }
      code, remaining := GetU16(remaining), remaining[2..];
      var text := StringDecode(remaining);
      if text.BadText? {
        return false;
      }
      description, remaining := text.s, text.rest;
      ok := remaining == [];
    }
  }

  class InformationOperationStatusFile {
    var protocolVersion: uint16
    var counter: uint16
    var code: uint16
    var exceptionTimer: uint16
    var estimatedTime: int16
    var description: Chars

    function ToValue(): Value
      reads this
    {
      Pair(Num(counter), Pair(Num(code), Pair(Num(exceptionTimer), Pair(Num(estimatedTime), Str(description)))))
    }

    constructor (protocolVersion: uint16, counter: uint16, code: uint16, exceptionTimer: uint16, estimatedTime: int16,
                 description: Chars)
      ensures this.protocolVersion == protocolVersion
      ensures ToValue() ==
              Pair(Num(counter), Pair(Num(code), Pair(Num(exceptionTimer), Pair(Num(estimatedTime), Str(description)))))
    {
      this.protocolVersion, this.counter, this.code := protocolVersion, counter, code;
      this.exceptionTimer, this.estimatedTime, this.description := exceptionTimer, estimatedTime, description;
    }

    method Encode() returns (r: Option<seq<byte>>)
      ensures Fits(Body(LCS), ToValue())
      ensures r == EncodeFile(LCS, protocolVersion, ToValue())
    {
      hide Fits, Encodable, Print, PutU16, PutI16, TextBytes, TextFits;
      ghost var v := ToValue();
      LeafPrinted(v.a);
      LeafPrinted(v.b.a);
      LeafPrinted(v.b.b.a);
      LeafPrinted(v.b.b.b.a);
      LeafPrinted(v.b.b.b.b);
      PairPrinted(I16, String, v.b.b.b.a, v.b.b.b.b);
      PairPrinted(U16, Both(I16, String), v.b.b.a, v.b.b.b);
      PairPrinted(Status, Both(U16, Both(I16, String)), v.b.a, v.b.b);
      PairPrinted(U16, Both(Status, Both(U16, Both(I16, String))), v.a, v.b);
      var text := StringEncode(description, 0);
      if text == None {
        return None;
      }
      var raw := PutU16(counter) + (PutU16(code) + (PutU16(exceptionTimer) + (PutI16(estimatedTime) + text.value)));
      var file := AddHeader(raw, protocolVersion);
      r := Some(file);
    }

    /** A new code comes without a description. */
    method SetCode(c: uint16)
      modifies this`code, this`description
      ensures code == c && description == []
    {
      code, description := c, [];
    }

    /** Replaces the status; `false` is the exception. */
    method Decode(rawData: seq<byte>) returns (ok: bool)
      modifies this
      ensures ok <==> DecodeFile(LCS, rawData).Some?
      ensures ok ==> DecodeFile(LCS, rawData) == Some(File(protocolVersion, ToValue()))
    {
      if |rawData| < HEADER_SIZE + 9 {
        return false;
      }
      var version := DecodeHeader(rawData);
      if version == None {
        return false;
      }
      hide Parse, DecodeHeader;
      protocolVersion := version.value;
      var remaining;
      ok, remaining := DecodeStatus(rawData[HEADER_SIZE..]);
      ok := ok && remaining == [];
    }

    /** Sets the status field by field. */
    method DecodeStatus(data: seq<byte>) returns (ok: bool, remaining: seq<byte>)
      requires |data| >= 9
      modifies this`counter, this`code, this`exceptionTimer, this`estimatedTime, this`description
      ensures Parse(Body(LCS), data) == if ok then Accept(ToValue(), remaining) else Reject
    {
      hide Parse, ParseText, KnownStatus, GetU16, GetI16;
      remaining := data;
      LeafParsed(remaining);
      PairParsed(U16, Both(Status, Both(U16, Both(I16, String))), remaining);
      counter, remaining := GetU16(remaining), remaining[2..];
      LeafParsed(remaining);
      PairParsed(Status, Both(U16, Both(I16, String)), remaining);
      if !KnownStatus(GetU16(remaining)) {
        return false, remaining;
      }
      SetCode(GetU16(remaining));
      remaining := remaining[2..];
      LeafParsed(remaining);
      PairParsed(U16, Both(I16, String), remaining);
      exceptionTimer, remaining := GetU16(remaining), remaining[2..];
      LeafParsed(remaining);
      PairParsed(I16, String, remaining);
      estimatedTime, remaining := GetI16(remaining), remaining[2..];
      LeafParsed(remaining);
      var text := StringDecode(remaining);
      if text.BadText? {
        return false, remaining;
      }
      description, remaining := text.s, text.rest;
      ok := true;
    }
  }
}

/** FIND packets: an opcode, NUL-terminated strings and a terminating octet. */
module FindPacket {
  import opened Bytes
  import opened Text

  const PACKET_TERMINATOR: byte := 0x10
  const INFORMATION_REQUEST: uint16 := 1
  const INFORMATION_ANSWER: uint16 := 2
  const OPCODE_INVALID: uint16 := 0xFFFF

  predicate KnownOpcode(n: int) {
    n == INFORMATION_REQUEST || n == INFORMATION_ANSWER
  }

  datatype Contents = Contents(opcode: uint16, parameters: seq<Chars>)

  /** The strings one after the other, each with its terminator. */
  function Terminated(ps: seq<Chars>): seq<byte> {
    if ps == [] then [] else ps[0] + [NUL] + Terminated(ps[1..])
  }

  function EncodePacket(c: Contents): seq<byte> {
    PutU16(c.opcode) + Terminated(c.parameters) + [PACKET_TERMINATOR]
  }

  /** The strings of `b`, each up to a NUL; `None` if the last one has no terminator. */
  function Strings(b: seq<byte>): Option<seq<Chars>> {
    if b == [] then Some([])
    else
      var s := CutAtNul(b);
      if |s| == |b| then None
      else match Strings(b[|s| + 1..])
        case None => None
        case Some(more) => Some([s] + more)
  }

  /** `None` is the exception InvalidFindPacket. */
  function DecodePacket(raw: seq<byte>): Option<Contents> {
    if |raw| <= 2 || raw[|raw| - 1] != PACKET_TERMINATOR || !KnownOpcode(GetU16(raw)) then None
    else match Strings(raw[2..|raw| - 1])
      case None => None
      case Some(ps) => if ps == [] then None else Some(Contents(GetU16(raw), ps))
  }

  function PacketType(raw: seq<byte>): uint16 {
    if |raw| < 2 || !KnownOpcode(GetU16(raw)) then OPCODE_INVALID else GetU16(raw)
  }

  // ---- Encoding after decoding ------------------------------------------------------------------------------------------

  lemma StringsStep(s: Chars, tail: seq<byte>)
    requires NUL !in s
    ensures Strings(s + [NUL] + tail) ==
            if Strings(tail) == None then None else Some([s] + Strings(tail).value)
  {
    hide CutAtNul;
    var b := s + [NUL] + tail;
    assert b[..|s|] == s && b[|s|] == NUL && b[|s| + 1..] == tail;
    CutIsFirstNul(b, |s|);
  }

  lemma {:induction false} StringsThenTerminated(b: seq<byte>)
    requires Strings(b).Some?
    ensures Terminated(Strings(b).value) == b
    ensures forall p <- Strings(b).value :: NUL !in p
  {
    hide CutAtNul;
    if b != [] {
      var s := CutAtNul(b);
      var tail := b[|s| + 1..];
      StringsThenTerminated(tail);
      var ps := [s] + Strings(tail).value;
      assert ps[0] == s && ps[1..] == Strings(tail).value;
      assert Terminated(ps) == s + [NUL] + tail == b;
    }
  }

  /** Every accepted packet is the encoding of its contents, which are a known opcode and NUL-free strings. */
  lemma DecodeThenEncode(raw: seq<byte>)
    requires DecodePacket(raw).Some?
    ensures EncodePacket(DecodePacket(raw).value) == raw
    ensures var c := DecodePacket(raw).value;
            KnownOpcode(c.opcode) && c.parameters != [] && PacketType(raw) == c.opcode
            && forall p <- c.parameters :: NUL !in p
  {
    hide Strings, Terminated, PutU16, GetU16;
    StringsThenTerminated(raw[2..|raw| - 1]);
    U16Exact(raw);
    assert raw == raw[..2] + raw[2..|raw| - 1] + [PACKET_TERMINATOR];
  }

  // ---- Decoding after encoding ----------------------------------------------------------------------------------------------

  /** The pieces between the NULs of `s`; there is always at least one. */
  function Pieces(s: Chars): (ps: seq<Chars>)
    ensures ps != []
  {
    var p := CutAtNul(s);
    if |p| == |s| then [s] else [p] + Pieces(s[|p| + 1..])
  }

  function AllPieces(ps: seq<Chars>): seq<Chars> {
    if ps == [] then [] else Pieces(ps[0]) + AllPieces(ps[1..])
  }

  lemma {:induction false} StringsOfPieces(s: Chars, b: seq<byte>)
    requires Strings(b).Some?
    ensures Strings(s + [NUL] + b) == Some(Pieces(s) + Strings(b).value)
    decreases |s|
  {
    hide CutAtNul, Strings;
    var p := CutAtNul(s);
    if |p| == |s| {
      assert p == s;
      StringsStep(s, b);
    } else {
      var rest := s[|p| + 1..];
      assert s + [NUL] + b == p + [NUL] + (rest + [NUL] + b);
      StringsStep(p, rest + [NUL] + b);
      StringsOfPieces(rest, b);
      assert [p] + (Pieces(rest) + Strings(b).value) == Pieces(s) + Strings(b).value;
    }
  }

  lemma {:induction false} TerminatedThenStrings(ps: seq<Chars>)
    ensures Strings(Terminated(ps)) == Some(AllPieces(ps))
  {
    if ps != [] {
      TerminatedThenStrings(ps[1..]);
      StringsOfPieces(ps[0], Terminated(ps[1..]));
    }
  }

  /**
   * Decoding an encoded packet gives the opcode and the strings split at their NULs, if and only if the opcode is
   * known and there is at least one string.
   */
  lemma EncodeThenDecode(c: Contents)
    ensures DecodePacket(EncodePacket(c)) ==
            if KnownOpcode(c.opcode) && c.parameters != [] then Some(Contents(c.opcode, AllPieces(c.parameters))) else None
  {
    var raw := EncodePacket(c);
    assert raw == PutU16(c.opcode) + (Terminated(c.parameters) + [PACKET_TERMINATOR]);
    U16RoundTrip(c.opcode, Terminated(c.parameters) + [PACKET_TERMINATOR]);
    assert raw[2..|raw| - 1] == Terminated(c.parameters);
    TerminatedThenStrings(c.parameters);
    if c.parameters != [] {
      assert Pieces(c.parameters[0]) != [];
    }
  }

  lemma {:induction false} PiecesOfNulFree(ps: seq<Chars>)
    requires forall p <- ps :: NUL !in p
    ensures AllPieces(ps) == ps
  {
    if ps != [] {
      PiecesOfNulFree(ps[1..]);
      assert ps[0] in ps;
    }
  }

  /** Accepted packets and valid contents correspond one to one. */
  lemma PacketBijection(c: Contents, raw: seq<byte>)
    requires KnownOpcode(c.opcode) && c.parameters != [] && forall p <- c.parameters :: NUL !in p
    ensures DecodePacket(raw) == Some(c) <==> raw == EncodePacket(c)
  {
    PiecesOfNulFree(c.parameters);
    EncodeThenDecode(c);
    if DecodePacket(raw) == Some(c) {
      DecodeThenEncode(raw);
    }
  }

  /** All strings, once `ps` have been read. */
  function After(ps: seq<Chars>, more: Option<seq<Chars>>): Option<seq<Chars>> {
    if more == None then None else Some(ps + more.value)
  }

  lemma StringsFrom(ps: seq<Chars>, b: seq<byte>)
    ensures ps == [] ==> After(ps, Strings(b)) == Strings(b)
    ensures b == [] ==> After(ps, Strings(b)) == Some(ps)
    ensures b != [] ==>
              var s := CutAtNul(b);
              After(ps, Strings(b)) == if |s| == |b| then None else After(ps + [s], Strings(b[|s| + 1..]))
  {
    hide CutAtNul, Strings;
    assert ps + [] == ps;
    if b == [] {
      assert Strings(b) == Some([]) by { StringsOfNothing(); }
    } else {
      var s := CutAtNul(b);
      if |s| == |b| {
        UnterminatedStrings(b);
      } else {
        var tail := b[|s| + 1..];
        assert b == s + [NUL] + tail;
        StringsStep(s, tail);
        if Strings(tail).Some? {
          assert ps + ([s] + Strings(tail).value) == ps + [s] + Strings(tail).value;
        }
      }
    }
    if ps == [] && Strings(b).Some? {
      assert ps + Strings(b).value == Strings(b).value;
    }
  }

  lemma StringsOfNothing()
    ensures Strings([]) == Some([])
  {
  }

  lemma UnterminatedStrings(b: seq<byte>)
    requires b != [] && CutAtNul(b) == b
    ensures Strings(b) == None
  {
  }

  class Packet {
    var opcode: uint16
    var parameters: seq<Chars>

    function View(): Contents
      reads this
    {
      Contents(opcode, parameters)
    }

    constructor (opcode: uint16, parameters: seq<Chars>)
      ensures View() == Contents(opcode, parameters)
    {
      this.opcode, this.parameters := opcode, parameters;
    }

    /** The decoding constructor; `null` is the exception. */
    static method FromRaw(rawPacket: seq<byte>) returns (p: Packet?)
      ensures p == null <==> DecodePacket(rawPacket) == None
      ensures p != null ==> fresh(p) && DecodePacket(rawPacket) == Some(p.View())
    {
      hide Strings, CutAtNul, After;
      if |rawPacket| <= 2 {
        return null;
      }
      if rawPacket[|rawPacket| - 1] != PACKET_TERMINATOR {
        return null;
      }
      var opcode := GetU16(rawPacket);
      if !KnownOpcode(opcode) {
        return null;
      }
      var remaining := rawPacket[2..|rawPacket| - 1];
      ghost var whole := remaining;
      var parameters: seq<Chars> := [];
      StringsFrom(parameters, remaining);
      while remaining != []
        invariant Strings(whole) == After(parameters, Strings(remaining))
        decreases |remaining|
      {
        var end := 0;
        while end < |remaining| && remaining[end] != NUL
          invariant 0 <= end <= |remaining| && NUL !in remaining[..end]
        {
          end := end + 1;
        }
        CutIsFirstNul(remaining, end);
        StringsFrom(parameters, remaining);
        if end == |remaining| {
          return null;
        }
        parameters := parameters + [remaining[..end]];
        remaining := remaining[end + 1..];
      }
      StringsFrom(parameters, remaining);
      if parameters == [] {
        return null;
      }
      p := new Packet(opcode, parameters);
    }

    method Encode() returns (raw: seq<byte>)
      ensures raw == EncodePacket(View())
    {
      raw := PutU16(opcode);
      var i := 0;
      while i < |parameters|
        invariant 0 <= i <= |parameters|
        invariant raw + Terminated(parameters[i..]) == PutU16(opcode) + Terminated(parameters)
      {
        assert parameters[i..][1..] == parameters[i + 1..];
        assert raw + (parameters[i] + [NUL] + Terminated(parameters[i + 1..])) ==
               raw + parameters[i] + [NUL] + Terminated(parameters[i + 1..]);
        raw := raw + parameters[i] + [NUL];
        i := i + 1;
      }
      assert raw + [] == raw;
      raw := raw + [PACKET_TERMINATOR];
    }
  }
}

/** lib/DnsHeader.hpp: the twelve header bytes of section 4.1.1 of RFC 1035. */
module DnsHeaders {
  import opened Bytes
  import opened NameWire
  import opened PacketBuffer
  import opened QueryTypes

  const HEADER_SIZE: nat := 12

  datatype Header = Header(
    id: u16,
    recursionDesired: bool, truncatedMessage: bool, authoritativeAnswer: bool, opcode: byte, response: bool,
    rescode: ResultCode, checkingDisabled: bool, authedData: bool, z: bool, recursionAvailable: bool,
    questions: u16, answers: u16, authoritativeEntries: u16, resourceEntries: u16)

  const NEW_HEADER: Header :=
    Header(0, false, false, false, 0, false, NOERROR, false, false, false, false, 0, 0, 0, 0)

  function Bit(b: bool): byte { if b then 1 else 0 }

  predicate IsSet(b: byte, mask: byte)
    requires mask > 0
  {
    b / mask % 2 == 1
  }

  /** The opcode is shifted unmasked: its fifth bit lands on the response bit, higher bits are cut off. */
  function FlagsHigh(h: Header): byte {
    Bit(h.recursionDesired) + 2 * Bit(h.truncatedMessage) + 4 * Bit(h.authoritativeAnswer)
    + 8 * (h.opcode % 16) + 128 * Bit(h.response || IsSet(h.opcode, 16))
  }

  function FlagsLow(h: Header): byte {
    ResultCodeToNum(h.rescode) + 16 * Bit(h.checkingDisabled) + 32 * Bit(h.authedData)
    + 64 * Bit(h.z) + 128 * Bit(h.recursionAvailable)
  }

  function EncodeHeader(h: Header): (enc: seq<byte>)
    ensures |enc| == HEADER_SIZE
  {
    U16Bytes(h.id) + [FlagsHigh(h), FlagsLow(h)]
    + U16Bytes(h.questions) + U16Bytes(h.answers) + U16Bytes(h.authoritativeEntries) + U16Bytes(h.resourceEntries)
  }

  function HeaderAt(d: seq<byte>, p: nat): Option<Header> {
    if p + HEADER_SIZE > |d| then None
    else
      var a, b := d[p + 2], d[p + 3];
      Some(Header(
        U16Of(d[p], d[p + 1]),
        IsSet(a, 1), IsSet(a, 2), IsSet(a, 4), a / 8 % 16, IsSet(a, 128),
        ResultCodeFromNum(b % 16), IsSet(b, 16), IsSet(b, 32), IsSet(b, 64), IsSet(b, 128),
        U16Of(d[p + 4], d[p + 5]), U16Of(d[p + 6], d[p + 7]),
        U16Of(d[p + 8], d[p + 9]), U16Of(d[p + 10], d[p + 11])))
  }

  lemma HighFieldsApart(b0: nat, b1: nat, b2: nat, o: nat, b7: nat)
    requires b0 < 2 && b1 < 2 && b2 < 2 && o < 16 && b7 < 2
    ensures var a := b0 + 2 * b1 + 4 * b2 + 8 * o + 128 * b7;
      a / 1 % 2 == b0 && a / 2 % 2 == b1 && a / 4 % 2 == b2 && a / 8 % 16 == o && a / 128 % 2 == b7
  {
    var a := b0 + 2 * b1 + 4 * b2 + 8 * o + 128 * b7;
    assert a / 2 == b1 + 2 * b2 + 4 * o + 64 * b7;
    assert a / 4 == b2 + 2 * o + 32 * b7;
    assert a / 8 == o + 16 * b7;
  }

  lemma LowFieldsApart(code: nat, b4: nat, b5: nat, b6: nat, b7: nat)
    requires code < 16 && b4 < 2 && b5 < 2 && b6 < 2 && b7 < 2
    ensures var b := code + 16 * b4 + 32 * b5 + 64 * b6 + 128 * b7;
      b % 16 == code && b / 16 % 2 == b4 && b / 32 % 2 == b5 && b / 64 % 2 == b6 && b / 128 % 2 == b7
  {
    var b := code + 16 * b4 + 32 * b5 + 64 * b6 + 128 * b7;
    assert b / 16 == b4 + 2 * b5 + 4 * b6 + 8 * b7;
    assert b / 32 == b5 + 2 * b6 + 4 * b7;
    assert b / 64 == b6 + 2 * b7;
  }

  lemma FlagsHighBits(h: Header)
    ensures var a := FlagsHigh(h);
      && IsSet(a, 1) == h.recursionDesired && IsSet(a, 2) == h.truncatedMessage && IsSet(a, 4) == h.authoritativeAnswer
      && a / 8 % 16 == h.opcode % 16
      && IsSet(a, 128) == (h.response || IsSet(h.opcode, 16))
  {
    HighFieldsApart(Bit(h.recursionDesired), Bit(h.truncatedMessage), Bit(h.authoritativeAnswer),
      h.opcode % 16, Bit(h.response || IsSet(h.opcode, 16)));
  }

  lemma FlagsLowBits(h: Header)
    ensures var b := FlagsLow(h);
      && b % 16 == ResultCodeToNum(h.rescode)
      && IsSet(b, 16) == h.checkingDisabled && IsSet(b, 32) == h.authedData
      && IsSet(b, 64) == h.z && IsSet(b, 128) == h.recursionAvailable
  {
    LowFieldsApart(ResultCodeToNum(h.rescode), Bit(h.checkingDisabled), Bit(h.authedData), Bit(h.z),
      Bit(h.recursionAvailable));
  }

  /** Reading back a written header is faithful exactly for four-bit opcodes. */
  lemma HeaderRoundTrip(d: seq<byte>, p: nat, h: Header)
    requires At(d, p, EncodeHeader(h))
    ensures HeaderAt(d, p).Some?
    ensures HeaderAt(d, p).value == h <==> h.opcode < 16
    ensures HeaderAt(d, p).value.questions == h.questions && HeaderAt(d, p).value.answers == h.answers
    ensures HeaderAt(d, p).value.authoritativeEntries == h.authoritativeEntries
    ensures HeaderAt(d, p).value.resourceEntries == h.resourceEntries
  {
    HeaderBytes(d, p, h);
    FlagsHighBits(h);
    FlagsLowBits(h);
    if h.opcode < 16 { assert !IsSet(h.opcode, 16); }
    hide FlagsHigh, FlagsLow, IsSet, ResultCodeToNum, ResultCodeFromNum, EncodeHeader, At;
  }

  lemma HeaderBytes(d: seq<byte>, p: nat, h: Header)
    requires At(d, p, EncodeHeader(h))
    ensures p + HEADER_SIZE <= |d| && d[p + 2] == FlagsHigh(h) && d[p + 3] == FlagsLow(h)
    ensures U16Of(d[p], d[p + 1]) == h.id
    ensures U16Of(d[p + 4], d[p + 5]) == h.questions && U16Of(d[p + 6], d[p + 7]) == h.answers
    ensures U16Of(d[p + 8], d[p + 9]) == h.authoritativeEntries && U16Of(d[p + 10], d[p + 11]) == h.resourceEntries
  {
    hide FlagsHigh, FlagsLow;
    var enc := EncodeHeader(h);
    forall i | 0 <= i < HEADER_SIZE ensures d[p + i] == enc[i] {
      assert d[p..p + HEADER_SIZE][i] == d[p + i];
    }
  }

  class DnsHeader {
    var id: u16
    var recursionDesired: bool
    var truncatedMessage: bool
    var authoritativeAnswer: bool
    var opcode: byte
    var response: bool
    var rescode: ResultCode
    var checkingDisabled: bool
    var authedData: bool
    var z: bool
    var recursionAvailable: bool
    var questions: u16
    var answers: u16
    var authoritativeEntries: u16
    var resourceEntries: u16

    function Value(): Header
      reads this
    {
      Header(id, recursionDesired, truncatedMessage, authoritativeAnswer, opcode, response,
             rescode, checkingDisabled, authedData, z, recursionAvailable,
             questions, answers, authoritativeEntries, resourceEntries)
    }

    constructor ()
      ensures Value() == NEW_HEADER
    {
      id, recursionDesired, truncatedMessage, authoritativeAnswer, opcode := 0, false, false, false, 0;
      response, rescode, checkingDisabled, authedData, z := false, NOERROR, false, false, false;
      recursionAvailable, questions, answers, authoritativeEntries, resourceEntries := false, 0, 0, 0, 0;
    }

    method Read(buffer: BytePacketBuffer) returns (ok: bool)
      requires buffer.Valid()
      modifies this, buffer`currPos
      ensures ok == HeaderAt(buffer.Data(), old(buffer.currPos)).Some?
      ensures ok ==> Value() == HeaderAt(buffer.Data(), old(buffer.currPos)).value
      ensures ok ==> buffer.currPos == old(buffer.currPos) + HEADER_SIZE
    {
      hide IsSet, ResultCodeFromNum, U16Of;
      var w := buffer.ReadU16();
      if w.None? { return false; }
      id := w.value;
      w := buffer.ReadU16();
      if w.None? { return false; }
      ghost var p := buffer.currPos;
      U16Inverse(buffer.Data()[p - 2], buffer.Data()[p - 1]);
      SetFlags(w.value / 0x100, w.value % 0x100);
      ok := ReadCounts(buffer);
    }

    method SetFlags(a: byte, b: byte)
      modifies this`recursionDesired, this`truncatedMessage, this`authoritativeAnswer, this`opcode, this`response,
        this`rescode, this`checkingDisabled, this`authedData, this`z, this`recursionAvailable
      ensures recursionDesired == IsSet(a, 1) && truncatedMessage == IsSet(a, 2) && authoritativeAnswer == IsSet(a, 4)
      ensures opcode == a / 8 % 16 && response == IsSet(a, 128)
      ensures rescode == ResultCodeFromNum(b % 16) && checkingDisabled == IsSet(b, 16) && authedData == IsSet(b, 32)
      ensures z == IsSet(b, 64) && recursionAvailable == IsSet(b, 128)
    {
      hide IsSet, ResultCodeFromNum;
      recursionDesired := IsSet(a, 1);
      truncatedMessage := IsSet(a, 2);
      authoritativeAnswer := IsSet(a, 4);
      opcode := a / 8 % 16;
      response := IsSet(a, 128);
      rescode := ResultCodeFromNum(b % 16);
      checkingDisabled := IsSet(b, 16);
      authedData := IsSet(b, 32);
      z := IsSet(b, 64);
      recursionAvailable := IsSet(b, 128);
    }

    method ReadCounts(buffer: BytePacketBuffer) returns (ok: bool)
      requires buffer.Valid()
      modifies this`questions, this`answers, this`authoritativeEntries, this`resourceEntries, buffer`currPos
      ensures ok == (old(buffer.currPos) + 8 <= PACKET_SIZE)
      ensures ok ==> buffer.currPos == old(buffer.currPos) + 8
      ensures ok ==> Some(questions) == U16At(buffer.Data(), old(buffer.currPos))
      ensures ok ==> Some(answers) == U16At(buffer.Data(), old(buffer.currPos) + 2)
      ensures ok ==> Some(authoritativeEntries) == U16At(buffer.Data(), old(buffer.currPos) + 4)
      ensures ok ==> Some(resourceEntries) == U16At(buffer.Data(), old(buffer.currPos) + 6)
    {
      var w := buffer.ReadU16();
      if w.None? { return false; }
      questions := w.value;
      w := buffer.ReadU16();
      if w.None? { return false; }
      answers := w.value;
      w := buffer.ReadU16();
      if w.None? { return false; }
      authoritativeEntries := w.value;
      w := buffer.ReadU16();
      if w.None? { return false; }
      resourceEntries := w.value;
      ok := true;
    }

    method Write(buffer: BytePacketBuffer) returns (ok: bool)
      requires buffer.Valid()
      modifies buffer`currPos, buffer.buf
      ensures ok == (old(buffer.currPos) + HEADER_SIZE <= PACKET_SIZE)
      ensures ok ==> buffer.Data() == Splice(old(buffer.Data()), old(buffer.currPos), EncodeHeader(Value()))
      ensures ok ==> buffer.currPos == old(buffer.currPos) + HEADER_SIZE
    {
      hide Splice;
      ghost var d, p := buffer.Data(), buffer.currPos;
      var h := Value();
      ok := buffer.WriteU16(id);
      if !ok { return; }
      ok := buffer.Write(FlagsHigh(h));
      if !ok { return; }
      SpliceAppend(d, p, U16Bytes(h.id), [FlagsHigh(h)]);
      ok := buffer.Write(FlagsLow(h));
      if !ok { return; }
      ghost var enc := U16Bytes(h.id) + [FlagsHigh(h)];
      SpliceAppend(d, p, enc, [FlagsLow(h)]);
      enc := enc + [FlagsLow(h)];
      ok := buffer.WriteU16(questions);
      if !ok { return; }
      SpliceAppend(d, p, enc, U16Bytes(h.questions));
      enc := enc + U16Bytes(h.questions);
      ok := buffer.WriteU16(answers);
      if !ok { return; }
      SpliceAppend(d, p, enc, U16Bytes(h.answers));
      enc := enc + U16Bytes(h.answers);
      ok := buffer.WriteU16(authoritativeEntries);
      if !ok { return; }
      SpliceAppend(d, p, enc, U16Bytes(h.authoritativeEntries));
      enc := enc + U16Bytes(h.authoritativeEntries);
      ok := buffer.WriteU16(resourceEntries);
      if !ok { return; }
      SpliceAppend(d, p, enc, U16Bytes(h.resourceEntries));
      assert enc + U16Bytes(h.resourceEntries) == EncodeHeader(h);
    }
  }
}

/** lib/DnsPacket.hpp: the packet object, written to and read from the shared buffer section by section. */
module DnsPackets {
  import opened Bytes
  import opened NameWire
  import opened PacketBuffer
  import opened DnsHeaders
  import opened DnsQuestions
  import opened DnsRecords
  import opened PacketWire

  class DnsPacket {
    const header: DnsHeader
    var questions: seq<Question>
    var answers: seq<DnsRecord>
    var authorities: seq<DnsRecord>
    var resources: seq<DnsRecord>

    function Value(): Packet
      reads this, header
    {
      Packet(header.Value(), questions, answers, authorities, resources)
    }

    constructor ()
      ensures fresh(header) && Value() == Packet(NEW_HEADER, [], [], [], [])
    {
      header := new DnsHeader();
      questions, answers, authorities, resources := [], [], [], [];
    }

    /** Stores the section sizes in the header, then emits header, questions and the three record sections. */
    method Write(buffer: BytePacketBuffer) returns (ok: bool)
      requires buffer.Valid()
      modifies header, buffer`currPos, buffer.buf
      ensures Value() == WithCounts(old(Value()))
      ensures ok == Fits(EncodePacket(old(Value())), old(buffer.currPos))
      ensures ok ==> buffer.Data() == Splice(old(buffer.Data()), old(buffer.currPos), EncodePacket(old(Value())).value)
      ensures ok ==> buffer.currPos == old(buffer.currPos) + |EncodePacket(old(Value())).value|
    {
      hide Splice, Spliced, EncodeHeader, EncodeQuestions, EncodeRecords;
      ghost var p, d, start := Value(), buffer.Data(), buffer.currPos;
      header.questions := |questions| % 0x1_0000;
      header.answers := |answers| % 0x1_0000;
      header.authoritativeEntries := |authorities| % 0x1_0000;
      header.resourceEntries := |resources| % 0x1_0000;
      ghost var h, qs := EncodeHeader(WithCounts(p).header), EncodeQuestions(p.questions);
      ghost var a, b, c := EncodeRecords(p.answers), EncodeRecords(p.authorities), EncodeRecords(p.resources);
      ok := header.Write(buffer);
      if !ok { return; }
      ok := WriteQuestions(questions, buffer);
      if !ok { return; }
      ok := WriteRecords(answers, buffer);
      if !ok { return; }
      ok := WriteRecords(authorities, buffer);
      if !ok { return; }
      ok := WriteRecords(resources, buffer);
      if !ok { return; }
      SectionsLaid(d, start, h, qs.value, a.value, b.value, c.value);
    }

    /** Parses a packet at the cursor. */
    static method FromBuffer(buffer: BytePacketBuffer) returns (ok: bool, result: DnsPacket)
      requires buffer.Valid()
      modifies buffer`currPos
      ensures fresh(result) && fresh(result.header)
      ensures ok == PacketAt(buffer.Data(), old(buffer.currPos)).Some?
      ensures ok ==> PacketAt(buffer.Data(), old(buffer.currPos)) == Some((result.Value(), buffer.currPos))
    {
      hide HeaderAt, QuestionsAt, RecordsAt;
      ghost var start := buffer.currPos;
      HeaderInside(buffer.Data(), start);
      result := new DnsPacket();
      ok := result.header.Read(buffer);
      if !ok { return; }
      var qs := ReadQuestions(buffer, result.header.questions);
      if qs.None? { return false, result; }
      result.questions := qs.value;
      var rs := ReadRecords(buffer, result.header.answers);
      if rs.None? { return false, result; }
      result.answers := rs.value;
      rs := ReadRecords(buffer, result.header.authoritativeEntries);
      if rs.None? { return false, result; }
      result.authorities := rs.value;
      rs := ReadRecords(buffer, result.header.resourceEntries);
      if rs.None? { return false, result; }
      result.resources := rs.value;
    }
  }

  lemma LaidNext(d: seq<byte>, p: nat, done: seq<byte>, next: seq<byte>)
    requires p + |done| + |next| <= |d|
    ensures Spliced(Splice(d, p, done), p + |done|, next) == Splice(d, p, done + next)
  {
    SpliceAppend(d, p, done, next);
    hide Splice;
  }

  /** Five sections laid one behind the other are laid as one. */
  lemma SectionsLaid(d: seq<byte>, p: nat, h: seq<byte>, qs: seq<byte>, a: seq<byte>, b: seq<byte>, c: seq<byte>)
    requires p + |h| + |qs| + |a| + |b| + |c| <= |d|
    ensures var p1 := p + |h|;
      var p2 := p1 + |qs|;
      var p3 := p2 + |a|;
      Spliced(Spliced(Spliced(Spliced(Splice(d, p, h), p1, qs), p2, a), p3, b), p3 + |b|, c)
      == Splice(d, p, h + (qs + (a + (b + c))))
  {
    hide Splice, Spliced;
    LaidNext(d, p, h, qs);
    LaidNext(d, p, h + qs, a);
    LaidNext(d, p, h + qs + a, b);
    LaidNext(d, p, h + qs + a + b, c);
    assert h + qs + a + b + c == h + (qs + (a + (b + c)));
  }

  /** The write loop's progress: `done` is written and `rest` is still to come. */
  ghost predicate Writing(d0: seq<byte>, start: nat, done: seq<byte>, rest: Option<seq<byte>>, goal: Option<seq<byte>>,
    d: seq<byte>, pos: nat)
  {
    && |d0| == |d| == PACKET_SIZE
    && pos == start + |done| && (done == [] || pos <= PACKET_SIZE)
    && d == Spliced(d0, start, done)
    && goal == Cat(Some(done), rest)
  }

  lemma WritingStarts(d: seq<byte>, start: nat, goal: Option<seq<byte>>)
    requires |d| == PACKET_SIZE
    ensures Writing(d, start, [], goal, goal, d, start)
  {
    if start <= PACKET_SIZE { SpliceNothing(d, start); }
    CatNothing(goal);
  }

  lemma WritingAdvances(d0: seq<byte>, start: nat, done: seq<byte>, item: Option<seq<byte>>, rest: Option<seq<byte>>,
    goal: Option<seq<byte>>, d: seq<byte>, pos: nat)
    requires Writing(d0, start, done, Cat(item, rest), goal, d, pos)
    ensures !Writable(item, pos) ==> !Writable(goal, start)
    ensures Writable(item, pos) ==>
      Writing(d0, start, done + item.value, rest, goal, Spliced(d, pos, item.value), pos + |item.value|)
  {
    if Writable(item, pos) {
      CatAssoc(Some(done), item, rest);
      if pos + |item.value| <= PACKET_SIZE {
        SpliceAppend(d0, start, done, item.value);
      } else {
        assert done + item.value == done;
      }
    }
  }

  method WriteQuestions(questions: seq<Question>, buffer: BytePacketBuffer) returns (ok: bool)
    requires buffer.Valid()
    modifies buffer`currPos, buffer.buf
    ensures ok == Writable(EncodeQuestions(questions), old(buffer.currPos))
    ensures ok ==> buffer.Data() == Spliced(old(buffer.Data()), old(buffer.currPos), EncodeQuestions(questions).value)
    ensures ok ==> buffer.currPos == old(buffer.currPos) + |EncodeQuestions(questions).value|
  {
    hide Writing, Splice, EncodeQuestion, EncodeQuestions;
    ghost var d, start, goal, done := buffer.Data(), buffer.currPos, EncodeQuestions(questions), [];
    WritingStarts(d, start, goal);
    assert questions[0..] == questions;
    for i := 0 to |questions|
      invariant Writing(d, start, done, EncodeQuestions(questions[i..]), goal, buffer.Data(), buffer.currPos)
    {
      EncodeQuestionsStep(questions[i..]);
      assert questions[i..][1..] == questions[i + 1..];
      ghost var enc := EncodeQuestion(questions[i]);
      WritingAdvances(d, start, done, enc, EncodeQuestions(questions[i + 1..]), goal, buffer.Data(), buffer.currPos);
      QuestionTakesRoom(questions[i]);
      ok := WriteQuestion(questions[i], buffer);
      if !ok { return; }
      done := done + enc.value;
    }
    assert questions[|questions|..] == [];
    NothingReturns(d, start);
    WritingFits(d, start, done, goal, buffer.Data(), buffer.currPos);
    ok := true;
  }

  lemma QuestionTakesRoom(q: Question)
    ensures EncodeQuestion(q).Some? ==> EncodeQuestion(q).value != []
  {
    hide EncodeName;
  }

  lemma EncodeQuestionsStep(qs: seq<Question>)
    requires qs != []
    ensures EncodeQuestions(qs) == Cat(EncodeQuestion(qs[0]), EncodeQuestions(qs[1..]))
  {
  }

  lemma EncodeRecordsStep(rs: seq<DnsRecord>)
    requires rs != []
    ensures EncodeRecords(rs) == Cat(EncodeRecord(rs[0]), EncodeRecords(rs[1..]))
  {
  }

  lemma WritingFits(d0: seq<byte>, start: nat, done: seq<byte>, goal: Option<seq<byte>>, d: seq<byte>, pos: nat)
    requires Writing(d0, start, done, Some([]), goal, d, pos)
    ensures Writable(goal, start) && d == Spliced(d0, start, goal.value) && pos == start + |goal.value|
  {
    CatNothing(Some(done));
  }

  method WriteRecords(records: seq<DnsRecord>, buffer: BytePacketBuffer) returns (ok: bool)
    requires buffer.Valid()
    modifies buffer`currPos, buffer.buf
    ensures ok == Writable(EncodeRecords(records), old(buffer.currPos))
    ensures ok ==> buffer.Data() == Spliced(old(buffer.Data()), old(buffer.currPos), EncodeRecords(records).value)
    ensures ok ==> buffer.currPos == old(buffer.currPos) + |EncodeRecords(records).value|
  {
    hide Writing, Splice, EncodeRecord, EncodeRecords;
    ghost var d, start, goal, done := buffer.Data(), buffer.currPos, EncodeRecords(records), [];
    WritingStarts(d, start, goal);
    assert records[0..] == records;
    for i := 0 to |records|
      invariant Writing(d, start, done, EncodeRecords(records[i..]), goal, buffer.Data(), buffer.currPos)
    {
      EncodeRecordsStep(records[i..]);
      assert records[i..][1..] == records[i + 1..];
      ghost var enc := EncodeRecord(records[i]);
      WritingAdvances(d, start, done, enc, EncodeRecords(records[i + 1..]), goal, buffer.Data(), buffer.currPos);
      UnknownEncodesEmpty(records[i]);
      var written: nat;
      ok, written := WriteDnsRecord(records[i], buffer);
      if !ok { return; }
      done := done + enc.value;
    }
    assert records[|records|..] == [];
    NothingReturns(d, start);
    WritingFits(d, start, done, goal, buffer.Data(), buffer.currPos);
    ok := true;
  }

  method ReadQuestions(buffer: BytePacketBuffer, n: nat) returns (r: Option<seq<Question>>)
    requires buffer.Valid()
    modifies buffer`currPos
    ensures r.Some? == QuestionsAt(buffer.Data(), old(buffer.currPos), n).Some?
    ensures r.Some? ==> QuestionsAt(buffer.Data(), old(buffer.currPos), n) == Some((r.value, buffer.currPos))
  {
    hide QuestionAt;
    ghost var d, start := buffer.Data(), buffer.currPos;
    var questions: seq<Question> := [];
    ghost var whole := QuestionsAt(d, start, n);
    if whole.Some? { assert [] + whole.value.0 == whole.value.0; }
    for i := 0 to n
      invariant whole == match QuestionsAt(d, buffer.currPos, n - i)
                         case None => None
                         case Some((qs, e)) => Some((questions + qs, e))
    {
      var q := ReadQuestion(buffer);
      if q.None? { return None; }
      ghost var rest := QuestionsAt(d, buffer.currPos, n - i - 1);
      if rest.Some? { assert questions + ([q.value] + rest.value.0) == questions + [q.value] + rest.value.0; }
      questions := questions + [q.value];
    }
    assert questions + [] == questions;
    r := Some(questions);
  }

  method ReadRecords(buffer: BytePacketBuffer, n: nat) returns (r: Option<seq<DnsRecord>>)
    requires buffer.Valid()
    modifies buffer`currPos
    ensures r.Some? == RecordsAt(buffer.Data(), old(buffer.currPos), n).Some?
    ensures r.Some? ==> RecordsAt(buffer.Data(), old(buffer.currPos), n) == Some((r.value, buffer.currPos))
  {
    hide RecordAt;
    ghost var d, start := buffer.Data(), buffer.currPos;
    var records: seq<DnsRecord> := [];
    ghost var whole := RecordsAt(d, start, n);
    if whole.Some? { assert [] + whole.value.0 == whole.value.0; }
    for i := 0 to n
      invariant whole == match RecordsAt(d, buffer.currPos, n - i)
                         case None => None
                         case Some((rs, e)) => Some((records + rs, e))
    {
      var rec := ReadDnsRecord(buffer);
      if rec.None? { return None; }
      ghost var rest := RecordsAt(d, buffer.currPos, n - i - 1);
      if rest.Some? { assert records + ([rec.value] + rest.value.0) == records + [rec.value] + rest.value.0; }
      records := records + [rec.value];
    }
    assert records + [] == records;
    r := Some(records);
  }

  /** `write`, `seek(0)`, `fromBuffer` on a new buffer: the same packet comes back if it was faithful and fitted. */
  method WriteThenParse(packet: DnsPacket) returns (ok: bool, back: DnsPacket)
    modifies packet.header
    ensures ok ==> fresh(back) && Fits(EncodePacket(old(packet.Value())), 0)
    ensures packet.Value() == WithCounts(old(packet.Value()))
    ensures Fits(EncodePacket(old(packet.Value())), 0) && Faithful(old(packet.Value())) ==>
      ok && back.Value() == packet.Value()
  {
    hide Splice, EncodePacket, PacketAt, Faithful;
    ghost var p := packet.Value();
    var buffer := new BytePacketBuffer();
    back := packet;
    ok := packet.Write(buffer);
    if !ok { return; }
    SpliceAt(seq(PACKET_SIZE, _ => 0), 0, EncodePacket(p).value);
    PacketRoundTrip(buffer.Data(), 0, p);
    buffer.Seek(0);
    ok, back := DnsPacket.FromBuffer(buffer);
  }
}

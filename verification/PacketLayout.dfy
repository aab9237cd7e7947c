/** Where the parts of a written packet stand, given by the bytes of the buffer alone: sections 4.1.1 to 4.1.3 of
    RFC 1035. */
module PacketLayouts {
  import opened Bytes
  import opened QueryTypes
  import opened DnsHeaders
  import opened DnsQuestions
  import opened DnsRecords
  import opened PacketWire

  /** Two bytes, the most significant first. */
  predicate Two(d: seq<byte>, p: nat, v: int) { p + 2 <= |d| && d[p] as int * 0x100 + d[p + 1] == v }

  /** The header of `p` stands at `start`: id, two bytes of flags, and the lengths of the four sections. */
  predicate HeaderLaid(d: seq<byte>, start: nat, h: Header, questions: nat, answers: nat, authorities: nat,
    resources: nat)
  {
    && start + 12 <= |d| && Two(d, start, h.id)
    && (d[start + 2] as int == (if h.response || h.opcode / 16 % 2 == 1 then 128 else 0) + h.opcode % 16 * 8
          + (if h.authoritativeAnswer then 4 else 0) + (if h.truncatedMessage then 2 else 0)
          + (if h.recursionDesired then 1 else 0))
    && (d[start + 3] as int == (if h.recursionAvailable then 128 else 0) + (if h.z then 64 else 0)
          + (if h.authedData then 32 else 0) + (if h.checkingDisabled then 16 else 0) + ResultCodeToNum(h.rescode))
    && Two(d, start + 4, questions % 0x1_0000) && Two(d, start + 6, answers % 0x1_0000)
    && Two(d, start + 8, authorities % 0x1_0000) && Two(d, start + 10, resources % 0x1_0000)
  }

  lemma HeaderLayout(d: seq<byte>, start: nat, p: Packet)
    requires At(d, start, EncodeHeader(WithCounts(p).header))
    ensures HeaderLaid(d, start, p.header, |p.questions|, |p.answers|, |p.authorities|, |p.resources|)
  {
    var h := WithCounts(p).header;
    HeaderBytes(d, start, h);
    hide EncodeHeader, At, ResultCodeToNum;
  }

  /** The questions stand one behind the other from `p` up to `end`. */
  ghost predicate QuestionsLaid(d: seq<byte>, p: nat, qs: seq<Question>, end: nat)
    decreases |qs|
  {
    if qs == [] then p == end
    else exists m :: QuestionLaid(d, p, qs[0], m) && QuestionsLaid(d, m, qs[1..], end)
  }

  /** So do the records, except that nothing is written of an unknown one. */
  ghost predicate RecordsLaid(d: seq<byte>, p: nat, rs: seq<DnsRecord>, end: nat)
    decreases |rs|
  {
    if rs == [] then p == end
    else if rs[0].UnknownRecord? then RecordsLaid(d, p, rs[1..], end)
    else exists e, m :: RecordLaid(d, p, rs[0], e, m) && RecordsLaid(d, m, rs[1..], end)
  }

  lemma {:induction false} QuestionsLayout(d: seq<byte>, p: nat, qs: seq<Question>)
    requires EncodeQuestions(qs).Some? && At(d, p, EncodeQuestions(qs).value)
    ensures QuestionsLaid(d, p, qs, p + |EncodeQuestions(qs).value|)
    decreases |qs|
  {
    hide EncodeQuestion, QuestionLaid, At;
    if qs != [] {
      var first, rest := EncodeQuestion(qs[0]).value, EncodeQuestions(qs[1..]).value;
      AtSplit(d, p, first, rest);
      QuestionLayout(d, p, qs[0]);
      QuestionsLayout(d, p + |first|, qs[1..]);
      hide EncodeQuestions;
      assert QuestionsLaid(d, p + |first|, qs[1..], p + |first| + |rest|);
    }
  }

  lemma {:induction false} RecordsLayout(d: seq<byte>, p: nat, rs: seq<DnsRecord>)
    requires EncodeRecords(rs).Some? && At(d, p, EncodeRecords(rs).value)
    ensures RecordsLaid(d, p, rs, p + |EncodeRecords(rs).value|)
    decreases |rs|
  {
    hide EncodeRecord, RecordLaid, At;
    if rs != [] {
      var first, rest := EncodeRecord(rs[0]).value, EncodeRecords(rs[1..]).value;
      AtSplit(d, p, first, rest);
      RecordsLayout(d, p + |first|, rs[1..]);
      hide EncodeRecords;
      assert RecordsLaid(d, p + |first|, rs[1..], p + |first| + |rest|);
      if rs[0].UnknownRecord? {
        UnknownTakesNothing(rs[0]);
      } else {
        RecordLayout(d, p, rs[0]);
      }
    }
  }

  lemma UnknownTakesNothing(r: DnsRecord)
    requires r.UnknownRecord?
    ensures EncodeRecord(r) == Some([])
  {
  }

  /** The four sections behind the header: questions up to `e0`, answers up to `e1`, authorities up to `e2`, additional
      records up to `end`. */
  ghost predicate SectionsLaid(d: seq<byte>, p0: nat, p: Packet, e0: nat, e1: nat, e2: nat, end: nat) {
    && QuestionsLaid(d, p0, p.questions, e0) && RecordsLaid(d, e0, p.answers, e1)
    && RecordsLaid(d, e1, p.authorities, e2) && RecordsLaid(d, e2, p.resources, end)
  }

  /** A written packet: its header, then its four sections in order, with nothing between them. */
  lemma PacketLayout(d: seq<byte>, start: nat, p: Packet) returns (e0: nat, e1: nat, e2: nat)
    requires EncodePacket(p).Some? && At(d, start, EncodePacket(p).value)
    ensures HeaderLaid(d, start, p.header, |p.questions|, |p.answers|, |p.authorities|, |p.resources|)
    ensures SectionsLaid(d, start + 12, p, e0, e1, e2, start + |EncodePacket(p).value|)
  {
    hide EncodeHeader, EncodeQuestions, EncodeRecords, At, WithCounts, HeaderLaid, QuestionsLaid, RecordsLaid;
    var h, qs := EncodeHeader(WithCounts(p).header), EncodeQuestions(p.questions).value;
    var a, b, c := EncodeRecords(p.answers).value, EncodeRecords(p.authorities).value, EncodeRecords(p.resources).value;
    e0 := start + 12 + |qs|;
    e1 := e0 + |a|;
    e2 := e1 + |b|;
    assert EncodePacket(p).value == h + (qs + (a + (b + c)));
    hide EncodePacket;
    AtSplit(d, start, h, qs + (a + (b + c)));
    AtSplit(d, start + 12, qs, a + (b + c));
    AtSplit(d, e0, a, b + c);
    AtSplit(d, e1, b, c);
    HeaderLayout(d, start, p);
    QuestionsLayout(d, start + 12, p.questions);
    RecordsLayout(d, e0, p.answers);
    RecordsLayout(d, e1, p.authorities);
    RecordsLayout(d, e2, p.resources);
  }
}

/** Why the round trip has no converse for packets with both kinds of defect: here is one with an unknown record, which
    is not written, and a record whose name cannot be written faithfully, and yet it parses back to itself. The bytes of
    its last record, read askew, spell the unknown record and then that record. */
module PacketCoincidence {
  import opened Bytes
  import opened StringUtils
  import opened NameWire
  import opened QueryTypes
  import opened DnsHeaders
  import opened DnsQuestions
  import opened DnsRecords
  import opened PacketWire

  /** `a..b`: written as `a`, an end, and `b`. */
  function Hollow(): Name { [97, DOT, DOT, 98] }

  /** A label that holds a pointer to 224, type, class, TTL and length of an NS record, and half a pointer to 256. */
  function Embedded(): Name { [0xC0, 224, 0, 2, 0, 1, 0, 0, 4, 0, 0, 0, 0xC1] }

  function LastRecord(): DnsRecord { NSRecord(Hollow(), Embedded(), 1024) }

  /** An address that holds `a..b` as a single label. */
  function CarrierAddress(): IPv6 { [4, 97, DOT, DOT, 98, 0, 0, 0, 0, 0, 0, 0, 0, 0, 0, 0] }

  function Carrier(): DnsRecord { AAAARecord([], CarrierAddress(), 0) }

  function Unwritten(): DnsRecord { UnknownRecord([97], 354, 4, 0x200_0100) }

  /** Labels that put the last record at 240. */
  function PaddingLabels(): seq<Name> {
    var long: Name := seq(63, _ => 97);
    [long, long, long, [97, 97, 97]]
  }

  function Padding(): Question { Question(Join(PaddingLabels(), DOT), A) }

  // ----- the written bytes -----

  /** Two labels with an empty one between them. */
  lemma HollowEncodes(a: Name, b: Name)
    requires Plain([a]) && Plain([b])
    ensures |a| <= MAX_LABEL && |b| <= MAX_LABEL
    ensures var s := a + [DOT] + ([] + [DOT] + b);
      EncodeName(s) == Some([|a|] + a + ([0] + [] + ([|b|] + b + [])) + [0]) && !Canonical(s)
  {
    assert a in [a] && b in [b];
    OneLabelEncodes(b);
    SplitCons([], b, DOT);
    SplitCons(a, [] + [DOT] + b, DOT);
    var ls: seq<Name> := [a] + ([[]] + ([b] + []));
    assert [b] + [] == [b];
    assert Split(a + [DOT] + ([] + [DOT] + b), DOT) == ls;
    assert ls[1] == [];
    EncodeBodyCons(a, [[]] + ([b] + []));
    EncodeBodyCons([], [b] + []);
    EncodeBodyCons(b, []);
    assert EncodeBody([]) == [];
    hide Split, EncodeBody;
  }

  function HollowBytes(): seq<byte> { [1, 97, 0, 1, 98, 0] }

  lemma HollowName()
    ensures EncodeName(Hollow()) == Some(HollowBytes()) && !Canonical(Hollow())
  {
    HollowEncodes([97], [98]);
    hide EncodeName, Canonical;
    assert [97] + [DOT] + ([] + [DOT] + [98]) == Hollow();
    assert [1] + [97] + ([0] + [] + ([1] + [98] + [])) + [0] == HollowBytes();
  }

  lemma EmbeddedName()
    ensures EncodeName(Embedded()) == Some([13] + Embedded() + [0])
  {
    assert DOT !in Embedded();
    OneLabelEncodes(Embedded());
    hide EncodeName;
  }

  function LastBytes(): seq<byte> {
    HollowBytes() + [0, 2, 0, 1, 0, 0, 4, 0] + ([0, 15] + ([13] + Embedded() + [0]))
  }

  lemma LastEncodes()
    ensures EncodeRecord(LastRecord()) == Some(LastBytes()) && !CanonicalRecord(LastRecord())
  {
    HollowName();
    EmbeddedName();
    hide EncodeName, Canonical, Embedded, Hollow, HollowBytes;
    assert Fixed(2, 1024) == [0, 2, 0, 1, 0, 0, 4, 0];
    assert |Embedded()| == 13 by { EmbeddedLength(); }
    assert U16Bytes(15) == [0, 15];
    hide Fixed, U16Bytes;
    assert Rdata(LastRecord()) == Some([13] + Embedded() + [0]);
  }

  lemma EmbeddedLength()
    ensures |Embedded()| == 13
  {
  }

  function CarrierHead(): seq<byte> { [0, 0, 28, 0, 1, 0, 0, 0, 0, 0, 16] }

  lemma CarrierEncodes()
    ensures EncodeRecord(Carrier()) == Some(CarrierHead() + CarrierAddress())
    ensures |CarrierHead() + CarrierAddress()| == 27
    ensures CanonicalRecord(Carrier())
  {
    EmptyName();
    hide EncodeName, Canonical, CarrierAddress;
    assert Fixed(28, 0) == [0, 28, 0, 1, 0, 0, 0, 0];
    assert U16Bytes(16) == [0, 16];
    hide Fixed, U16Bytes;
    assert [0] + [0, 28, 0, 1, 0, 0, 0, 0] + ([0, 16] + CarrierAddress()) == CarrierHead() + CarrierAddress();
  }

  lemma PaddingFits()
    ensures PaddingLabels() != [] && Plain(PaddingLabels()) && |EncodeBody(PaddingLabels())| == 196
  {
    var ls := PaddingLabels();
    var b, c, e: seq<Name> := ls[1..], ls[2..], ls[3..];
    assert b[1..] == c && c[1..] == e && e == [ls[3]];
    assert |EncodeBody(e)| == 4;
    assert |EncodeBody(c)| == 68;
    assert |EncodeBody(b)| == 132;
  }

  lemma PaddingEncodes()
    ensures EncodeQuestion(Padding()).Some? && |EncodeQuestion(Padding()).value| == 201 && CanonicalQuestion(Padding())
  {
    PaddingFits();
    hide PaddingLabels;
    JoinedName(PaddingLabels());
    hide Join, EncodeName, EncodeBody, Canonical, Plain;
  }

  // ----- reading them askew -----

  lemma ByteAt(d: seq<byte>, p: nat, enc: seq<byte>, i: nat)
    requires At(d, p, enc) && i < |enc|
    ensures p + i < |d| && d[p + i] == enc[i]
  {
    assert d[p + i] == d[p..p + |enc|][i];
  }

  lemma OneLabelAt(d: seq<byte>, p: nat, l: Name, jumps: nat)
    requires 0 < |l| <= MAX_LABEL && At(d, p, [|l|] + l + [0])
    ensures LabelsAt(d, p, jumps) == Some([l]) && NameEnd(d, p) == p + 2 + |l|
    ensures Join([l], DOT) == l
  {
    LabelInPlace(d, p, l, [0]);
    ByteAt(d, p + 1 + |l|, [0], 0);
    assert LabelsAt(d, p + 1 + |l|, jumps) == Some([]);
    assert [l] + [] == [l];
    LabelsAtLabel(d, p, jumps);
    assert NameEnd(d, p + 1 + |l|) == p + 2 + |l|;
    hide LabelsAt, NameEnd;
  }

  /** A pointer to a single label. */
  lemma PointerToLabel(d: seq<byte>, p: nat, target: nat, l: Name)
    requires p + 1 < |d| && IsPointer(d[p]) && PointerTarget(d[p], d[p + 1]) == target
    requires 0 < |l| <= MAX_LABEL && At(d, target, [|l|] + l + [0])
    ensures NameAt(d, p) == Some((l, p + 2))
  {
    assert LabelsAt(d, p, MAX_JUMPS) == LabelsAt(d, target, 4) && NameEnd(d, p) == p + 2;
    hide LabelsAt, NameEnd;
    OneLabelAt(d, target, l, 4);
  }

  lemma HollowBytesAt(d: seq<byte>)
    requires At(d, 240, HollowBytes())
    ensures d[243] == 1 && d[244] == 98 && d[245] == 0 && At(d, 240, [1] + [97] + [0])
  {
    assert HollowBytes() == [1] + [97] + [0] + [1, 98, 0];
    AtSplit(d, 240, [1] + [97] + [0], [1, 98, 0]);
    ByteAt(d, 243, [1, 98, 0], 0);
    ByteAt(d, 243, [1, 98, 0], 1);
    ByteAt(d, 243, [1, 98, 0], 2);
  }

  lemma EmbeddedAt(d: seq<byte>)
    requires At(d, 257, Embedded())
    ensures d[257] == 0xC0 && d[258] == 224 && d[259] == 0 && d[260] == 2
    ensures d[263] == 0 && d[264] == 0 && d[265] == 4 && d[266] == 0 && d[269] == 0xC1
  {
    forall i | 0 <= i < 13 ensures 257 + i < |d| && d[257 + i] == Embedded()[i] { ByteAt(d, 257, Embedded(), i); }
    hide At;
    assert d[257 + 1] == 224 && d[257 + 2] == 0 && d[257 + 3] == 2;
    assert d[257 + 6] == 0 && d[257 + 7] == 0 && d[257 + 8] == 4 && d[257 + 9] == 0 && d[257 + 12] == 0xC1;
  }

  lemma FixedAt(d: seq<byte>)
    requires At(d, 246, [0, 2, 0, 1, 0, 0, 4, 0])
    ensures d[246] == 0 && d[247] == 2 && d[248] == 0 && d[249] == 1 && d[250] == 0 && d[251] == 0 && d[252] == 4
  {
    var f: seq<byte> := [0, 2, 0, 1, 0, 0, 4, 0];
    forall i | 0 <= i < 8 ensures 246 + i < |d| && d[246 + i] == f[i] { ByteAt(d, 246, f, i); }
    hide At;
    assert d[246 + 1] == 2 && d[246 + 2] == 0 && d[246 + 3] == 1;
    assert d[246 + 4] == 0 && d[246 + 5] == 0 && d[246 + 6] == 4;
  }

  lemma LastBytesAt(d: seq<byte>)
    requires |d| == PACKET_SIZE && At(d, 240, LastBytes())
    ensures d[243] == 1 && d[244] == 98 && d[247] == 2 && d[248] == 0 && d[249] == 1 && d[250] == 0
    ensures d[251] == 0 && d[252] == 4
    ensures d[257] == 0xC0 && d[258] == 224 && d[259] == 0 && d[260] == 2
    ensures d[263] == 0 && d[264] == 0 && d[265] == 4 && d[266] == 0 && d[269] == 0xC1 && d[270] == 0
    ensures At(d, 240, [1] + [97] + [0]) && At(d, 256, [13] + Embedded() + [0])
  {
    EmbeddedLength();
    assert |HollowBytes()| == 6;
    hide At, HollowBytes, Embedded;
    var f: seq<byte> := [0, 2, 0, 1, 0, 0, 4, 0];
    AtSplit(d, 240, HollowBytes() + f, [0, 15] + ([13] + Embedded() + [0]));
    AtSplit(d, 240, HollowBytes(), f);
    AtSplit(d, 254, [0, 15], [13] + Embedded() + [0]);
    AtSplit(d, 256, [13] + Embedded(), [0]);
    AtSplit(d, 256, [13], Embedded());
    ByteAt(d, 270, [0], 0);
    HollowBytesAt(d);
    FixedAt(d);
    EmbeddedAt(d);
  }

  /** At 240, where the last record was written, stands the unknown record; four skipped bytes on, the last record. */
  lemma Askew(d: seq<byte>)
    requires |d| == PACKET_SIZE && At(d, 240, LastBytes()) && At(d, 224, CarrierAddress())
    ensures RecordAt(d, 240) == Some((Unwritten(), 257))
    ensures RecordAt(d, 257) == Some((LastRecord(), 271))
  {
    LastBytesAt(d);
    HollowCarried(d);
    EmbeddedLength();
    hide LastBytes, Embedded, Hollow, At;
    OneLabelAt(d, 240, [97], MAX_JUMPS);
    PointerToLabel(d, 257, 224, Hollow());
    PointerToLabel(d, 269, 256, Embedded());
    assert NameAt(d, 240) == Some(([97], 243));
    hide NameAt;
  }

  lemma HollowCarried(d: seq<byte>)
    requires At(d, 224, CarrierAddress())
    ensures |Hollow()| == 4 && At(d, 224, [4] + Hollow() + [0])
  {
    AtSplit(d, 224, [4] + Hollow() + [0], [0, 0, 0, 0, 0, 0, 0, 0, 0, 0]);
    assert CarrierAddress() == [4] + Hollow() + [0] + [0, 0, 0, 0, 0, 0, 0, 0, 0, 0];
  }

  // ----- the packet -----

  lemma RecordsEncode(a: DnsRecord, u: DnsRecord, b: DnsRecord)
    requires u.UnknownRecord?
    ensures EncodeRecords([a, u, b]) == Cat(EncodeRecord(a), EncodeRecord(b))
  {
    UnknownEncodesEmpty(u);
    hide EncodeRecord;
    var rs := [a, u, b];
    assert rs[1..] == [u, b] && rs[1..][1..] == [b] && [b][1..] == [];
    assert EncodeRecords([]) == Some([]);
    CatNothing(EncodeRecord(b));
    assert EncodeRecords([b]) == EncodeRecord(b);
  }

  lemma LastLength()
    ensures |LastBytes()| == 31
  {
  }

  lemma OneQuestionEncodes(q: Question)
    ensures EncodeQuestions([q]) == EncodeQuestion(q)
  {
    assert [q][1..] == [];
    assert EncodeQuestions([]) == Some([]);
    CatNothing(EncodeQuestion(q));
  }

  lemma RecordsComeBack(d: seq<byte>, p0: nat, p1: nat, p2: nat, end: nat, a: DnsRecord, u: DnsRecord, b: DnsRecord)
    requires RecordAt(d, p0) == Some((a, p1)) && RecordAt(d, p1) == Some((u, p2)) && RecordAt(d, p2) == Some((b, end))
    ensures RecordsAt(d, p0, 3) == Some(([a, u, b], end))
  {
    hide RecordAt;
    assert [a, u, b][1..] == [u, b] && [u, b][1..] == [b] && [b][1..] == [];
    NothingReturns(d, end);
    RecordsAtCons(d, p2, [b], end);
    RecordsAtCons(d, p1, [u, b], end);
    RecordsAtCons(d, p0, [a, u, b], end);
    hide RecordsAt;
  }

  /** One question of 201 bytes, then a record of 27 bytes, an unknown one, and one of 31 bytes. */
  ghost predicate Staged(p: Packet, q: Question, a: DnsRecord, u: DnsRecord, b: DnsRecord) {
    && p.questions == [q] && p.Records() == [a, u, b] && CountsFit(p) && p.header.opcode < 16
    && CanonicalQuestions(p.questions) && u.UnknownRecord?
    && EncodeQuestion(q).Some? && |EncodeQuestion(q).value| == 201
    && EncodeRecord(a).Some? && |EncodeRecord(a).value| == 27
    && EncodeRecord(b).Some? && |EncodeRecord(b).value| == 31
  }

  lemma StagedLength(p: Packet, q: Question, a: DnsRecord, u: DnsRecord, b: DnsRecord)
    requires Staged(p, q, a, u, b)
    ensures EncodePacket(p).Some? && |EncodePacket(p).value| == 271
  {
    hide EncodeQuestion, EncodeRecord, EncodeHeader, EncodeQuestions, EncodeRecords, CanonicalQuestions, CountsFit;
    OneQuestionEncodes(q);
    RecordsEncode(a, u, b);
    EncodePacketSections(p);
    hide EncodePacket;
  }

  lemma StagedParts(d: seq<byte>, p: Packet, q: Question, a: DnsRecord, u: DnsRecord, b: DnsRecord)
    requires Staged(p, q, a, u, b) && EncodePacket(p).Some? && At(d, 0, EncodePacket(p).value)
    ensures At(d, 213, EncodeRecord(a).value) && At(d, 240, EncodeRecord(b).value)
  {
    hide EncodePacket, EncodeQuestion, EncodeRecord, EncodeHeader, EncodeQuestions, EncodeRecords, CanonicalQuestions,
      CountsFit, At, Cat;
    OneQuestionEncodes(q);
    RecordsEncode(a, u, b);
    PacketParts(d, 0, p);
    BothWritten(d, 213, EncodeRecord(a), EncodeRecord(b));
  }

  lemma StagedReturns(d: seq<byte>, p: Packet, q: Question, a: DnsRecord, u: DnsRecord, b: DnsRecord)
    requires Staged(p, q, a, u, b) && EncodePacket(p).Some? && At(d, 0, EncodePacket(p).value)
    requires RecordsAt(d, 213, 3) == Some(([a, u, b], 271))
    ensures Returns(d, 0, p)
  {
    hide EncodePacket, EncodeQuestion, EncodeRecord, EncodeHeader, EncodeQuestions, EncodeRecords, CanonicalQuestions,
      CountsFit, At, RecordsAt, Returns;
    OneQuestionEncodes(q);
    StagedLength(p, q, a, u, b);
    RecordsDecide(d, p);
  }

  /** With canonical questions and counts that fit, a packet returns if its run of records does. */
  lemma RecordsDecide(d: seq<byte>, p: Packet)
    requires EncodePacket(p).Some? && At(d, 0, EncodePacket(p).value) && EncodeQuestions(p.questions).Some?
    requires CountsFit(p) && CanonicalQuestions(p.questions) && p.header.opcode < 16
    requires RecordsAt(d, HEADER_SIZE + |EncodeQuestions(p.questions).value|, |p.Records()|)
      == Some((p.Records(), |EncodePacket(p).value|))
    ensures Returns(d, 0, p)
  {
    hide EncodePacket, EncodeQuestions, EncodeRecords, EncodeHeader, At, QuestionsAt, RecordsAt, CanonicalQuestions,
      CountsFit, Returns, WithCounts;
    PacketParts(d, 0, p);
    CanonicalQuestionsReturn(d, HEADER_SIZE, p.questions);
    PacketReturnsByParts(d, 0, p);
  }

  lemma BothWritten(d: seq<byte>, p: nat, a: Option<seq<byte>>, b: Option<seq<byte>>)
    requires a.Some? && b.Some? && At(d, p, Cat(a, b).value)
    ensures At(d, p, a.value) && At(d, p + |a.value|, b.value)
    ensures |Cat(a, b).value| == |a.value| + |b.value|
  {
    AtSplit(d, p, a.value, b.value);
  }

  /** What is read: the carrier as it was written, then the last record askew. */
  lemma CarrierThenAskew(d: seq<byte>)
    requires |d| == PACKET_SIZE && At(d, 213, CarrierHead() + CarrierAddress()) && At(d, 240, LastBytes())
    ensures RecordAt(d, 213) == Some((Carrier(), 240))
    ensures RecordAt(d, 240) == Some((Unwritten(), 257)) && RecordAt(d, 257) == Some((LastRecord(), 271))
  {
    CarrierEncodes();
    AtSplit(d, 213, CarrierHead(), CarrierAddress());
    assert |CarrierHead()| == 11;
    assert !Carrier().UnknownRecord?;
    hide CarrierHead, CarrierAddress, LastBytes, EncodeRecord, RecordAt, CanonicalRecord, At;
    RecordRoundTrip(d, 213, Carrier());
    Askew(d);
    hide Carrier;
  }

  /** There is a packet with both defects that is written and comes back, whatever the buffer holds behind it. */
  lemma UnfaithfulYetReturning() returns (p: Packet)
    ensures !NoUnknown(p.Records()) && !CanonicalRecords(p.Records())
    ensures EncodePacket(p).Some? && |EncodePacket(p).value| <= PACKET_SIZE
    ensures forall d :: |d| == PACKET_SIZE && At(d, 0, EncodePacket(p).value) ==> Returns(d, 0, p)
  {
    var q, a, u, b := Padding(), Carrier(), Unwritten(), LastRecord();
    PaddingEncodes();
    CarrierEncodes();
    LastEncodes();
    LastLength();
    assert u.UnknownRecord?;
    p := Packet(NEW_HEADER, [q], [a, u, b], [], []);
    Defects(p, a, u, b);
    hide Padding, EncodeQuestion, EncodeRecord, EncodePacket, CanonicalRecord, CanonicalQuestion, LastBytes,
      CarrierHead, CarrierAddress, At, Returns, Carrier, Unwritten, LastRecord, RecordsAt, RecordAt;
    Stage(p, q, a, u, b);
    hide Staged;
    StagedLength(p, q, a, u, b);
    forall d | |d| == PACKET_SIZE && At(d, 0, EncodePacket(p).value) ensures Returns(d, 0, p) {
      StagedParts(d, p, q, a, u, b);
      CarrierThenAskew(d);
      RecordsComeBack(d, 213, 240, 257, 271, a, u, b);
      StagedReturns(d, p, q, a, u, b);
    }
  }

  lemma Stage(p: Packet, q: Question, a: DnsRecord, u: DnsRecord, b: DnsRecord)
    requires p == Packet(NEW_HEADER, [q], [a, u, b], [], []) && CanonicalQuestion(q) && u.UnknownRecord?
    requires EncodeQuestion(q).Some? && |EncodeQuestion(q).value| == 201
    requires EncodeRecord(a).Some? && |EncodeRecord(a).value| == 27
    requires EncodeRecord(b).Some? && |EncodeRecord(b).value| == 31
    ensures Staged(p, q, a, u, b)
  {
    hide CanonicalQuestion, EncodeQuestion, EncodeRecord;
  }

  lemma Defects(p: Packet, a: DnsRecord, u: DnsRecord, b: DnsRecord)
    requires p.answers == [a, u, b] && u.UnknownRecord? && !CanonicalRecord(b)
    ensures !NoUnknown(p.Records()) && !CanonicalRecords(p.Records())
  {
    hide CanonicalRecord;
    assert p.Records()[1] == u && p.Records()[2] == b;
  }
}

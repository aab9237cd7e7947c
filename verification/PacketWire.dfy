/** Whole packets as values: their encoding, their decoding, and when one undoes the other. */
module PacketWire {
  import opened Bytes
  import opened NameWire
  import opened DnsHeaders
  import opened DnsQuestions
  import opened DnsRecords

  datatype Packet = Packet(
    header: Header, questions: seq<Question>,
    answers: seq<DnsRecord>, authorities: seq<DnsRecord>, resources: seq<DnsRecord>)
  {
    function Records(): seq<DnsRecord> { answers + authorities + resources }
  }

  function EncodeQuestions(qs: seq<Question>): Option<seq<byte>> {
    if qs == [] then Some([]) else Cat(EncodeQuestion(qs[0]), EncodeQuestions(qs[1..]))
  }

  function EncodeRecords(rs: seq<DnsRecord>): Option<seq<byte>> {
    if rs == [] then Some([]) else Cat(EncodeRecord(rs[0]), EncodeRecords(rs[1..]))
  }

  /** The packet with the section counts `write` stores in its header, cut to sixteen bits. */
  function WithCounts(p: Packet): Packet {
    p.(header := p.header.(
      questions := |p.questions| % 0x1_0000, answers := |p.answers| % 0x1_0000,
      authoritativeEntries := |p.authorities| % 0x1_0000, resourceEntries := |p.resources| % 0x1_0000))
  }

  function EncodePacket(p: Packet): Option<seq<byte>> {
    Cat(Some(EncodeHeader(WithCounts(p).header)),
      Cat(EncodeQuestions(p.questions),
        Cat(EncodeRecords(p.answers), Cat(EncodeRecords(p.authorities), EncodeRecords(p.resources)))))
  }

  function QuestionsAt(d: seq<byte>, p: nat, n: nat): Option<(seq<Question>, nat)>
    decreases n
  {
    if n == 0 then Some(([], p))
    else match QuestionAt(d, p)
      case None => None
      case Some((q, e)) =>
        match QuestionsAt(d, e, n - 1)
        case None => None
        case Some((qs, e')) => Some(([q] + qs, e'))
  }

  function RecordsAt(d: seq<byte>, p: nat, n: nat): Option<(seq<DnsRecord>, nat)>
    decreases n
  {
    if n == 0 then Some(([], p))
    else match RecordAt(d, p)
      case None => None
      case Some((r, e)) =>
        match RecordsAt(d, e, n - 1)
        case None => None
        case Some((rs, e')) => Some(([r] + rs, e'))
  }

  function SectionsAt(d: seq<byte>, e0: nat, n1: nat, n2: nat, n3: nat)
    : Option<(seq<DnsRecord>, seq<DnsRecord>, seq<DnsRecord>, nat)>
  {
    match RecordsAt(d, e0, n1)
    case None => None
    case Some((answers, e1)) =>
      match RecordsAt(d, e1, n2)
      case None => None
      case Some((authorities, e2)) =>
        match RecordsAt(d, e2, n3)
        case None => None
        case Some((resources, e3)) => Some((answers, authorities, resources, e3))
  }

  function PacketAt(d: seq<byte>, p: nat): Option<(Packet, nat)> {
    match HeaderAt(d, p)
    case None => None
    case Some(h) =>
      match QuestionsAt(d, p + HEADER_SIZE, h.questions)
      case None => None
      case Some((qs, e0)) =>
        match SectionsAt(d, e0, h.answers, h.authoritativeEntries, h.resourceEntries)
        case None => None
        case Some((a, b, c, e)) => Some((Packet(h, qs, a, b, c), e))
  }

  // ----- what any parse consumes -----

  lemma {:induction false} QuestionsConsume(d: seq<byte>, p: nat, n: nat)
    requires QuestionsAt(d, p, n).Some?
    ensures var (qs, e) := QuestionsAt(d, p, n).value;
      |qs| == n && p + 5 * n <= e && (n > 0 ==> e <= |d|)
    decreases n
  {
    if n > 0 {
      hide NameAt;
      NameAdvances(d, p);
      QuestionsConsume(d, QuestionAt(d, p).value.1, n - 1);
    }
  }

  lemma NameAdvances(d: seq<byte>, p: nat)
    ensures NameAt(d, p).Some? ==> p < |d| && p < NameAt(d, p).value.1 <= |d|
  {
    if NameAt(d, p).Some? { NameEndInside(d, p, MAX_JUMPS); }
  }

  lemma BodyAdvances(d: seq<byte>, b: nat, domain: Name, typ: u16, ttl: u32, len: u16)
    ensures var back := BodyAt(d, b, domain, typ, ttl, len);
      back.Some? ==> b <= back.value.1
  {
    hide NameAt;
    NameAdvances(d, b);
    NameAdvances(d, b + 2);
  }

  /** Eleven bytes of every record lie inside the packet; only what follows the last one may overshoot. */
  lemma RecordAdvances(d: seq<byte>, p: nat)
    requires RecordAt(d, p).Some?
    ensures p + 11 <= |d| && p + 11 <= RecordAt(d, p).value.1
  {
    hide NameAt, U16Of, U32Of, BodyAt;
    NameAdvances(d, p);
    var (domain, e) := NameAt(d, p).value;
    BodyAdvances(d, e + 10, domain, U16Of(d[e], d[e + 1]),
      U32Of(d[e + 4], d[e + 5], d[e + 6], d[e + 7]), U16Of(d[e + 8], d[e + 9]));
  }

  lemma {:induction false} RecordsConsume(d: seq<byte>, p: nat, n: nat)
    requires RecordsAt(d, p, n).Some?
    ensures var (rs, e) := RecordsAt(d, p, n).value;
      |rs| == n && p + 11 * n <= e && (n > 0 ==> p + 11 * n <= |d|)
    decreases n
  {
    if n > 0 {
      hide RecordAt;
      RecordAdvances(d, p);
      RecordsConsume(d, RecordAt(d, p).value.1, n - 1);
    }
  }

  lemma {:induction false} RecordsAtSplit(d: seq<byte>, p: nat, m: nat, n: nat)
    ensures RecordsAt(d, p, m + n) ==
      match RecordsAt(d, p, m)
      case None => None
      case Some((a, e)) =>
        match RecordsAt(d, e, n)
        case None => None
        case Some((b, e')) => Some((a + b, e'))
    decreases m
  {
    hide RecordAt;
    if m == 0 {
      var r := RecordsAt(d, p, n);
      if r.Some? { assert [] + r.value.0 == r.value.0; }
    } else if RecordAt(d, p).Some? {
      var (r, e) := RecordAt(d, p).value;
      RecordsAtSplit(d, e, m - 1, n);
      if RecordsAt(d, e, m - 1).Some? {
        var (a, e1) := RecordsAt(d, e, m - 1).value;
        if RecordsAt(d, e1, n).Some? {
          var b := RecordsAt(d, e1, n).value.0;
          assert [r] + a + b == [r] + (a + b);
        }
      }
    }
  }

  /** The three record sections are one run of records. */
  lemma SectionsAreOneRun(d: seq<byte>, e0: nat, n1: nat, n2: nat, n3: nat)
    ensures SectionsAt(d, e0, n1, n2, n3) ==
      match RecordsAt(d, e0, n1 + n2 + n3)
      case None => None
      case Some((rs, e)) =>
        if |rs| == n1 + n2 + n3 then Some((rs[..n1], rs[n1..n1 + n2], rs[n1 + n2..], e)) else None
  {
    hide RecordsAt;
    RecordsAtSplit(d, e0, n1 + n2, n3);
    RecordsAtSplit(d, e0, n1, n2);
    if RecordsAt(d, e0, n1).Some? {
      RecordsConsume(d, e0, n1);
      var (a, e1) := RecordsAt(d, e0, n1).value;
      if RecordsAt(d, e1, n2).Some? {
        RecordsConsume(d, e1, n2);
        var (b, e2) := RecordsAt(d, e1, n2).value;
        if RecordsAt(d, e2, n3).Some? {
          RecordsConsume(d, e2, n3);
          SectionSlices(a, b, RecordsAt(d, e2, n3).value.0);
        }
      }
    }
  }

  lemma SectionSlices<T>(a: seq<T>, b: seq<T>, c: seq<T>)
    ensures var rs := a + b + c;
      rs[..|a|] == a && rs[|a|..|a| + |b|] == b && rs[|a| + |b|..] == c
  {
  }

  /** The header counts what the sections hold. */
  predicate CountsAgree(packet: Packet) {
    && |packet.questions| == packet.header.questions
    && |packet.answers| == packet.header.answers
    && |packet.authorities| == packet.header.authoritativeEntries
    && |packet.resources| == packet.header.resourceEntries
  }

  /** Bytes that the header, the questions and the records need at the least. */
  function LeastRoom(packet: Packet): nat { HEADER_SIZE + 5 * |packet.questions| + 11 * |packet.Records()| }

  /** Whatever the bytes: a packet that parses has the sections its header counts, and there is room for them. */
  lemma ParsedPacketBounds(d: seq<byte>, p: nat)
    ensures forall packet, end ::
      PacketAt(d, p) == Some((packet, end)) ==> CountsAgree(packet) && p + LeastRoom(packet) <= |d|
  {
    hide HeaderAt, QuestionsAt, RecordsAt;
    HeaderInside(d, p);
    if PacketAt(d, p).Some? {
      var h := HeaderAt(d, p).value;
      QuestionsConsume(d, p + HEADER_SIZE, h.questions);
      var e0 := QuestionsAt(d, p + HEADER_SIZE, h.questions).value.1;
      SectionsAreOneRun(d, e0, h.answers, h.authoritativeEntries, h.resourceEntries);
      RecordsConsume(d, e0, h.answers + h.authoritativeEntries + h.resourceEntries);
    }
    hide SectionsAt;
  }

  lemma HeaderInside(d: seq<byte>, p: nat)
    ensures HeaderAt(d, p).Some? <==> p + HEADER_SIZE <= |d|
  {
  }

  // ----- what a written packet contains -----

  function KnownOnly(rs: seq<DnsRecord>): seq<DnsRecord> {
    if rs == [] then [] else (if rs[0].UnknownRecord? then [] else [rs[0]]) + KnownOnly(rs[1..])
  }

  lemma {:induction false} UnknownLeavesNoBytes(rs: seq<DnsRecord>)
    ensures EncodeRecords(rs) == EncodeRecords(KnownOnly(rs))
  {
    if rs != [] {
      UnknownLeavesNoBytes(rs[1..]);
      if rs[0].UnknownRecord? {
        CatNothing(EncodeRecords(rs[1..]));
        assert KnownOnly(rs) == KnownOnly(rs[1..]);
      } else {
        assert KnownOnly(rs)[1..] == KnownOnly(rs[1..]);
      }
    }
  }

  /** On the wire: a header counting every record, then the sections without their unknown records. */
  lemma WireContents(p: Packet)
    ensures var known := p.(answers := KnownOnly(p.answers), authorities := KnownOnly(p.authorities),
      resources := KnownOnly(p.resources));
      EncodePacket(p) == Cat(Some(EncodeHeader(WithCounts(p).header)),
        if EncodePacket(known).None? then None else Some(EncodePacket(known).value[HEADER_SIZE..]))
  {
    UnknownLeavesNoBytes(p.answers);
    UnknownLeavesNoBytes(p.authorities);
    UnknownLeavesNoBytes(p.resources);
    var rest := Cat(EncodeQuestions(p.questions),
      Cat(EncodeRecords(p.answers), Cat(EncodeRecords(p.authorities), EncodeRecords(p.resources))));
    if rest.Some? {
      forall h: Header ensures (EncodeHeader(h) + rest.value)[HEADER_SIZE..] == rest.value { }
    }
  }

  // ----- round trip -----

  predicate CanonicalQuestions(qs: seq<Question>) { forall q :: q in qs ==> CanonicalQuestion(q) }

  predicate CanonicalRecords(rs: seq<DnsRecord>) { forall r :: r in rs ==> CanonicalRecord(r) }

  predicate NoUnknown(rs: seq<DnsRecord>) { forall r :: r in rs ==> !r.UnknownRecord? }

  lemma EncodedQuestionHead(d: seq<byte>, p: nat, qs: seq<Question>)
    requires qs != [] && EncodeQuestions(qs).Some? && At(d, p, EncodeQuestions(qs).value)
    ensures EncodeQuestion(qs[0]).Some? && EncodeQuestions(qs[1..]).Some?
    ensures At(d, p, EncodeQuestion(qs[0]).value)
    ensures At(d, p + |EncodeQuestion(qs[0]).value|, EncodeQuestions(qs[1..]).value)
    ensures |EncodeQuestions(qs).value| == |EncodeQuestion(qs[0]).value| + |EncodeQuestions(qs[1..]).value|
  {
    hide At, EncodeQuestion;
    AtSplit(d, p, EncodeQuestion(qs[0]).value, EncodeQuestions(qs[1..]).value);
  }

  /** Reading a list succeeds with `qs` exactly when its head and its tail are read. */
  lemma QuestionsAtCons(d: seq<byte>, p: nat, qs: seq<Question>, end: nat)
    requires qs != []
    ensures QuestionsAt(d, p, |qs|) == Some((qs, end)) <==>
      && QuestionAt(d, p).Some? && QuestionAt(d, p).value.0 == qs[0]
      && QuestionsAt(d, QuestionAt(d, p).value.1, |qs[1..]|) == Some((qs[1..], end))
  {
    hide QuestionAt;
    if QuestionAt(d, p).Some? {
      var (q, e) := QuestionAt(d, p).value;
      if QuestionsAt(d, e, |qs| - 1).Some? {
        var back := QuestionsAt(d, e, |qs| - 1).value.0;
        assert ([q] + back)[0] == q && ([q] + back)[1..] == back;
        assert qs == [qs[0]] + qs[1..];
      }
    }
  }

  lemma NothingReturns(d: seq<byte>, p: nat)
    ensures EncodeQuestions([]) == Some([]) && QuestionsAt(d, p, 0) == Some(([], p))
    ensures EncodeRecords([]) == Some([]) && RecordsAt(d, p, 0) == Some(([], p))
  {
  }

  predicate QuestionsReturn(d: seq<byte>, p: nat, qs: seq<Question>)
    requires EncodeQuestions(qs).Some?
  {
    QuestionsAt(d, p, |qs|) == Some((qs, p + |EncodeQuestions(qs).value|))
  }

  lemma {:induction false} CanonicalQuestionsReturn(d: seq<byte>, p: nat, qs: seq<Question>)
    requires EncodeQuestions(qs).Some? && At(d, p, EncodeQuestions(qs).value) && CanonicalQuestions(qs)
    ensures QuestionsReturn(d, p, qs)
    decreases |qs|
  {
    hide QuestionAt, EncodeQuestion, EncodeQuestions, QuestionsAt, CanonicalQuestion, At;
    if qs == [] {
      NothingReturns(d, p);
      return;
    }
    EncodedQuestionHead(d, p, qs);
    QuestionRoundTrip(d, p, qs[0]);
    assert qs[0] in qs;
    CanonicalQuestionsReturn(d, p + |EncodeQuestion(qs[0]).value|, qs[1..]);
    QuestionsAtCons(d, p, qs, p + |EncodeQuestions(qs).value|);
  }

  lemma {:induction false} ReturningQuestionsCanonical(d: seq<byte>, p: nat, qs: seq<Question>, end: nat)
    requires EncodeQuestions(qs).Some? && At(d, p, EncodeQuestions(qs).value)
    requires QuestionsAt(d, p, |qs|) == Some((qs, end))
    ensures CanonicalQuestions(qs)
    decreases |qs|
  {
    hide QuestionAt, EncodeQuestion, EncodeQuestions, QuestionsAt, CanonicalQuestion, At;
    if qs == [] {
      NothingReturns(d, p);
      return;
    }
    EncodedQuestionHead(d, p, qs);
    QuestionsAtCons(d, p, qs, end);
    QuestionRoundTrip(d, p, qs[0]);
    ReturningQuestionsCanonical(d, p + |EncodeQuestion(qs[0]).value|, qs[1..], end);
  }

  /** Where a list of records was written a reader first finds the first known one, in place of any unknown records
      before it; without a known one nothing was written. */
  lemma {:induction false} UnknownIsMisread(d: seq<byte>, p: nat, rs: seq<DnsRecord>)
    requires EncodeRecords(rs).Some? && At(d, p, EncodeRecords(rs).value) && CanonicalRecords(rs)
    ensures var known := KnownOnly(rs);
      if known == [] then EncodeRecords(rs).value == []
      else EncodeRecord(known[0]).Some? && RecordAt(d, p) == Some((known[0], p + |EncodeRecord(known[0]).value|))
    decreases |rs|
  {
    hide RecordAt, EncodeRecord, EncodeRecords, CanonicalRecord, At, KnownOnly;
    KnownOnlyStep(rs);
    if rs == [] {
      NothingReturns(d, p);
    } else {
      assert rs[0] in rs;
      EncodedRecordHead(d, p, rs);
      if rs[0].UnknownRecord? {
        UnknownEncodesEmpty(rs[0]);
        UnknownIsMisread(d, p, rs[1..]);
      } else {
        RecordRoundTrip(d, p, rs[0]);
      }
    }
  }

  lemma KnownOnlyStep(rs: seq<DnsRecord>)
    ensures KnownOnly(rs) ==
      if rs == [] then []
      else if rs[0].UnknownRecord? then KnownOnly(rs[1..])
      else [rs[0]] + KnownOnly(rs[1..])
  {
    if rs != [] && rs[0].UnknownRecord? { assert [] + KnownOnly(rs[1..]) == KnownOnly(rs[1..]); }
  }

  lemma {:induction false} KnownOnlyMembers(rs: seq<DnsRecord>)
    ensures NoUnknown(KnownOnly(rs))
  {
    if rs != [] { KnownOnlyMembers(rs[1..]); }
  }

  lemma UnknownEncodesEmpty(r: DnsRecord)
    ensures EncodeRecord(r) == Some([]) <==> r.UnknownRecord?
  {
  }

  /** Read back from `p`, the records come out unchanged with the cursor behind them. */
  predicate RecordsReturn(d: seq<byte>, p: nat, rs: seq<DnsRecord>)
    requires EncodeRecords(rs).Some?
  {
    RecordsAt(d, p, |rs|) == Some((rs, p + |EncodeRecords(rs).value|))
  }

  lemma EncodedRecordHead(d: seq<byte>, p: nat, rs: seq<DnsRecord>)
    requires rs != [] && EncodeRecords(rs).Some? && At(d, p, EncodeRecords(rs).value)
    ensures EncodeRecord(rs[0]).Some? && EncodeRecords(rs[1..]).Some?
    ensures At(d, p, EncodeRecord(rs[0]).value)
    ensures At(d, p + |EncodeRecord(rs[0]).value|, EncodeRecords(rs[1..]).value)
    ensures |EncodeRecords(rs).value| == |EncodeRecord(rs[0]).value| + |EncodeRecords(rs[1..]).value|
  {
    hide At, EncodeRecord;
    AtSplit(d, p, EncodeRecord(rs[0]).value, EncodeRecords(rs[1..]).value);
  }

  lemma RecordsAtCons(d: seq<byte>, p: nat, rs: seq<DnsRecord>, end: nat)
    requires rs != []
    ensures RecordsAt(d, p, |rs|) == Some((rs, end)) <==>
      && RecordAt(d, p).Some? && RecordAt(d, p).value.0 == rs[0]
      && RecordsAt(d, RecordAt(d, p).value.1, |rs[1..]|) == Some((rs[1..], end))
  {
    hide RecordAt;
    if RecordAt(d, p).Some? {
      var (r, e) := RecordAt(d, p).value;
      if RecordsAt(d, e, |rs| - 1).Some? {
        var back := RecordsAt(d, e, |rs| - 1).value.0;
        assert ([r] + back)[0] == r && ([r] + back)[1..] == back;
        assert rs == [rs[0]] + rs[1..];
      }
    }
  }

  lemma {:induction false} FaithfulRecordsReturn(d: seq<byte>, p: nat, rs: seq<DnsRecord>)
    requires EncodeRecords(rs).Some? && At(d, p, EncodeRecords(rs).value)
    requires NoUnknown(rs) && CanonicalRecords(rs)
    ensures RecordsReturn(d, p, rs)
    decreases |rs|
  {
    hide RecordAt, EncodeRecord, EncodeRecords, RecordsAt, CanonicalRecord, At;
    if rs == [] {
      NothingReturns(d, p);
      return;
    }
    EncodedRecordHead(d, p, rs);
    assert rs[0] in rs;
    RecordRoundTrip(d, p, rs[0]);
    FaithfulRecordsReturn(d, p + |EncodeRecord(rs[0]).value|, rs[1..]);
    RecordsAtCons(d, p, rs, p + |EncodeRecords(rs).value|);
  }

  /** Records that come back were canonical and known: one kind of defect alone is always noticed. */
  lemma {:induction false} ReturningRecordsFaithful(d: seq<byte>, p: nat, rs: seq<DnsRecord>)
    requires EncodeRecords(rs).Some? && At(d, p, EncodeRecords(rs).value)
    requires RecordsReturn(d, p, rs)
    requires NoUnknown(rs) || CanonicalRecords(rs)
    ensures NoUnknown(rs) && CanonicalRecords(rs)
    decreases |rs|
  {
    hide RecordAt, EncodeRecord, EncodeRecords, RecordsAt, CanonicalRecord, At;
    if rs == [] {
      NothingReturns(d, p);
      return;
    }
    var end := p + |EncodeRecords(rs).value|;
    EncodedRecordHead(d, p, rs);
    RecordsAtCons(d, p, rs, end);
    if rs[0].UnknownRecord? {
      UnknownIsMisread(d, p, rs);
      KnownOnlyMembers(rs);
      RecordsConsume(d, p, |rs|);
      assert false;
    } else {
      RecordRoundTrip(d, p, rs[0]);
      assert CanonicalRecord(rs[0]);
      ReturningRecordsFaithful(d, p + |EncodeRecord(rs[0]).value|, rs[1..]);
    }
  }

  lemma {:induction false} EncodeRecordsAppend(a: seq<DnsRecord>, b: seq<DnsRecord>)
    ensures EncodeRecords(a + b) == Cat(EncodeRecords(a), EncodeRecords(b))
  {
    hide EncodeRecord;
    if a == [] {
      assert a + b == b;
      CatNothing(EncodeRecords(b));
    } else {
      assert (a + b)[1..] == a[1..] + b;
      EncodeRecordsAppend(a[1..], b);
      CatAssoc(EncodeRecord(a[0]), EncodeRecords(a[1..]), EncodeRecords(b));
    }
  }

  lemma EncodePacketSections(p: Packet)
    ensures EncodePacket(p) ==
      Cat(Some(EncodeHeader(WithCounts(p).header)), Cat(EncodeQuestions(p.questions), EncodeRecords(p.Records())))
  {
    hide EncodeHeader, EncodeQuestions, EncodeRecords;
    EncodeRecordsAppend(p.answers + p.authorities, p.resources);
    EncodeRecordsAppend(p.answers, p.authorities);
    CatAssoc(EncodeRecords(p.answers), EncodeRecords(p.authorities), EncodeRecords(p.resources));
  }

  /** Exactly the packets the wire format carries. */
  predicate Faithful(p: Packet) {
    p.header.opcode < 16 && CanonicalQuestions(p.questions) && CanonicalRecords(p.Records()) && NoUnknown(p.Records())
  }

  predicate Returns(d: seq<byte>, start: nat, p: Packet)
    requires EncodePacket(p).Some?
  {
    PacketAt(d, start) == Some((WithCounts(p), start + |EncodePacket(p).value|))
  }

  lemma {:induction false} QuestionsTakeRoom(qs: seq<Question>)
    ensures EncodeQuestions(qs).Some? ==> 5 * |qs| <= |EncodeQuestions(qs).value|
  {
    if qs != [] { QuestionsTakeRoom(qs[1..]); }
  }

  lemma {:induction false} KnownRecordsTakeRoom(rs: seq<DnsRecord>)
    requires NoUnknown(rs)
    ensures EncodeRecords(rs).Some? ==> 11 * |rs| <= |EncodeRecords(rs).value|
  {
    if rs != [] {
      KnownRecordsTakeRoom(rs[1..]);
      assert rs[0] in rs;
      if EncodeRecord(rs[0]).Some? { RecordTakesRoom(rs[0]); }
    }
  }

  lemma RecordTakesRoom(r: DnsRecord)
    requires !r.UnknownRecord? && EncodeRecord(r).Some?
    ensures |EncodeRecord(r).value| >= 11
  {
  }

  lemma PacketParts(d: seq<byte>, start: nat, p: Packet)
    requires EncodePacket(p).Some? && At(d, start, EncodePacket(p).value)
    ensures var p0 := start + HEADER_SIZE;
      && EncodeQuestions(p.questions).Some? && EncodeRecords(p.Records()).Some?
      && At(d, start, EncodeHeader(WithCounts(p).header))
      && At(d, p0, EncodeQuestions(p.questions).value)
      && At(d, p0 + |EncodeQuestions(p.questions).value|, EncodeRecords(p.Records()).value)
      && |EncodePacket(p).value| ==
         HEADER_SIZE + |EncodeQuestions(p.questions).value| + |EncodeRecords(p.Records()).value|
  {
    hide EncodeHeader, EncodeQuestions, EncodeRecords, At, WithCounts;
    EncodePacketSections(p);
    hide EncodePacket;
    var h, qs, rs := EncodeHeader(WithCounts(p).header), EncodeQuestions(p.questions), EncodeRecords(p.Records());
    AtSplit(d, start, h, qs.value + rs.value);
    AtSplit(d, start + HEADER_SIZE, qs.value, rs.value);
  }

  predicate CountsFit(p: Packet) {
    |p.questions| < 0x1_0000 && |p.answers| < 0x1_0000 && |p.authorities| < 0x1_0000 && |p.resources| < 0x1_0000
  }

  /** With counts that fit, the packet returns exactly when its header, its questions and its run of records do. */
  lemma PacketReturnsByParts(d: seq<byte>, start: nat, p: Packet)
    requires EncodePacket(p).Some? && At(d, start, EncodePacket(p).value) && CountsFit(p)
    requires EncodeQuestions(p.questions).Some? && EncodeRecords(p.Records()).Some?
    ensures var p0 := start + HEADER_SIZE;
      var e0 := if QuestionsAt(d, p0, |p.questions|).Some? then QuestionsAt(d, p0, |p.questions|).value.1 else 0;
      Returns(d, start, p) <==>
        && p.header.opcode < 16
        && QuestionsAt(d, p0, |p.questions|) == Some((p.questions, e0))
        && RecordsAt(d, e0, |p.Records()|) == Some((p.Records(), start + |EncodePacket(p).value|))
  {
    hide EncodeHeader, EncodePacket, EncodeQuestions, EncodeRecords, At, QuestionsAt, RecordsAt, HeaderAt, SectionsAt;
    PacketParts(d, start, p);
    HeaderRoundTrip(d, start, WithCounts(p).header);
    var back := QuestionsAt(d, start + HEADER_SIZE, |p.questions|);
    if back.Some? {
      SectionsReturn(d, back.value.1, p.answers, p.authorities, p.resources, start + |EncodePacket(p).value|);
    }
  }

  lemma SectionsReturn(d: seq<byte>, e0: nat, a: seq<DnsRecord>, b: seq<DnsRecord>, c: seq<DnsRecord>, end: nat)
    ensures SectionsAt(d, e0, |a|, |b|, |c|) == Some((a, b, c, end)) <==>
            RecordsAt(d, e0, |a + b + c|) == Some((a + b + c, end))
  {
    hide RecordsAt, SectionsAt;
    SectionsAreOneRun(d, e0, |a|, |b|, |c|);
    SectionSlices(a, b, c);
    var run := RecordsAt(d, e0, |a + b + c|);
    if run.Some? {
      RecordsConsume(d, e0, |a + b + c|);
      var rs, n1, n2 := run.value.0, |a|, |b|;
      assert rs == rs[..n1] + rs[n1..n1 + n2] + rs[n1 + n2..];
    }
  }

  lemma CountsOfReturningPacket(d: seq<byte>, start: nat, p: Packet)
    requires EncodePacket(p).Some? && Returns(d, start, p)
    ensures CountsFit(p)
  {
    hide EncodePacket;
    ParsedPacketBounds(d, start);
    hide PacketAt;
  }

  lemma CountsOfFaithfulPacket(d: seq<byte>, start: nat, p: Packet)
    requires EncodePacket(p).Some? && At(d, start, EncodePacket(p).value) && |d| == PACKET_SIZE
      && NoUnknown(p.Records())
    ensures CountsFit(p)
  {
    hide EncodeHeader, EncodePacket, EncodeQuestions, EncodeRecords, NoUnknown;
    PacketParts(d, start, p);
    QuestionsTakeRoom(p.questions);
    KnownRecordsTakeRoom(p.Records());
  }

  /** A packet that was written into the buffer parses back to itself, counts filled in and the cursor at the end
      of the written bytes, exactly when it is faithful. The one exception has both kinds of defect at once, an unknown
      record and a record with a name that is not canonical: `PacketCoincidence` shows that such a packet may return. */
  lemma PacketRoundTrip(d: seq<byte>, start: nat, p: Packet)
    requires |d| == PACKET_SIZE && EncodePacket(p).Some? && At(d, start, EncodePacket(p).value)
    ensures Faithful(p) ==> Returns(d, start, p)
    ensures NoUnknown(p.Records()) || CanonicalRecords(p.Records()) ==> (Returns(d, start, p) <==> Faithful(p))
  {
    hide EncodeHeader, EncodePacket, EncodeQuestions, EncodeRecords, At, QuestionsAt, RecordsAt,
      NoUnknown, CanonicalRecords, CanonicalQuestions, PacketAt;
    var p0 := start + HEADER_SIZE;
    PacketParts(d, start, p);
    var e0 := p0 + |EncodeQuestions(p.questions).value|;
    if Faithful(p) {
      CountsOfFaithfulPacket(d, start, p);
      CanonicalQuestionsReturn(d, p0, p.questions);
      FaithfulRecordsReturn(d, e0, p.Records());
      PacketReturnsByParts(d, start, p);
    }
    if Returns(d, start, p) && (NoUnknown(p.Records()) || CanonicalRecords(p.Records())) {
      CountsOfReturningPacket(d, start, p);
      PacketReturnsByParts(d, start, p);
      ReturningQuestionsCanonical(d, p0, p.questions, QuestionsAt(d, p0, |p.questions|).value.1);
      CanonicalQuestionsReturn(d, p0, p.questions);
      ReturningRecordsFaithful(d, e0, p.Records());
    }
  }
}

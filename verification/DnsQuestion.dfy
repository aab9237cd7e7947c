/** lib/DnsQuestion.hpp: section 4.1.2 of RFC 1035. */
module DnsQuestions {
  import opened Bytes
  import opened NameWire
  import opened PacketBuffer
  import opened QueryTypes

  datatype Question = Question(name: Name, qtype: QueryType)

  function EncodeQuestion(q: Question): Option<seq<byte>> {
    Cat(EncodeName(q.name), Some(U16Bytes(ToNumber(q.qtype)) + U16Bytes(1)))
  }

  /** The question at `p` and the position behind it; its class is read and dropped. */
  function QuestionAt(d: seq<byte>, p: nat): Option<(Question, nat)> {
    match NameAt(d, p)
    case None => None
    case Some((name, e)) =>
      if e + 4 > |d| then None else Some((Question(name, FromNumber(U16Of(d[e], d[e + 1]))), e + 4))
  }

  predicate CanonicalQuestion(q: Question) { Canonical(q.name) && CanonicalType(q.qtype) }

  lemma U16InPlace(d: seq<byte>, p: nat, v: u16)
    requires At(d, p, U16Bytes(v))
    ensures p + 2 <= |d| && U16Of(d[p], d[p + 1]) == v
  {
    assert d[p] == d[p..p + 2][0] && d[p + 1] == d[p..p + 2][1];
  }

  lemma QuestionRoundTrip(d: seq<byte>, p: nat, q: Question)
    requires EncodeQuestion(q).Some? && At(d, p, EncodeQuestion(q).value)
    ensures CanonicalQuestion(q) ==> QuestionAt(d, p) == Some((q, p + |EncodeQuestion(q).value|))
    ensures QuestionAt(d, p).Some? && QuestionAt(d, p).value.0 == q ==> CanonicalQuestion(q)
  {
    hide NameAt, EncodeName, Canonical, U16Bytes, U16Of, CanonicalType, FromNumber, ToNumber;
    var name := EncodeName(q.name).value;
    var t, c := U16Bytes(ToNumber(q.qtype)), U16Bytes(1);
    AtSplit(d, p, name, t + c);
    AtSplit(d, p + |name|, t, c);
    NameRoundTrip(d, p, q.name);
    TypeRoundTrip(q.qtype, 0);
    U16InPlace(d, p + |name|, ToNumber(q.qtype));
  }

  /** The bytes from `p` to `end` are the name, the type's number and class 1, in section 4.1.2 of RFC 1035. */
  predicate QuestionLaid(d: seq<byte>, p: nat, q: Question, end: nat) {
    && p + 5 <= end <= |d| && EncodeName(q.name) == Some(d[p..end - 4])
    && d[end - 4] as int * 0x100 + d[end - 3] == ToNumber(q.qtype)
    && d[end - 2] == 0 && d[end - 1] == 1
  }

  lemma QuestionLayout(d: seq<byte>, p: nat, q: Question)
    requires EncodeQuestion(q).Some? && At(d, p, EncodeQuestion(q).value)
    ensures QuestionLaid(d, p, q, p + |EncodeQuestion(q).value|)
  {
    var name, t, c := EncodeName(q.name).value, U16Bytes(ToNumber(q.qtype)), U16Bytes(1);
    assert |name| > 0;
    hide EncodeName, ToNumber;
    var e := p + |name|;
    AtSplit(d, p, name, t + c);
    AtSplit(d, e, t, c);
    TwoBytes(d, e, ToNumber(q.qtype));
    TwoBytes(d, e + 2, 1);
  }

  /** The most significant byte comes first. */
  lemma TwoBytes(d: seq<byte>, p: nat, v: u16)
    requires At(d, p, U16Bytes(v))
    ensures p + 2 <= |d| && d[p] as int * 0x100 + d[p + 1] == v
  {
    assert d[p] == d[p..p + 2][0] && d[p + 1] == d[p..p + 2][1];
  }

  method WriteQuestion(q: Question, buffer: BytePacketBuffer) returns (ok: bool)
    requires buffer.Valid()
    modifies buffer`currPos, buffer.buf
    ensures ok == Fits(EncodeQuestion(q), old(buffer.currPos))
    ensures ok ==> buffer.Data() == Splice(old(buffer.Data()), old(buffer.currPos), EncodeQuestion(q).value)
    ensures ok ==> buffer.currPos == old(buffer.currPos) + |EncodeQuestion(q).value|
    ensures ok ==> QuestionLaid(buffer.Data(), old(buffer.currPos), q, buffer.currPos)
  {
    hide Splice, EncodeName, QuestionLaid;
    ghost var d, p := buffer.Data(), buffer.currPos;
    ok := buffer.WriteQName(q.name);
    if !ok { return; }
    ghost var name, t, c := EncodeName(q.name).value, U16Bytes(ToNumber(q.qtype)), U16Bytes(1);
    ok := buffer.WriteU16(ToNumber(q.qtype));
    if !ok { return; }
    SpliceAppend(d, p, name, t);
    ok := buffer.WriteU16(1);
    if !ok { return; }
    SpliceAppend(d, p, name + t, c);
    assert name + t + c == name + (t + c);
    SpliceAt(d, p, EncodeQuestion(q).value);
    QuestionLayout(buffer.Data(), p, q);
  }

  method ReadQuestion(buffer: BytePacketBuffer) returns (r: Option<Question>)
    requires buffer.Valid()
    modifies buffer`currPos
    ensures r.Some? == QuestionAt(buffer.Data(), old(buffer.currPos)).Some?
    ensures r.Some? ==> QuestionAt(buffer.Data(), old(buffer.currPos)) == Some((r.value, buffer.currPos))
  {
    hide NameAt, U16Of;
    var ok, name := buffer.ReadQName([]);
    if !ok { return None; }
    assert name[0..] == name;
    var qtype := buffer.ReadU16();
    if qtype.None? { return None; }
    var qclass := buffer.ReadU16();
    if qclass.None? { return None; }
    r := Some(Question(name, FromNumber(qtype.value)));
  }
}

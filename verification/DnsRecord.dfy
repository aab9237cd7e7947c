/** lib/DnsRecord.hpp: resource records, section 4.1.3 of RFC 1035 (AAAA data: section 2.2 of RFC 3596). */
module DnsRecords {
  import opened Bytes
  import opened NameWire
  import opened PacketBuffer
  import opened QueryTypes
  import opened DnsQuestions

  datatype DnsRecord =
    | UnknownRecord(domain: Name, qtype: u16, dataLength: u16, ttl: u32)
    | ARecord(domain: Name, addr: IPv4, ttl: u32)
    | NSRecord(domain: Name, host: Name, ttl: u32)
    | CNAMERecord(domain: Name, host: Name, ttl: u32)
    | MXRecord(domain: Name, priority: u16, host: Name, ttl: u32)
    | AAAARecord(domain: Name, addr6: IPv6, ttl: u32)

  function TypeNumber(r: DnsRecord): u16 {
    match r
    case UnknownRecord(_, qtype, _, _) => qtype
    case ARecord(_, _, _) => 1
    case NSRecord(_, _, _) => 2
    case CNAMERecord(_, _, _) => 5
    case MXRecord(_, _, _, _) => 15
    case AAAARecord(_, _, _) => 28
  }

  function Rdata(r: DnsRecord): Option<seq<byte>> {
    match r
    case UnknownRecord(_, _, _, _) => Some([])
    case ARecord(_, addr, _) => Some(addr)
    case NSRecord(_, host, _) => EncodeName(host)
    case CNAMERecord(_, host, _) => EncodeName(host)
    case MXRecord(_, priority, host, _) => Cat(Some(U16Bytes(priority)), EncodeName(host))
    case AAAARecord(_, addr6, _) => Some(addr6)
  }

  function Fixed(typ: u16, ttl: u32): (enc: seq<byte>)
    ensures |enc| == 8
  {
    U16Bytes(typ) + U16Bytes(1) + U32Bytes(ttl)
  }

  /** RDLENGTH and RDATA. */
  function Tail(rdata: seq<byte>): seq<byte> { U16Bytes(|rdata| % 0x1_0000) + rdata }

  /** What a record adds to a packet: an unknown one adds nothing. */
  function EncodeRecord(r: DnsRecord): Option<seq<byte>> {
    if r.UnknownRecord? then Some([])
    else
      var name, rdata := EncodeName(r.domain), Rdata(r);
      if name.None? || rdata.None? then None
      else Some(name.value + Fixed(TypeNumber(r), r.ttl) + Tail(rdata.value))
  }

  /** The record whose RDATA starts at `b`. RDLENGTH counts only for types the resolver does not know. */
  function BodyAt(d: seq<byte>, b: nat, domain: Name, typ: u16, ttl: u32, dataLength: u16): Option<(DnsRecord, nat)> {
    match FromNumber(typ)
    case A =>
      if b + 4 > |d| then None else Some((ARecord(domain, d[b..b + 4], ttl), b + 4))
    case NS =>
      (match NameAt(d, b) case None => None case Some((host, e)) => Some((NSRecord(domain, host, ttl), e)))
    case CNAME =>
      (match NameAt(d, b) case None => None case Some((host, e)) => Some((CNAMERecord(domain, host, ttl), e)))
    case MX =>
      if b + 2 > |d| then None
      else (match NameAt(d, b + 2)
        case None => None
        case Some((host, e)) => Some((MXRecord(domain, U16Of(d[b], d[b + 1]), host, ttl), e)))
    case AAAA =>
      if b + 16 > |d| then None else Some((AAAARecord(domain, d[b..b + 16], ttl), b + 16))
    case Unknown(value) => Some((UnknownRecord(domain, typ, dataLength, ttl), b + dataLength))
  }

  function RecordAt(d: seq<byte>, p: nat): Option<(DnsRecord, nat)> {
    match NameAt(d, p)
    case None => None
    case Some((domain, e)) =>
      if e + 10 > |d| then None
      else BodyAt(d, e + 10, domain, U16Of(d[e], d[e + 1]),
        U32Of(d[e + 4], d[e + 5], d[e + 6], d[e + 7]), U16Of(d[e + 8], d[e + 9]))
  }

  predicate CanonicalRecord(r: DnsRecord) {
    match r
    case UnknownRecord(_, _, _, _) => true
    case ARecord(domain, _, _) => Canonical(domain)
    case NSRecord(domain, host, _) => Canonical(domain) && Canonical(host)
    case CNAMERecord(domain, host, _) => Canonical(domain) && Canonical(host)
    case MXRecord(domain, _, host, _) => Canonical(domain) && Canonical(host)
    case AAAARecord(domain, _, _) => Canonical(domain)
  }

  lemma U32InPlace(d: seq<byte>, p: nat, v: u32)
    requires At(d, p, U32Bytes(v))
    ensures p + 4 <= |d| && U32Of(d[p], d[p + 1], d[p + 2], d[p + 3]) == v
  {
    hide U32Of;
    var b := U32Bytes(v);
    forall i | 0 <= i < 4 ensures d[p + i] == b[i] { assert d[p..p + 4][i] == d[p + i]; }
    U32Inverse(v);
    hide U32Bytes;
  }

  lemma FixedInPlace(d: seq<byte>, e: nat, typ: u16, ttl: u32)
    requires At(d, e, Fixed(typ, ttl))
    ensures e + 8 <= |d| && U16Of(d[e], d[e + 1]) == typ && U32Of(d[e + 4], d[e + 5], d[e + 6], d[e + 7]) == ttl
  {
    hide U16Bytes, U32Bytes, U16Of, U32Of, At;
    var t, c, l := U16Bytes(typ), U16Bytes(1), U32Bytes(ttl);
    AtSplit(d, e, t + c, l);
    AtSplit(d, e, t, c);
    U16InPlace(d, e, typ);
    U32InPlace(d, e + 4, ttl);
  }

  lemma BodyRoundTrip(d: seq<byte>, b: nat, r: DnsRecord, len: u16)
    requires !r.UnknownRecord? && Rdata(r).Some? && At(d, b, Rdata(r).value) && Canonical(r.domain)
    ensures CanonicalRecord(r) ==> BodyAt(d, b, r.domain, TypeNumber(r), r.ttl, len) == Some((r, b + |Rdata(r).value|))
    ensures var back := BodyAt(d, b, r.domain, TypeNumber(r), r.ttl, len);
      back.Some? && back.value.0 == r ==> CanonicalRecord(r)
  {
    hide NameAt, EncodeName, Canonical, U16Of;
    match r
    case ARecord(_, _, _) =>
    case NSRecord(_, host, _) => NameRoundTrip(d, b, host);
    case CNAMERecord(_, host, _) => NameRoundTrip(d, b, host);
    case MXRecord(_, priority, host, _) =>
      AtSplit(d, b, U16Bytes(priority), EncodeName(host).value);
      U16InPlace(d, b, priority);
      NameRoundTrip(d, b + 2, host);
    case AAAARecord(_, _, _) =>
  }

  lemma BodyKeepsDomain(d: seq<byte>, b: nat, domain: Name, typ: u16, ttl: u32, len: u16)
    ensures var back := BodyAt(d, b, domain, typ, ttl, len);
      back.Some? ==>
        back.value.0.domain == domain && TypeNumber(back.value.0) == typ
        && (back.value.0.UnknownRecord? <==> FromNumber(typ).Unknown?)
  {
  }

  /** A written record reads back exactly when its names are canonical, and the cursor ends right behind it. */
  lemma RecordRoundTrip(d: seq<byte>, p: nat, r: DnsRecord)
    requires !r.UnknownRecord? && EncodeRecord(r).Some? && At(d, p, EncodeRecord(r).value)
    ensures CanonicalRecord(r) ==> RecordAt(d, p) == Some((r, p + |EncodeRecord(r).value|))
    ensures RecordAt(d, p).Some? && RecordAt(d, p).value.0 == r ==> CanonicalRecord(r)
  {
    hide NameAt, EncodeName, Canonical, U16Of, U32Of, BodyAt, At, Rdata, Fixed, U16Bytes;
    var name, rdata := EncodeName(r.domain).value, Rdata(r).value;
    var len := |rdata| % 0x1_0000;
    RecordParts(d, p, name, Fixed(TypeNumber(r), r.ttl), rdata);
    NameRoundTrip(d, p, r.domain);
    if Canonical(r.domain) {
      FixedInPlace(d, p + |name|, TypeNumber(r), r.ttl);
      BodyRoundTrip(d, p + |name| + 10, r, len);
    } else if RecordAt(d, p).Some? {
      RecordKeepsDomain(d, p);
    }
  }

  lemma RecordParts(d: seq<byte>, p: nat, name: seq<byte>, f: seq<byte>, rdata: seq<byte>)
    requires |f| == 8 && At(d, p, name + f + Tail(rdata))
    ensures var e := p + |name|;
      && At(d, p, name) && At(d, e, f) && At(d, e + 10, rdata) && e + 10 <= |d|
      && U16Of(d[e + 8], d[e + 9]) == |rdata| % 0x1_0000
  {
    var e, len := p + |name|, U16Bytes(|rdata| % 0x1_0000);
    AtSplit(d, p, name + f, Tail(rdata));
    AtSplit(d, p, name, f);
    AtSplit(d, e + 8, len, rdata);
    U16InPlace(d, e + 8, |rdata| % 0x1_0000);
    hide U16Bytes, U16Of;
  }

  /** In a packet, the two RDLENGTH bytes of a written record count exactly the RDATA bytes between them and its end. */
  lemma RdlengthCountsRdata(d: seq<byte>, p: nat, r: DnsRecord)
    requires |d| == PACKET_SIZE && !r.UnknownRecord? && EncodeRecord(r).Some? && At(d, p, EncodeRecord(r).value)
    ensures EncodeName(r.domain).Some? && Rdata(r).Some?
    ensures var rdlength := p + |EncodeName(r.domain).value| + 8;
      && rdlength + 2 <= |d|
      && rdlength + 2 + U16Of(d[rdlength], d[rdlength + 1]) == p + |EncodeRecord(r).value|
      && At(d, rdlength + 2, Rdata(r).value)
      && U16Of(d[rdlength], d[rdlength + 1]) == |Rdata(r).value|
  {
    hide EncodeName, Rdata, Fixed, U16Of, U16Bytes;
    RecordParts(d, p, EncodeName(r.domain).value, Fixed(TypeNumber(r), r.ttl), Rdata(r).value);
  }

  lemma RecordKeepsDomain(d: seq<byte>, p: nat)
    requires RecordAt(d, p).Some?
    ensures NameAt(d, p).Some? && RecordAt(d, p).value.0.domain == NameAt(d, p).value.0
  {
    hide NameAt, U16Of, U32Of;
    var (domain, e) := NameAt(d, p).value;
    BodyKeepsDomain(d, e + 10, domain, U16Of(d[e], d[e + 1]),
      U32Of(d[e + 4], d[e + 5], d[e + 6], d[e + 7]), U16Of(d[e + 8], d[e + 9]));
    hide BodyAt;
  }

  // ----- the bytes of a written record -----

  /** RDATA by type: section 3.3 and 3.4 of RFC 1035, and section 2.2 of RFC 3596 for AAAA. */
  predicate RdataLaid(r: DnsRecord, rdata: seq<byte>) {
    match r
    case ARecord(_, addr, _) => rdata == addr
    case AAAARecord(_, addr6, _) => rdata == addr6
    case NSRecord(_, host, _) => EncodeName(host) == Some(rdata)
    case CNAMERecord(_, host, _) => EncodeName(host) == Some(rdata)
    case MXRecord(_, priority, host, _) =>
      |rdata| >= 2 && rdata[0] as int * 0x100 + rdata[1] == priority && EncodeName(host) == Some(rdata[2..])
    case UnknownRecord(_, _, _, _) => false
  }

  /** The number of a record's type. */
  function NumberOf(r: DnsRecord): u16 {
    match r
    case ARecord(_, _, _) => ToNumber(A)
    case NSRecord(_, _, _) => ToNumber(NS)
    case CNAMERecord(_, _, _) => ToNumber(CNAME)
    case MXRecord(_, _, _, _) => ToNumber(MX)
    case AAAARecord(_, _, _) => ToNumber(AAAA)
    case UnknownRecord(_, qtype, _, _) => qtype
  }

  predicate HeadLaid(d: seq<byte>, e: nat, typ: u16, ttl: u32) {
    && e + 8 <= |d| && d[e] as int * 0x100 + d[e + 1] == typ && d[e + 2] == 0 && d[e + 3] == 1
    && d[e + 4] as int * 0x100_0000 + d[e + 5] as int * 0x1_0000 + d[e + 6] as int * 0x100 + d[e + 7] == ttl
  }

  /** From `p` on stand the name up to `e`, type, class 1, TTL, the length of the RDATA, and the RDATA up to `end`. */
  predicate RecordLaid(d: seq<byte>, p: nat, r: DnsRecord, e: nat, end: nat) {
    && p < e && e + 10 <= end <= |d| && EncodeName(r.domain) == Some(d[p..e])
    && HeadLaid(d, e, NumberOf(r), r.ttl)
    && d[e + 8] as int * 0x100 + d[e + 9] == (end - e - 10) % 0x1_0000
    && RdataLaid(r, d[e + 10..end])
  }

  lemma FixedLayout(d: seq<byte>, e: nat, typ: u16, ttl: u32)
    requires At(d, e, Fixed(typ, ttl))
    ensures HeadLaid(d, e, typ, ttl)
  {
    var t, c, l := U16Bytes(typ), U16Bytes(1), U32Bytes(ttl);
    AtSplit(d, e, t + c, l);
    AtSplit(d, e, t, c);
    TwoBytes(d, e, typ);
    TwoBytes(d, e + 2, 1);
    U32InPlace(d, e + 4, ttl);
    hide U16Bytes, U32Bytes, At;
  }

  lemma RdataLayout(r: DnsRecord)
    requires !r.UnknownRecord? && Rdata(r).Some?
    ensures RdataLaid(r, Rdata(r).value)
  {
    hide EncodeName;
    if r.MXRecord? {
      var rdata := Rdata(r).value;
      assert rdata[2..] == EncodeName(r.host).value;
    }
  }

  /** What is laid for a known record, byte by byte. */
  lemma RecordLayout(d: seq<byte>, p: nat, r: DnsRecord)
    requires !r.UnknownRecord? && EncodeRecord(r).Some? && At(d, p, EncodeRecord(r).value)
    ensures EncodeName(r.domain).Some?
    ensures RecordLaid(d, p, r, p + |EncodeName(r.domain).value|, p + |EncodeRecord(r).value|)
  {
    hide EncodeName, EncodeRecord, Fixed, RdataLaid, Rdata, NumberOf, TypeNumber, At, Tail, HeadLaid, RecordLaid;
    RecordShape(r);
    RdataLayout(r);
    var name, rdata := EncodeName(r.domain).value, Rdata(r).value;
    PartsLaid(d, p, name, Fixed(TypeNumber(r), r.ttl), rdata);
    FixedLayout(d, p + |name|, TypeNumber(r), r.ttl);
    RecordFromParts(d, p, r, p + |name|, p + |name| + 10 + |rdata|);
  }

  lemma RecordFromParts(d: seq<byte>, p: nat, r: DnsRecord, e: nat, end: nat)
    requires p < e && e + 10 <= end <= |d|
    requires EncodeName(r.domain) == Some(d[p..e]) && HeadLaid(d, e, NumberOf(r), r.ttl)
    requires d[e + 8] as int * 0x100 + d[e + 9] == (end - e - 10) % 0x1_0000 && RdataLaid(r, d[e + 10..end])
    ensures RecordLaid(d, p, r, e, end)
  {
    hide EncodeName, HeadLaid, RdataLaid, NumberOf;
  }

  lemma RecordShape(r: DnsRecord)
    requires !r.UnknownRecord? && EncodeRecord(r).Some?
    ensures EncodeName(r.domain).Some? && |EncodeName(r.domain).value| > 0 && Rdata(r).Some?
    ensures TypeNumber(r) == NumberOf(r)
    ensures var name, rdata := EncodeName(r.domain).value, Rdata(r).value;
      && EncodeRecord(r).value == name + Fixed(TypeNumber(r), r.ttl) + Tail(rdata)
      && |EncodeRecord(r).value| == |name| + 10 + |rdata|
  {
    hide Fixed;
    assert |Tail(Rdata(r).value)| == 2 + |Rdata(r).value|;
  }

  lemma PartsLaid(d: seq<byte>, p: nat, name: seq<byte>, f: seq<byte>, rdata: seq<byte>)
    requires |f| == 8 && At(d, p, name + f + Tail(rdata))
    ensures var e, end := p + |name|, p + |name| + 10 + |rdata|;
      && end <= |d| && d[p..e] == name && At(d, e, f) && d[e + 10..end] == rdata
      && d[e + 8] as int * 0x100 + d[e + 9] == |rdata| % 0x1_0000
  {
    var e, len := p + |name|, U16Bytes(|rdata| % 0x1_0000);
    AtSplit(d, p, name + f, Tail(rdata));
    AtSplit(d, p, name, f);
    AtSplit(d, e + 8, len, rdata);
    TwoBytes(d, e + 8, |rdata| % 0x1_0000);
    hide U16Bytes;
  }

  // ----- RDLENGTH as the reader takes it -----

  /** Bytes of RDATA that the reader takes from `b` for a record of this kind, if it does not count them by RDLENGTH. */
  function TakenAt(d: seq<byte>, b: nat, r: DnsRecord): nat {
    match r
    case ARecord(_, _, _) => 4
    case AAAARecord(_, _, _) => 16
    case NSRecord(_, _, _) => NameEnd(d, b) - b
    case CNAMERecord(_, _, _) => NameEnd(d, b) - b
    case MXRecord(_, _, _, _) => NameEnd(d, b + 2) - b
    case UnknownRecord(_, _, dataLength, _) => dataLength
  }

  /** For a type it knows the reader ignores RDLENGTH altogether; for any other it skips just so many bytes. */
  lemma ReaderIgnoresRdlength(d: seq<byte>, b: nat, domain: Name, typ: u16, ttl: u32, len: u16, len': u16)
    ensures !FromNumber(typ).Unknown? ==>
      BodyAt(d, b, domain, typ, ttl, len) == BodyAt(d, b, domain, typ, ttl, len')
    ensures FromNumber(typ).Unknown? ==>
      BodyAt(d, b, domain, typ, ttl, len) == Some((UnknownRecord(domain, typ, len, ttl), b + len))
  {
    hide NameAt;
  }

  /** So the record ends RDLENGTH bytes past the start of its RDATA if and only if its kind takes that many. */
  lemma EndAgreesWithRdlength(d: seq<byte>, p: nat)
    requires RecordAt(d, p).Some?
    ensures NameAt(d, p).Some? && NameAt(d, p).value.1 + 10 <= |d|
    ensures var (r, end) := RecordAt(d, p).value;
      var b := NameAt(d, p).value.1 + 10;
      var rdlength := U16Of(d[b - 2], d[b - 1]);
      end == b + rdlength <==> r.UnknownRecord? || TakenAt(d, b, r) == rdlength
  {
    hide LabelsAt, NameEnd, U16Of, U32Of;
    var b := NameAt(d, p).value.1 + 10;
    NameEndBehind(d, b);
    NameEndBehind(d, b + 2);
  }

  lemma {:induction false} NameEndBehind(d: seq<byte>, pos: nat)
    ensures NameEnd(d, pos) >= pos
  {
    hide NameEnd;
    if pos >= |d| { NameEndPast(d, pos); }
  }

  lemma NameEndPast(d: seq<byte>, pos: nat)
    requires pos >= |d|
    ensures NameEnd(d, pos) == pos
  {
  }

  /** An address record that claims no RDATA at all still yields its address, and the next record starts behind it. */
  lemma RdlengthZeroIsIgnored(d: seq<byte>)
    requires d == [0, 0, 1, 0, 1, 0, 0, 0, 60, 0, 0, 192, 0, 2, 1]
    ensures RecordAt(d, 0) == Some((ARecord([], [192, 0, 2, 1], 60), 15)) && U16Of(d[9], d[10]) == 0
  {
    assert LabelsAt(d, 0, MAX_JUMPS) == Some([]) && NameEnd(d, 0) == 1;
    assert d[11..15] == [192, 0, 2, 1];
    hide LabelsAt, NameEnd;
  }

  // ----- writing -----

  method WriteHead(domain: Name, typ: u16, ttl: u32, buffer: BytePacketBuffer) returns (ok: bool)
    requires buffer.Valid()
    modifies buffer`currPos, buffer.buf
    ensures ok == Fits(Cat(EncodeName(domain), Some(Fixed(typ, ttl))), old(buffer.currPos))
    ensures ok ==>
      buffer.Data() == Splice(old(buffer.Data()), old(buffer.currPos), EncodeName(domain).value + Fixed(typ, ttl))
    ensures ok ==> buffer.currPos == old(buffer.currPos) + |EncodeName(domain).value| + 8
  {
    hide Splice, EncodeName, U16Bytes, U32Bytes;
    ghost var d, p := buffer.Data(), buffer.currPos;
    ok := buffer.WriteQName(domain);
    if !ok { return; }
    ghost var name, t, c, l := EncodeName(domain).value, U16Bytes(typ), U16Bytes(1), U32Bytes(ttl);
    ok := buffer.WriteU16(typ);
    if !ok { return; }
    SpliceAppend(d, p, name, t);
    ok := buffer.WriteU16(1);
    if !ok { return; }
    SpliceAppend(d, p, name + t, c);
    ok := buffer.WriteU32(ttl);
    if !ok { return; }
    SpliceAppend(d, p, name + t + c, l);
    assert name + t + c + l == name + (t + c + l);
  }

  /** RDLENGTH known in advance, then the address bytes. */
  method WriteAddress(addr: seq<byte>, buffer: BytePacketBuffer) returns (ok: bool)
    requires buffer.Valid() && 0 < |addr| < 0x1_0000
    modifies buffer`currPos, buffer.buf
    ensures ok == Fits(Some(Tail(addr)), old(buffer.currPos))
    ensures ok ==> buffer.Data() == Splice(old(buffer.Data()), old(buffer.currPos), Tail(addr))
    ensures ok ==> buffer.currPos == old(buffer.currPos) + |Tail(addr)|
  {
    hide Splice;
    ghost var d, p := buffer.Data(), buffer.currPos;
    ok := buffer.WriteU16(|addr|);
    if !ok { return; }
    ok := buffer.WriteAll(addr);
    if !ok { return; }
    SpliceAppend(d, p, U16Bytes(|addr|), addr);
  }

  /** A zero placeholder, the RDATA (an optional priority, then a host), and the length patched over the placeholder. */
  method WriteHost(priority: Option<u16>, host: Name, buffer: BytePacketBuffer) returns (ok: bool)
    requires buffer.Valid()
    modifies buffer`currPos, buffer.buf
    ensures var rdata := Cat(Some(PriorityBytes(priority)), EncodeName(host));
      && ok == (rdata.Some? && Fits(Some(Tail(rdata.value)), old(buffer.currPos)))
      && (ok ==> buffer.Data() == Splice(old(buffer.Data()), old(buffer.currPos), Tail(rdata.value)))
      && (ok ==> buffer.currPos == old(buffer.currPos) + |Tail(rdata.value)|)
  {
    hide Splice, EncodeName, U16Bytes;
    ghost var d, p := buffer.Data(), buffer.currPos;
    var pos := buffer.currPos;
    ok := buffer.WriteU16(0);
    if !ok { return; }
    ghost var hole, pri := U16Bytes(0), PriorityBytes(priority);
    if priority.Some? {
      ok := buffer.WriteU16(priority.value);
      if !ok { return; }
      SpliceAppend(d, p, hole, pri);
    } else {
      assert hole + pri == hole;
    }
    ok := buffer.WriteQName(host);
    if !ok { return; }
    ghost var name := EncodeName(host).value;
    SpliceAppend(d, p, hole + pri, name);
    var size := buffer.currPos - (pos + 2);
    buffer.SetU16(pos, size % 0x1_0000);
    assert hole + pri + name == [] + hole + (pri + name);
    SplicePatch(d, p, [], hole, pri + name, U16Bytes(size % 0x1_0000));
    assert [] + U16Bytes(size % 0x1_0000) + (pri + name) == Tail(pri + name);
  }

  function PriorityBytes(priority: Option<u16>): seq<byte> {
    if priority.Some? then U16Bytes(priority.value) else []
  }

  /** Returns the number of bytes written, zero for a record of unknown type. */
  method WriteDnsRecord(record: DnsRecord, buffer: BytePacketBuffer) returns (ok: bool, written: nat)
    requires buffer.Valid()
    modifies buffer`currPos, buffer.buf
    ensures ok == (record.UnknownRecord? || Fits(EncodeRecord(record), old(buffer.currPos)))
    ensures ok ==> buffer.Data() == Spliced(old(buffer.Data()), old(buffer.currPos), EncodeRecord(record).value)
    ensures ok ==> buffer.currPos == old(buffer.currPos) + written && written == |EncodeRecord(record).value|
    ensures ok && !record.UnknownRecord? ==> EncodeName(record.domain).Some?
    ensures ok && !record.UnknownRecord? ==>
      RecordLaid(buffer.Data(), old(buffer.currPos), record,
        old(buffer.currPos) + |EncodeName(record.domain).value|, buffer.currPos)
  {
    hide Splice, EncodeName, Fixed, U16Bytes, Tail, RecordLaid;
    ghost var d, p := buffer.Data(), buffer.currPos;
    var startPos := buffer.currPos;
    TailLength(record);
    if record.UnknownRecord? {
      if p <= PACKET_SIZE { SpliceNothing(d, p); }
      return true, 0;
    }
    ok := WriteHead(record.domain, TypeNumber(record), record.ttl, buffer);
    if !ok { return false, 0; }
    match record {
      case ARecord(_, addr, _) => ok := WriteAddress(addr, buffer);
      case AAAARecord(_, addr6, _) => ok := WriteAddress(addr6, buffer);
      case NSRecord(_, host, _) =>
        CatNothing(EncodeName(host));
        ok := WriteHost(None, host, buffer);
      case CNAMERecord(_, host, _) =>
        CatNothing(EncodeName(host));
        ok := WriteHost(None, host, buffer);
      case MXRecord(_, priority, host, _) => ok := WriteHost(Some(priority), host, buffer);
    }
    if !ok { return false, 0; }
    SpliceAppend(d, p, EncodeName(record.domain).value + Fixed(TypeNumber(record), record.ttl),
      Tail(Rdata(record).value));
    written := buffer.currPos - startPos;
    SpliceAt(d, p, EncodeRecord(record).value);
    RecordLayout(buffer.Data(), p, record);
  }

  lemma TailLength(r: DnsRecord)
    ensures Rdata(r).Some? ==> |Tail(Rdata(r).value)| == 2 + |Rdata(r).value|
  {
  }

  // ----- reading -----

  method ReadDnsRecord(buffer: BytePacketBuffer) returns (r: Option<DnsRecord>)
    requires buffer.Valid()
    modifies buffer`currPos
    ensures r.Some? == RecordAt(buffer.Data(), old(buffer.currPos)).Some?
    ensures r.Some? ==> RecordAt(buffer.Data(), old(buffer.currPos)) == Some((r.value, buffer.currPos))
  {
    hide NameAt, U16Of, U32Of, BodyAt;
    var ok, domain := buffer.ReadQName([]);
    if !ok { return None; }
    assert domain[0..] == domain;
    var qtypeNum := buffer.ReadU16();
    if qtypeNum.None? { return None; }
    var qclass := buffer.ReadU16();
    if qclass.None? { return None; }
    var ttl := buffer.ReadU32();
    if ttl.None? { return None; }
    var dataLength := buffer.ReadU16();
    if dataLength.None? { return None; }
    r := ReadBody(buffer, domain, qtypeNum.value, ttl.value, dataLength.value);
  }

  method ReadBody(buffer: BytePacketBuffer, domain: Name, qtypeNum: u16, ttl: u32, dataLength: u16)
    returns (r: Option<DnsRecord>)
    requires buffer.Valid()
    modifies buffer`currPos
    ensures r.Some? == BodyAt(buffer.Data(), old(buffer.currPos), domain, qtypeNum, ttl, dataLength).Some?
    ensures r.Some? ==>
      BodyAt(buffer.Data(), old(buffer.currPos), domain, qtypeNum, ttl, dataLength) == Some((r.value, buffer.currPos))
  {
    hide NameAt, U16Of;
    match FromNumber(qtypeNum)
    case A =>
      ghost var b := buffer.currPos;
      var rawAddr := buffer.ReadU32();
      if rawAddr.None? { return None; }
      U32BytesInverse(buffer.Data(), b);
      r := Some(ARecord(domain, U32Bytes(rawAddr.value), ttl));
    case NS =>
      var ok, ns := buffer.ReadQName([]);
      if !ok { return None; }
      assert ns[0..] == ns;
      r := Some(NSRecord(domain, ns, ttl));
    case CNAME =>
      var ok, cname := buffer.ReadQName([]);
      if !ok { return None; }
      assert cname[0..] == cname;
      r := Some(CNAMERecord(domain, cname, ttl));
    case MX =>
      var priority := buffer.ReadU16();
      if priority.None? { return None; }
      var ok, mx := buffer.ReadQName([]);
      if !ok { return None; }
      assert mx[0..] == mx;
      r := Some(MXRecord(domain, priority.value, mx, ttl));
    case AAAA =>
      var addr := ReadOctets(buffer, 16);
      if addr.None? { return None; }
      r := Some(AAAARecord(domain, addr.value, ttl));
    case Unknown(_) =>
      buffer.Step(dataLength);
      r := Some(UnknownRecord(domain, qtypeNum, dataLength, ttl));
  }

  method ReadOctets(buffer: BytePacketBuffer, n: nat) returns (r: Option<seq<byte>>)
    requires buffer.Valid() && n > 0
    modifies buffer`currPos
    ensures r == if old(buffer.currPos) + n <= PACKET_SIZE
                 then Some(buffer.Data()[old(buffer.currPos)..old(buffer.currPos) + n]) else None
    ensures r.Some? ==> buffer.currPos == old(buffer.currPos) + n
  {
    var addr: seq<byte> := [];
    for i := 0 to n
      invariant buffer.currPos == old(buffer.currPos) + i
      invariant i > 0 ==> buffer.currPos <= PACKET_SIZE
      invariant addr == if i == 0 then [] else buffer.Data()[old(buffer.currPos)..buffer.currPos]
    {
      var octet := buffer.Read();
      if octet.None? { return None; }
      addr := addr + [octet.value];
    }
    r := Some(addr);
  }

  lemma U32BytesInverse(d: seq<byte>, p: nat)
    ensures p + 4 <= |d| ==> U32Bytes(U32Of(d[p], d[p + 1], d[p + 2], d[p + 3])) == d[p..p + 4]
  {
    if p + 4 <= |d| { U32OfInverse(d[p], d[p + 1], d[p + 2], d[p + 3]); }
    hide U32Bytes, U32Of;
  }
}

/** Networks of datagrams: what the packet format and the checks of `lookup` make of them. */
module ResolverWire {
  import opened Bytes
  import opened NameWire
  import opened QueryTypes
  import opened DnsHeaders
  import opened DnsRecords
  import opened PacketWire
  import opened Referrals
  import opened ResolverModel
  import opened ResolverTheorems
  import opened ResolverBounds
  import opened ResolverEnds
  import opened ResolverChains

  /** What a 512-byte buffer is received as, under some transaction id. */
  ghost predicate IsReceived(r: Reply) { exists d, id :: |d| == PACKET_SIZE && Received(d, id) == r }

  /** Every response is a datagram that parsed and passed the checks on id and response bit. */
  ghost predicate FromWire(w: World) {
    forall n: nat, q: Query :: w.net(n, q).Response? ==> IsReceived(w.net(n, q))
  }

  // ----- such a network names finitely many hosts -----

  const HOST_BOUND: nat := 6 * PACKET_SIZE

  lemma BodyHostShort(d: seq<byte>, b: nat, domain: Name, typ: u16, ttl: u32, len: u16)
    requires |d| == PACKET_SIZE
    ensures var back := BodyAt(d, b, domain, typ, ttl, len);
      back.Some? && back.value.0.NSRecord? ==> |back.value.0.host| < HOST_BOUND
  {
    if NameAt(d, b).Some? { DecodedNameBounds(d, b); }
    hide NameAt;
  }

  lemma RecordHostShort(d: seq<byte>, p: nat)
    requires |d| == PACKET_SIZE
    ensures RecordAt(d, p).Some? && RecordAt(d, p).value.0.NSRecord? ==> |RecordAt(d, p).value.0.host| < HOST_BOUND
  {
    hide NameAt, U16Of, U32Of, BodyAt;
    if RecordAt(d, p).Some? {
      var (domain, e) := NameAt(d, p).value;
      BodyHostShort(d, e + 10, domain, U16Of(d[e], d[e + 1]),
        U32Of(d[e + 4], d[e + 5], d[e + 6], d[e + 7]), U16Of(d[e + 8], d[e + 9]));
    }
  }

  predicate ShortHosts(rs: seq<DnsRecord>) { forall r :: r in rs && r.NSRecord? ==> |r.host| < HOST_BOUND }

  lemma {:induction false} RecordsHostsShort(d: seq<byte>, p: nat, n: nat)
    requires |d| == PACKET_SIZE
    ensures RecordsAt(d, p, n).Some? ==> ShortHosts(RecordsAt(d, p, n).value.0)
    decreases n
  {
    hide RecordAt;
    if n > 0 && RecordAt(d, p).Some? {
      RecordHostShort(d, p);
      RecordsHostsShort(d, RecordAt(d, p).value.1, n - 1);
    }
  }

  lemma ReceivedHostsShort(d: seq<byte>, id: u16)
    requires |d| == PACKET_SIZE
    ensures Received(d, id).Response? ==> ShortHosts(Received(d, id).packet.authorities)
  {
    hide HeaderAt, QuestionsAt, RecordsAt, ShortHosts;
    if Received(d, id).Response? {
      var h := HeaderAt(d, 0).value;
      var e0 := QuestionsAt(d, HEADER_SIZE, h.questions).value.1;
      var e1 := RecordsAt(d, e0, h.answers).value.1;
      RecordsHostsShort(d, e1, h.authoritativeEntries);
    }
  }

  lemma UnresolvedIsHost(p: Packet, qname: Name)
    requires UnresolvedNs(p, qname).Some?
    ensures exists r :: r in p.authorities && r.NSRecord? && r.host == UnresolvedNs(p, qname).value
  {
    var ns := NsOf(p.authorities, qname)[0];
    NsOfMembers(p.authorities, qname, ns);
    var r :| r in p.authorities && Delegates(r, qname) && ns == (r.domain, r.host);
    hide NsOf;
  }

  lemma {:induction false} NamesBelow(n: nat) returns (names: set<Name>)
    ensures forall s: Name :: |s| < n ==> s in names
  {
    if n == 0 {
      names := {};
    } else {
      var shorter := NamesBelow(n - 1);
      names := {[]} + set b: byte, s | 0 <= b < 0x100 && s in shorter :: [b] + s;
      forall s: Name | |s| < n ensures s in names {
        if s != [] { assert s == [s[0]] + s[1..]; }
      }
    }
  }

  /** There are only so many names a packet can hold, so hosts are always named from a finite set. */
  lemma WireNamesAmong(w: World) returns (hosts: set<Name>)
    requires FromWire(w)
    ensures NamesAmong(w, hosts)
  {
    hide Received, ResolvedNs, UnresolvedNs, Final;
    hosts := NamesBelow(HOST_BOUND);
    forall n: nat, q: Query | RefersByName(w.net(n, q), q.qname)
      ensures UnresolvedNs(w.net(n, q).packet, q.qname).value in hosts
    {
      var p := w.net(n, q).packet;
      var d, id :| |d| == PACKET_SIZE && Received(d, id) == w.net(n, q);
      ReceivedHostsShort(d, id);
      UnresolvedIsHost(p, q.qname);
    }
  }

  /** The exact condition for the source to finish, whatever it is asked and whatever its cache holds: on a network of
      datagrams every search ends if and only if no chain of referrals with glue is endless. */
  lemma SearchesEndExactly(w: World)
    requires w.roots != [] && FromWire(w)
    ensures EverySearchEnds(w) <==> NoEndlessChain(w)
  {
    hide FromWire, NamesAmong, EverySearchEnds, NoEndlessChain;
    var hosts := WireNamesAmong(w);
    SearchesEndWithoutEndlessChains(w, hosts);
  }

  /** The search ends, and however it ends it has sent no more than the budget for `turns`. */
  ghost predicate Budgeted(w: World, st: State, qname: Name, qtype: QueryType, depth: nat, turns: nat) {
    && HasEnd(w, st, qname, qtype, depth)
    && forall st', o :: Settles(w, st, qname, qtype, depth, st', o) ==>
         st'.sent <= st.sent + QueryBudget(w, depth, turns)
  }

  /** Where moreover chains of glue are shorter than `length`, one number of turns is enough for every search, and the
      number of queries is bounded before the first one. */
  lemma SearchIsBudgeted(w: World, rank: Query -> nat, length: nat) returns (turns: nat)
    requires FromWire(w) && Descends(w, rank, length)
    ensures forall st, qname, qtype, depth: nat :: Good(w, st) ==> Budgeted(w, st, qname, qtype, depth, turns)
  {
    hide FromWire, NamesAmong, Descends, Good, Settles, QueryBudget, Turns;
    var hosts := WireNamesAmong(w);
    turns := Turns(length, hosts);
    forall st, qname, qtype, depth: nat | Good(w, st) ensures Budgeted(w, st, qname, qtype, depth, turns) {
      var st', o := SearchEnds(w, st, qname, qtype, depth, rank, length, hosts);
    }
  }

  // ----- a network on which no search ends -----

  /** A response that delegates the root to a server `n` and gives its address. */
  function SelfReferral(id: u16): Packet {
    Packet(NEW_HEADER.(id := id, response := true, authoritativeEntries := 1, resourceEntries := 1), [], [],
      [NSRecord([], [110], 60)], [ARecord([110], [192, 0, 2, 1], 60)])
  }

  lemma SelfReferralRefers(id: u16, qname: Name)
    ensures RefersWithGlue(Response(SelfReferral(id)), qname)
  {
    var ns, glue := SelfReferral(id).authorities[0], SelfReferral(id).resources[0];
    assert qname[|qname|..] == [];
    assert Delegates(ns, qname) && IsGlue(glue, ns.host);
    var servers := NsOf(SelfReferral(id).authorities, qname);
    assert servers[0] == ([], [110]);
    assert GlueFor(SelfReferral(id).resources, servers[0].1) == Some(glue.addr);
  }

  /** A faithful packet that arrives is taken exactly if it is a response and carries the id that was asked with. */
  lemma ResponsesArrive(d: seq<byte>, id: u16, p: Packet)
    requires |d| == PACKET_SIZE && Faithful(p) && EncodePacket(p).Some? && At(d, 0, EncodePacket(p).value)
    ensures p.header.response && p.header.id == id ==> Received(d, id) == Response(WithCounts(p))
    ensures !p.header.response || p.header.id != id ==> Received(d, id) == Failure
  {
    hide EncodePacket, Faithful, PacketAt, At;
    PacketRoundTrip(d, 0, p);
  }

  /** Such a response can be sent and is accepted: it is faithful, takes 43 bytes, and parses back from any buffer that
      starts with them. */
  lemma SelfReferralArrives(id: u16)
    ensures var p := SelfReferral(id);
      && Faithful(p) && EncodePacket(p).Some? && |EncodePacket(p).value| == 43
      && forall d :: |d| == PACKET_SIZE && At(d, 0, EncodePacket(p).value) ==> Received(d, id) == Response(p)
  {
    var p := SelfReferral(id);
    SelfReferralEncodes(id);
    assert WithCounts(p) == p && p.header.id == id && p.header.response;
    hide EncodePacket, Faithful, PacketAt, At, WithCounts, SelfReferral;
    forall d | |d| == PACKET_SIZE && At(d, 0, EncodePacket(p).value) ensures Received(d, id) == Response(p) {
      ResponsesArrive(d, id, p);
    }
  }

  lemma SelfReferralEncodes(id: u16)
    ensures var p := SelfReferral(id);
      Faithful(p) && EncodePacket(p).Some? && |EncodePacket(p).value| == 43
  {
    var p := SelfReferral(id);
    var ns, glue := p.authorities[0], p.resources[0];
    assert p.Records() == [ns, glue];
    assert p.header.opcode < 16 && p.questions == [];
    ServerRecords(ns, glue);
    hide EncodeRecord, CanonicalRecord, EncodeHeader, SelfReferral, WithCounts;
    TwoRecordsEncode(ns, glue);
    NothingReturns([], 0);
    EncodePacketSections(p);
    hide EncodePacket, EncodeRecords, EncodeQuestions;
  }

  lemma ServerRecords(ns: DnsRecord, glue: DnsRecord)
    requires ns == NSRecord([], [110], 60) && glue == ARecord([110], [192, 0, 2, 1], 60)
    ensures CanonicalRecord(ns) && EncodeRecord(ns).Some? && |EncodeRecord(ns).value| == 14 && !ns.UnknownRecord?
    ensures CanonicalRecord(glue) && EncodeRecord(glue).Some? && |EncodeRecord(glue).value| == 17
      && !glue.UnknownRecord?
  {
    EmptyName();
    OneLabelEncodes([110]);
    hide EncodeName, Canonical, Fixed, U16Bytes;
  }

  lemma TwoRecordsEncode(a: DnsRecord, b: DnsRecord)
    ensures EncodeRecords([a, b]) == Cat(EncodeRecord(a), EncodeRecord(b))
  {
    hide EncodeRecord;
    assert [a, b][1..] == [b] && [b][1..] == [];
    assert EncodeRecords([]) == Some([]);
    CatNothing(EncodeRecord(b));
    assert EncodeRecords([b]) == EncodeRecord(b);
  }

  /** Every datagram is the self-referral, under the transaction id drawn for its query. */
  ghost predicate SelfReferring(w: World, ids: nat -> u16, wire: (nat, Query) -> seq<byte>) {
    forall n: nat, q: Query ::
      && w.net(n, q) == Received(wire(n, q), ids(n))
      && |wire(n, q)| == PACKET_SIZE && EncodePacket(SelfReferral(ids(n))).Some?
      && At(wire(n, q), 0, EncodePacket(SelfReferral(ids(n))).value)
  }

  /** A network that answers every query with that response keeps the source asking forever, whatever it is asked. */
  lemma SelfReferralNeverEnds(w: World, ids: nat -> u16, wire: (nat, Query) -> seq<byte>, st: State,
    qname: Name, qtype: QueryType, st': State, o: Outcome)
    requires w.maxRetries > 0 && w.roots != [] && SelfReferring(w, ids, wire)
    requires st.visited == {} && CacheLookup(w, Enter(st, qname, 0), qname, qtype).1 == None
    ensures !Settles(w, st, qname, qtype, 0, st', o)
  {
    hide RefersWithGlue, CacheLookup, Enter, Settles, EncodePacket, Received, At, SelfReferral, Faithful;
    forall n: nat, server: IPv4 ensures RefersWithGlue(w.net(n, Query(qname, qtype, server)), qname) {
      SelfReferralArrives(ids(n));
      SelfReferralRefers(ids(n), qname);
    }
    hide SelfReferring;
    EndlessReferrals(w, st, qname, qtype, 0, st', o);
  }
}

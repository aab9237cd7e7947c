/** What referrals leave in the NS cache: for each server with glue, the address under the domain it serves. */
module ResolverGlue {
  import opened Bytes
  import opened QueryTypes
  import opened DnsRecords
  import opened PacketWire
  import opened Referrals
  import opened ResolverModel
  import opened ResolverTheorems
  import opened ResolverTrace
  import opened ResolverChains
  import opened CacheLifetimes
  import opened Runs
  import StringUtils
  import CacheModel
  import CacheHistory
  import CacheKeys

  /** An address of `host` that can be cached. */
  predicate GivesAddress(w: World, r: DnsRecord, host: Name) {
    r.ARecord? && r.domain == host && Storable(w.cfg, r.ttl)
  }

  predicate NoAddress(w: World, resources: seq<DnsRecord>, host: Name) {
    forall r :: r in resources ==> !GivesAddress(w, r, host)
  }

  /** The NS cache of `st` holds the address of `r` under `domain`, stored at one of the clock readings from `from` on
      and kept for the TTL of `r`, moved into the bounds. */
  ghost predicate Remembered(w: World, from: nat, st: State, domain: Name, r: DnsRecord) {
    r.ARecord? && domain in st.cache.nsCache &&
    var e := st.cache.nsCache[domain];
    && e.ip == r.addr && MovedInto(w.cfg, r.ttl, e.originalTTL)
    && exists n :: from <= n < st.ticks && StoredAt(w, e, n)
  }

  predicate StoredAt(w: World, e: CacheModel.NSCacheEntry, n: nat) {
    e.insertedAt == w.clock(n) && e.expiresAt == w.clock(n) + e.originalTTL * SECOND
  }

  /** The NS cache forgets nothing and grows at most; what it holds for `domain` is as before. */
  predicate Untouched(st: State, st': State, domain: Name) {
    && st.ticks <= st'.ticks && |st.cache.nsCache| <= |st'.cache.nsCache|
    && (domain in st'.cache.nsCache <==> domain in st.cache.nsCache)
    && (domain in st.cache.nsCache ==> st'.cache.nsCache[domain] == st.cache.nsCache[domain])
  }

  predicate OnlyGrows(st: State, st': State) {
    st.ticks <= st'.ticks && |st.cache.nsCache| <= |st'.cache.nsCache|
  }

  predicate HasRoom(st: State) { |st.cache.nsCache| < CacheModel.MAX_NS_ENTRIES }

  lemma RememberedStill(w: World, from: nat, start: nat, st: State, st': State, domain: Name, r: DnsRecord)
    requires Remembered(w, start, st, domain, r) && Untouched(st, st', domain) && from <= start
    ensures Remembered(w, from, st', domain, r)
  {
    hide MovedInto, StoredAt;
  }

  lemma AddressGrows(w: World, st: State, domain: Name, r: DnsRecord)
    requires r.ARecord?
    ensures OnlyGrows(st, CacheAddress(w, st, domain, r))
    ensures forall d :: d != domain || !Storable(w.cfg, r.ttl) ==> Untouched(st, CacheAddress(w, st, domain, r), d)
    ensures HasRoom(st) && Storable(w.cfg, r.ttl) ==>
      Remembered(w, st.ticks, CacheAddress(w, st, domain, r), domain, r)
  {
    EnforcedExactly(w.cfg, r.ttl);
    var ttl := CacheModel.EnforceTTLBounds(w.cfg, r.ttl);
    hide Storable, CacheModel.EnforceTTLBounds, MovedInto;
    var now, st' := w.clock(st.ticks), CacheAddress(w, st, domain, r);
    CacheHistory.SubsetSize(st.cache.nsCache.Keys, st'.cache.nsCache.Keys);
    if HasRoom(st) && ttl != 0 { assert StoredAt(w, st'.cache.nsCache[domain], st.ticks); }
  }

  /** Of the glue for one server, the last address that can be cached is the one remembered; other domains are left
      alone, and so is its own if there is none. */
  lemma {:induction false} ServerGlueRemembered(w: World, st: State, ns: NameServer, resources: seq<DnsRecord>)
    ensures var st' := CacheServerGlue(w, st, ns, resources);
      && OnlyGrows(st, st')
      && (forall d :: d != ns.0 || NoAddress(w, resources, ns.1) ==> Untouched(st, st', d))
      && (HasRoom(st') ==> forall j :: 0 <= j < |resources| && LastAddress(w, resources, ns.1, j) ==>
            Remembered(w, st.ticks, st', ns.0, resources[j]))
    decreases |resources|
  {
    hide Remembered, CacheAddress, Storable;
    if resources != [] {
      var r, rest := resources[0], resources[1..];
      assert resources == [r] + rest;
      var st1 := if IsGlue(r, ns.1) then CacheAddress(w, st, ns.0, r) else st;
      if IsGlue(r, ns.1) { AddressGrows(w, st, ns.0, r); }
      ServerGlueRemembered(w, st1, ns, rest);
      var st' := CacheServerGlue(w, st1, ns, rest);
      forall d | d != ns.0 || NoAddress(w, resources, ns.1) ensures Untouched(st, st', d) {
        assert NoAddress(w, resources, ns.1) ==> NoAddress(w, rest, ns.1) && !GivesAddress(w, r, ns.1);
        assert Untouched(st, st1, d) && Untouched(st1, st', d);
      }
      forall j | HasRoom(st') && 0 <= j < |resources| && LastAddress(w, resources, ns.1, j)
        ensures Remembered(w, st.ticks, st', ns.0, resources[j])
      {
        if j == 0 {
          forall q | q in rest ensures !GivesAddress(w, q, ns.1) {
            var i :| 0 <= i < |rest| && rest[i] == q;
            assert resources[i + 1] == q;
          }
          RememberedStill(w, st.ticks, st.ticks, st1, st', ns.0, r);
        } else {
          assert rest[j - 1] == resources[j];
          LastInTail(w, resources, ns.1, j);
          RememberedLater(w, st.ticks, st1.ticks, st', ns.0, resources[j]);
        }
      }
    }
  }

  lemma RememberedLater(w: World, from: nat, start: nat, st: State, domain: Name, r: DnsRecord)
    requires Remembered(w, start, st, domain, r) && from <= start
    ensures Remembered(w, from, st, domain, r)
  {
    hide MovedInto, StoredAt;
  }

  /** The last address for `host` that can be cached stands at `j`. */
  predicate LastAddress(w: World, resources: seq<DnsRecord>, host: Name, j: nat)
    requires j < |resources|
  {
    GivesAddress(w, resources[j], host) && forall i :: j < i < |resources| ==> !GivesAddress(w, resources[i], host)
  }

  lemma LastInTail(w: World, resources: seq<DnsRecord>, host: Name, j: nat)
    requires 0 < j < |resources| && LastAddress(w, resources, host, j)
    ensures LastAddress(w, resources[1..], host, j - 1)
  {
    hide GivesAddress;
    var rest := resources[1..];
    forall i | j - 1 < i < |rest| ensures !GivesAddress(w, rest[i], host) { assert rest[i] == resources[i + 1]; }
  }

  /** The last server for `domain` with an address that can be cached stands at `i`, and the last such address at
      `j`. */
  predicate LastGlue(w: World, servers: seq<NameServer>, resources: seq<DnsRecord>, i: nat, j: nat)
    requires i < |servers| && j < |resources|
  {
    && LastAddress(w, resources, servers[i].1, j)
    && forall k :: i < k < |servers| && servers[k].0 == servers[i].0 ==> NoAddress(w, resources, servers[k].1)
  }

  /** Every domain of `servers` that came with an address is remembered with the last one. */
  ghost predicate AllRemembered(w: World, from: nat, st: State, servers: seq<NameServer>, resources: seq<DnsRecord>) {
    forall i, j :: 0 <= i < |servers| && 0 <= j < |resources| && LastGlue(w, servers, resources, i, j) ==>
      Remembered(w, from, st, servers[i].0, resources[j])
  }

  predicate NoServer(w: World, servers: seq<NameServer>, resources: seq<DnsRecord>, domain: Name) {
    forall ns :: ns in servers && ns.0 == domain ==> NoAddress(w, resources, ns.1)
  }

  /** A referral's glue, as far as it fits: each domain served is remembered with the last address there was for it, and
      every other domain is left alone. */
  lemma {:induction false} GlueRemembered(w: World, st: State, servers: seq<NameServer>, resources: seq<DnsRecord>)
    ensures var st' := CacheGlue(w, st, servers, resources);
      && OnlyGrows(st, st')
      && (forall d :: NoServer(w, servers, resources, d) ==> Untouched(st, st', d))
      && (HasRoom(st') ==> AllRemembered(w, st.ticks, st', servers, resources))
    decreases |servers|
  {
    hide Remembered, CacheServerGlue, LastAddress, NoAddress, HasRoom;
    if servers != [] {
      var ns, rest := servers[0], servers[1..];
      assert servers == [ns] + rest;
      var st1 := CacheServerGlue(w, st, ns, resources);
      ServerGlueRemembered(w, st, ns, resources);
      GlueRemembered(w, st1, rest, resources);
      var st' := CacheGlue(w, st1, rest, resources);
      forall d | NoServer(w, servers, resources, d) ensures Untouched(st, st', d) {
        assert NoServer(w, rest, resources, d);
        assert Untouched(st, st1, d) && Untouched(st1, st', d);
      }
      if HasRoom(st') {
        RoomBefore(st1, st');
        forall i, j | 0 <= i < |servers| && 0 <= j < |resources| && LastGlue(w, servers, resources, i, j)
          ensures Remembered(w, st.ticks, st', servers[i].0, resources[j])
        {
          if i == 0 {
            forall s | s in rest && s.0 == ns.0 ensures NoAddress(w, resources, s.1) {
              var k :| 0 <= k < |rest| && rest[k] == s;
              assert servers[k + 1] == s;
            }
            RememberedStill(w, st.ticks, st.ticks, st1, st', ns.0, resources[j]);
          } else {
            assert rest[i - 1] == servers[i] && LastGlue(w, rest, resources, i - 1, j) by {
              forall k | i - 1 < k < |rest| && rest[k].0 == servers[i].0 ensures NoAddress(w, resources, rest[k].1) {
                assert rest[k] == servers[k + 1];
              }
            }
            RememberedLater(w, st.ticks, st1.ticks, st', servers[i].0, resources[j]);
          }
        }
      }
    }
  }

  lemma RoomBefore(st: State, st': State)
    requires OnlyGrows(st, st') && HasRoom(st')
    ensures HasRoom(st)
  {
  }

  /** A search in two turns: the first server asked refers to one with glue, and that one ends it. Afterwards the glue
      of the referral is remembered, and the packet of the second server was returned. */
  lemma GlueOutlivesSearch(w: World, st: State, qname: Name, qtype: QueryType, depth: nat, limit: nat, p: Packet,
    p': Packet)
    requires Unanswered(w, st, qname, qtype, depth) && w.roots != [] && w.maxRetries > 0 && limit >= 2
    requires !EndsSearch(p) && EndsSearch(p') && ResolvedNs(p, qname).Some?
    requires w.net(st.sent, Query(qname, qtype, FirstServer(w, st, qname, qtype, depth))) == Response(p)
    requires w.net(st.sent + 1, Query(qname, qtype, ResolvedNs(p, qname).value)) == Response(p')
    ensures var (st', o) := Resolve(w, st, qname, qtype, depth, limit);
      var servers := NsOf(p.authorities, qname);
      && o == Returned(p')
      && (HasRoom(st') ==> AllRemembered(w, st.ticks, st', servers, p.resources))
  {
    hide CacheLookup, FindCachedNs, Conclude, CacheGlue, AllRemembered, NsOf, ResolvedNs, EndsSearch;
    var servers, first := NsOf(p.authorities, qname), FirstServer(w, st, qname, qtype, depth);
    var st3 := Looked(w, st, qname, qtype, depth).0;
    LookedLater(w, st, qname, qtype, depth);
    var st4 := Send(w, st3, Query(qname, qtype, first), depth, 0);
    var st5 := CacheGlue(w, st4, servers, p.resources);
    GlueIsQuiet(w, st4, servers, p.resources);
    GlueRemembered(w, st4, servers, p.resources);
    TurnRefers(w, st3, qname, qtype, depth, limit, first, limit, p);
    TurnEnds(w, st5, qname, qtype, depth, limit, ResolvedNs(p, qname).value, limit - 1, p');
    var st' := Follow(w, st5, qname, qtype, depth, limit, ResolvedNs(p, qname).value, limit - 1).0;
    if HasRoom(st') { StillAllRemembered(w, st.ticks, st4.ticks, st5, st', servers, p.resources); }
    hide Follow;
  }

  lemma LookedLater(w: World, st: State, qname: Name, qtype: QueryType, depth: nat)
    ensures var st' := Looked(w, st, qname, qtype, depth).0;
      st'.sent == st.sent && st.ticks <= st'.ticks
  {
    hide CacheModel.LookupStep;
    WalkLater(w, CacheLookup(w, Enter(st, qname, depth), qname, qtype).0, qname);
  }

  lemma {:induction false} WalkLater(w: World, st: State, domain: Name)
    ensures var st' := FindCachedNs(w, st, domain).0;
      st'.sent == st.sent && st.ticks <= st'.ticks
    decreases |domain|
  {
    hide StringUtils.FirstDelim, CacheModel.LookupNSStep;
    var (c, r) := CacheModel.LookupNSStep(st.cache, domain, w.clock(st.ticks));
    var dot := StringUtils.FirstDelim(domain, DOT);
    if !(r.Some? || dot == |domain|) { WalkLater(w, Tick(st, c), domain[dot + 1..]); }
  }

  /** A turn whose first attempt brings a referral with glue. */
  lemma TurnRefers(w: World, st: State, qname: Name, qtype: QueryType, depth: nat, limit: nat, server: IPv4,
    patience: nat, p: Packet)
    requires depth < MAX_RECURSION_DEPTH && patience > 0 && w.maxRetries > 0
    requires w.net(st.sent, Query(qname, qtype, server)) == Response(p)
    requires !EndsSearch(p) && ResolvedNs(p, qname).Some?
    ensures Follow(w, st, qname, qtype, depth, limit, server, patience)
      == Follow(w,
           CacheGlue(w, Send(w, st, Query(qname, qtype, server), depth, 0), NsOf(p.authorities, qname), p.resources),
           qname, qtype, depth, limit, ResolvedNs(p, qname).value, patience - 1)
  {
    hide CacheGlue, Resolve, NsOf, ResolvedNs, UnresolvedNs, Conclude;
    assert Retry(w, st, Query(qname, qtype, server), depth, 0)
      == (Send(w, st, Query(qname, qtype, server), depth, 0), Got(p));
  }

  /** A turn whose first attempt brings the end of the search; it leaves the NS cache alone. */
  lemma TurnEnds(w: World, st: State, qname: Name, qtype: QueryType, depth: nat, limit: nat, server: IPv4,
    patience: nat, p: Packet)
    requires depth < MAX_RECURSION_DEPTH && patience > 0 && w.maxRetries > 0
    requires w.net(st.sent, Query(qname, qtype, server)) == Response(p) && EndsSearch(p)
    ensures var (st', o) := Follow(w, st, qname, qtype, depth, limit, server, patience);
      o == Done(Returned(p)) && st'.cache.nsCache == st.cache.nsCache && st.ticks <= st'.ticks
  {
    hide CacheGlue, FollowOn, NsOf, CacheModel.InsertStep, CacheKeys.MakeCacheKey;
    var st1 := Send(w, st, Query(qname, qtype, server), depth, 0);
    assert Retry(w, st, Query(qname, qtype, server), depth, 0) == (st1, Got(p));
    CacheHistory.InsertLeavesOthers(w.cfg, st1.cache, CacheKeys.MakeCacheKey(qname, qtype), p.answers,
      w.clock(st1.ticks));
  }

  lemma StillAllRemembered(w: World, from: nat, start: nat, st: State, st': State, servers: seq<NameServer>,
    resources: seq<DnsRecord>)
    requires HasRoom(st) ==> AllRemembered(w, start, st, servers, resources)
    requires HasRoom(st') && st'.cache.nsCache == st.cache.nsCache && st.ticks <= st'.ticks && from <= start
    ensures AllRemembered(w, from, st', servers, resources)
  {
    hide Remembered, LastGlue;
    forall i, j | 0 <= i < |servers| && 0 <= j < |resources| && LastGlue(w, servers, resources, i, j)
      ensures Remembered(w, from, st', servers[i].0, resources[j])
    {
      RememberedStill(w, from, start, st, st', servers[i].0, resources[j]);
    }
  }
}

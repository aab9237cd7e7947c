/** What a search leaves in the cache, as the next search for the same name and type finds it. */
module ResolverRepeats {
  import opened Bytes
  import opened QueryTypes
  import opened DnsHeaders
  import opened DnsRecords
  import opened PacketWire
  import opened Referrals
  import opened ResolverModel
  import opened ResolverTrace
  import opened CacheLifetimes
  import opened Runs
  import StringUtils
  import CacheModel
  import CacheHistory
  import CacheKeys

  // ----- where negative answers come from -----

  /** A reply that denies: the name does not exist, or the server failed. */
  predicate Denies(e: Event, k: CacheModel.Key) {
    && e.Sent? && e.reply.Response? && CacheKeys.MakeCacheKey(e.query.qname, e.query.qtype) == k
    && (e.reply.packet.header.rescode == NXDOMAIN || e.reply.packet.header.rescode == SERVFAIL)
  }

  ghost predicate Denied(t: seq<Event>, from: nat, k: CacheModel.Key) { exists j :: from <= j < |t| && Denies(t[j], k) }

  /** From `a` to `b` a negative answer under `k` appears only if a reply to a query with this key denied it. */
  ghost predicate Accounted(a: State, b: State, k: CacheModel.Key) {
    a.trace <= b.trace &&
    (k in b.cache.negativeCache ==> k in a.cache.negativeCache || Denied(b.trace, |a.trace|, k))
  }

  lemma AccountedTrans(a: State, b: State, c: State, k: CacheModel.Key)
    requires Accounted(a, b, k) && Accounted(b, c, k)
    ensures Accounted(a, c, k)
  {
    hide Denies;
    if Denied(b.trace, |a.trace|, k) {
      var j :| |a.trace| <= j < |b.trace| && Denies(b.trace[j], k);
      assert c.trace[j] == b.trace[j];
    }
    if Denied(c.trace, |b.trace|, k) {
      var j :| |b.trace| <= j < |c.trace| && Denies(c.trace[j], k);
    }
  }

  /** A step that only forgets negative answers. */
  lemma ForgetfulIsAccounted(a: State, b: State, k: CacheModel.Key)
    requires a.trace <= b.trace && b.cache.negativeCache.Keys <= a.cache.negativeCache.Keys
    ensures Accounted(a, b, k)
  {
    hide Denied;
  }

  lemma LookupForgets(w: World, st: State, qname: Name, qtype: QueryType)
    ensures var (st', r) := CacheLookup(w, st, qname, qtype);
      && st'.trace == st.trace && st'.cache.negativeCache.Keys <= st.cache.negativeCache.Keys
      && (r == None ==> CacheKeys.MakeCacheKey(qname, qtype) !in st'.cache.negativeCache)
  {
    hide CacheKeys.MakeCacheKey, CacheModel.Live, CacheModel.Touched, CacheModel.Served, CacheModel.EraseNode;
  }

  lemma {:induction false} WalkForgets(w: World, st: State, domain: Name)
    ensures var st' := FindCachedNs(w, st, domain).0;
      st'.trace == st.trace && st'.cache.negativeCache == st.cache.negativeCache
    decreases |domain|
  {
    hide StringUtils.FirstDelim, CacheModel.LookupNSStep;
    CacheHistory.LookupNSLeavesOthers(st.cache, domain, w.clock(st.ticks));
    var (c, r) := CacheModel.LookupNSStep(st.cache, domain, w.clock(st.ticks));
    var dot := StringUtils.FirstDelim(domain, DOT);
    if !(r.Some? || dot == |domain|) { WalkForgets(w, Tick(st, c), domain[dot + 1..]); }
  }

  lemma {:induction false} ServerGlueForgets(w: World, st: State, ns: NameServer, resources: seq<DnsRecord>)
    ensures var st' := CacheServerGlue(w, st, ns, resources);
      st'.trace == st.trace && st'.cache.negativeCache == st.cache.negativeCache
    decreases |resources|
  {
    hide CacheModel.InsertNSStep;
    if resources != [] {
      var r := resources[0];
      if IsGlue(r, ns.1) {
        CacheHistory.InsertNSLeavesOthers(w.cfg, st.cache, ns.0, r.addr, r.ttl, w.clock(st.ticks));
        ServerGlueForgets(w, CacheAddress(w, st, ns.0, r), ns, resources[1..]);
      } else {
        ServerGlueForgets(w, st, ns, resources[1..]);
      }
    }
  }

  lemma {:induction false} GlueForgets(w: World, st: State, servers: seq<NameServer>, resources: seq<DnsRecord>)
    ensures var st' := CacheGlue(w, st, servers, resources);
      st'.trace == st.trace && st'.cache.negativeCache == st.cache.negativeCache
    decreases |servers|
  {
    hide CacheServerGlue;
    if servers != [] {
      ServerGlueForgets(w, st, servers[0], resources);
      GlueForgets(w, CacheServerGlue(w, st, servers[0], resources), servers[1..], resources);
    }
  }

  predicate BringsReply(e: Event, q: Query, p: Packet) { e.Sent? && e.query == q && e.reply == Response(p) }

  lemma {:induction false} RetryKeepsCache(w: World, st: State, q: Query, depth: nat, attempt: nat)
    ensures var (st', r) := Retry(w, st, q, depth, attempt);
      && st'.cache == st.cache && st'.ticks == st.ticks && st.trace <= st'.trace
      && (r.Got? ==> st.trace < st'.trace && BringsReply(st'.trace[|st'.trace| - 1], q, r.packet))
    decreases w.maxRetries - attempt
  {
    if attempt < w.maxRetries && w.net(st.sent, q) == Timeout && attempt != w.maxRetries - 1 {
      RetryKeepsCache(w, Send(w, st, q, depth, attempt), q, depth, attempt + 1);
    }
  }

  /** Concluding with a denial leaves a negative answer, and the reply that denied. */
  lemma ConcludeAccounted(w: World, st: State, st1: State, qname: Name, qtype: QueryType, p: Packet, k: CacheModel.Key)
    requires Final(p) && Accounted(st, st1, k) && st.trace < st1.trace
    requires var e := st1.trace[|st1.trace| - 1];
      e.Sent? && e.query.qname == qname && e.query.qtype == qtype && e.reply == Response(p)
    ensures Accounted(st, Conclude(w, st1, qname, qtype, p), k)
  {
    hide CacheKeys.MakeCacheKey, CacheModel.InsertStep;
    var key := CacheKeys.MakeCacheKey(qname, qtype);
    CacheHistory.InsertLeavesOthers(w.cfg, st1.cache, key, p.answers, w.clock(st1.ticks));
    if key == k && !(p.answers != [] && p.header.rescode == NOERROR) {
      assert Denies(st1.trace[|st1.trace| - 1], k);
    }
  }

  lemma {:induction false} ResolveAccounted(w: World, st: State, qname: Name, qtype: QueryType, depth: nat, limit: nat,
    k: CacheModel.Key)
    ensures Accounted(st, Resolve(w, st, qname, qtype, depth, limit).0, k)
    decreases DepthLeft(depth), 2, 0
  {
    hide CacheLookup, FindCachedNs, TryRoots, Accounted;
    ForgetfulIsAccounted(st, st, k);
    if qname !in st.visited {
      var st1 := Enter(st, qname, depth);
      ForgetfulIsAccounted(st, st1, k);
      if depth < MAX_RECURSION_DEPTH {
        LookedAccounted(w, st, qname, qtype, depth, k);
        var (st3, ns) := Looked(w, st, qname, qtype, depth);
        TryRootsAccounted(w, st3, qname, qtype, depth, limit, ns, 0, k);
        AccountedTrans(st, st3, TryRoots(w, st3, qname, qtype, depth, limit, ns, 0).0, k);
      }
    }
  }

  lemma LookedAccounted(w: World, st: State, qname: Name, qtype: QueryType, depth: nat, k: CacheModel.Key)
    ensures Accounted(st, CacheLookup(w, Enter(st, qname, depth), qname, qtype).0, k)
    ensures Accounted(st, Looked(w, st, qname, qtype, depth).0, k)
    ensures CacheLookup(w, Enter(st, qname, depth), qname, qtype).1 == None ==>
      CacheKeys.MakeCacheKey(qname, qtype) !in Looked(w, st, qname, qtype, depth).0.cache.negativeCache
    ensures Looked(w, st, qname, qtype, depth).0.trace == st.trace + [Entered(qname, depth)]
  {
    hide CacheLookup, FindCachedNs, Accounted, CacheKeys.MakeCacheKey;
    var st1 := Enter(st, qname, depth);
    var st2 := CacheLookup(w, st1, qname, qtype).0;
    LookupForgets(w, st1, qname, qtype);
    WalkForgets(w, st2, qname);
    ForgetfulIsAccounted(st, st2, k);
    ForgetfulIsAccounted(st, Looked(w, st, qname, qtype, depth).0, k);
  }

  lemma {:induction false} TryRootsAccounted(w: World, st: State, qname: Name, qtype: QueryType, depth: nat, limit: nat,
    start: Option<IPv4>, i: nat, k: CacheModel.Key)
    requires depth < MAX_RECURSION_DEPTH
    ensures Accounted(st, TryRoots(w, st, qname, qtype, depth, limit, start, i).0, k)
    decreases DepthLeft(depth), 1, |w.roots| - i
  {
    hide Follow, Accounted;
    ForgetfulIsAccounted(st, st, k);
    if i < |w.roots| {
      var server := if start.Some? then start.value else w.roots[i];
      FollowAccounted(w, st, qname, qtype, depth, limit, server, limit, k);
      var (st1, o) := Follow(w, st, qname, qtype, depth, limit, server, limit);
      if o.GaveUp? {
        TryRootsAccounted(w, st1, qname, qtype, depth, limit, None, i + 1, k);
        AccountedTrans(st, st1, TryRoots(w, st1, qname, qtype, depth, limit, None, i + 1).0, k);
      }
    }
  }

  lemma {:induction false} FollowAccounted(w: World, st: State, qname: Name, qtype: QueryType, depth: nat, limit: nat,
    server: IPv4, patience: nat, k: CacheModel.Key)
    requires depth < MAX_RECURSION_DEPTH
    ensures Accounted(st, Follow(w, st, qname, qtype, depth, limit, server, patience).0, k)
    decreases DepthLeft(depth), 0, patience, 0
  {
    hide Retry, FollowOn, Conclude, CacheGlue, Final, NsOf, Accounted;
    ForgetfulIsAccounted(st, st, k);
    if patience > 0 {
      var q := Query(qname, qtype, server);
      var (st1, r) := Retry(w, st, q, depth, 0);
      RetryKeepsCache(w, st, q, depth, 0);
      ForgetfulIsAccounted(st, st1, k);
      if r.Got? {
        var p := r.packet;
        if Final(p) {
          ConcludeAccounted(w, st, st1, qname, qtype, p, k);
        } else {
          var st2 := CacheGlue(w, st1, NsOf(p.authorities, qname), p.resources);
          GlueForgets(w, st1, NsOf(p.authorities, qname), p.resources);
          ForgetfulIsAccounted(st, st2, k);
          FollowOnAccounted(w, st2, qname, qtype, depth, limit, p, patience - 1, k);
          AccountedTrans(st, st2, FollowOn(w, st2, qname, qtype, depth, limit, p, patience - 1).0, k);
        }
      }
    }
  }

  lemma {:induction false} FollowOnAccounted(w: World, st: State, qname: Name, qtype: QueryType, depth: nat, limit: nat,
    p: Packet, patience: nat, k: CacheModel.Key)
    requires depth < MAX_RECURSION_DEPTH
    ensures Accounted(st, FollowOn(w, st, qname, qtype, depth, limit, p, patience).0, k)
    decreases DepthLeft(depth), 0, patience, 1
  {
    hide Follow, Resolve, ResolvedNs, UnresolvedNs, FirstA, Accounted;
    ForgetfulIsAccounted(st, st, k);
    var resolved, unresolved := ResolvedNs(p, qname), UnresolvedNs(p, qname);
    if resolved.Some? {
      FollowAccounted(w, st, qname, qtype, depth, limit, resolved.value, patience, k);
    } else if unresolved.Some? {
      var (st1, o) := Resolve(w, st, unresolved.value, A, depth + 1, limit);
      ResolveAccounted(w, st, unresolved.value, A, depth + 1, limit, k);
      if o.Returned? && FirstA(o.packet.answers).Some? {
        var ip := FirstA(o.packet.answers).value;
        FollowAccounted(w, st1, qname, qtype, depth, limit, ip, patience, k);
        AccountedTrans(st, st1, Follow(w, st1, qname, qtype, depth, limit, ip, patience).0, k);
      }
    }
  }

  // ----- a search ends by caching what it returns -----

  /** `st'` is `st0` with the returned packet cached, and what led from `st` to `st0` is accounted for. */
  ghost predicate EndsCaching(w: World, st: State, st0: State, st': State, qname: Name, qtype: QueryType, p: Packet) {
    && Final(p) && st' == Conclude(w, st0, qname, qtype, p)
    && Accounted(st, st0, CacheKeys.MakeCacheKey(qname, qtype))
  }

  lemma EndsCachingFrom(w: World, a: State, st: State, st0: State, st': State, qname: Name, qtype: QueryType, p: Packet)
    requires Accounted(a, st, CacheKeys.MakeCacheKey(qname, qtype)) && EndsCaching(w, st, st0, st', qname, qtype, p)
    ensures EndsCaching(w, a, st0, st', qname, qtype, p)
  {
    hide Accounted, Final, Conclude;
    AccountedTrans(a, st, st0, CacheKeys.MakeCacheKey(qname, qtype));
  }

  lemma {:induction false} FollowEndsCaching(w: World, st: State, qname: Name, qtype: QueryType, depth: nat, limit: nat,
    server: IPv4, patience: nat, p: Packet) returns (st0: State)
    requires depth < MAX_RECURSION_DEPTH && Final(p)
    requires Follow(w, st, qname, qtype, depth, limit, server, patience).1 == Done(Returned(p))
    ensures EndsCaching(w, st, st0, Follow(w, st, qname, qtype, depth, limit, server, patience).0, qname, qtype, p)
    decreases patience, 1
  {
    hide Retry, FollowOn, Conclude, CacheGlue, Final, NsOf, Accounted;
    var k := CacheKeys.MakeCacheKey(qname, qtype);
    var q := Query(qname, qtype, server);
    var (st1, r) := Retry(w, st, q, depth, 0);
    RetryKeepsCache(w, st, q, depth, 0);
    ForgetfulIsAccounted(st, st1, k);
    st0 := st1;
    if !Final(r.packet) {
      var st2 := CacheGlue(w, st1, NsOf(r.packet.authorities, qname), r.packet.resources);
      GlueForgets(w, st1, NsOf(r.packet.authorities, qname), r.packet.resources);
      ForgetfulIsAccounted(st, st2, k);
      st0 := FollowOnEndsCaching(w, st2, qname, qtype, depth, limit, r.packet, patience - 1, p);
      EndsCachingFrom(w, st, st2, st0, FollowOn(w, st2, qname, qtype, depth, limit, r.packet, patience - 1).0,
        qname, qtype, p);
    }
  }

  lemma {:induction false} FollowOnEndsCaching(w: World, st: State, qname: Name, qtype: QueryType, depth: nat,
    limit: nat, referral: Packet, patience: nat, p: Packet) returns (st0: State)
    requires depth < MAX_RECURSION_DEPTH && Final(p) && !Final(referral)
    requires FollowOn(w, st, qname, qtype, depth, limit, referral, patience).1 == Done(Returned(p))
    ensures EndsCaching(w, st, st0, FollowOn(w, st, qname, qtype, depth, limit, referral, patience).0, qname, qtype, p)
    decreases patience, 2
  {
    hide Follow, Resolve, ResolvedNs, UnresolvedNs, FirstA, Accounted, Final;
    var resolved, unresolved := ResolvedNs(referral, qname), UnresolvedNs(referral, qname);
    if resolved.Some? {
      st0 := FollowEndsCaching(w, st, qname, qtype, depth, limit, resolved.value, patience, p);
    } else {
      var (st1, o) := Resolve(w, st, unresolved.value, A, depth + 1, limit);
      ResolveAccounted(w, st, unresolved.value, A, depth + 1, limit, CacheKeys.MakeCacheKey(qname, qtype));
      var ip := FirstA(o.packet.answers).value;
      st0 := FollowEndsCaching(w, st1, qname, qtype, depth, limit, ip, patience, p);
      EndsCachingFrom(w, st, st1, st0, Follow(w, st1, qname, qtype, depth, limit, ip, patience).0, qname, qtype, p);
    }
  }

  lemma {:induction false} TryRootsEndsCaching(w: World, st: State, qname: Name, qtype: QueryType, depth: nat,
    limit: nat, start: Option<IPv4>, i: nat, p: Packet) returns (st0: State)
    requires depth < MAX_RECURSION_DEPTH && Final(p)
    requires TryRoots(w, st, qname, qtype, depth, limit, start, i).1 == Returned(p)
    ensures EndsCaching(w, st, st0, TryRoots(w, st, qname, qtype, depth, limit, start, i).0, qname, qtype, p)
    decreases |w.roots| - i
  {
    hide Follow, EndsCaching, Final;
    var server := if start.Some? then start.value else w.roots[i];
    var (st1, f) := Follow(w, st, qname, qtype, depth, limit, server, limit);
    if f.GaveUp? {
      FollowAccounted(w, st, qname, qtype, depth, limit, server, limit, CacheKeys.MakeCacheKey(qname, qtype));
      st0 := TryRootsEndsCaching(w, st1, qname, qtype, depth, limit, None, i + 1, p);
      EndsCachingFrom(w, st, st1, st0, TryRoots(w, st1, qname, qtype, depth, limit, None, i + 1).0, qname, qtype, p);
    } else {
      st0 := FollowEndsCaching(w, st, qname, qtype, depth, limit, server, limit, p);
    }
  }

  /** A search the cache did not answer, that returned `p` and ended in `st1`. */
  predicate FirstSearch(w: World, st: State, qname: Name, qtype: QueryType, depth: nat, limit: nat, st1: State,
    p: Packet)
  {
    && Unanswered(w, st, qname, qtype, depth) && EndsSearch(p)
    && Resolve(w, st, qname, qtype, depth, limit) == (st1, Returned(p))
  }

  lemma FirstSearchCaches(w: World, st: State, qname: Name, qtype: QueryType, depth: nat, limit: nat, st1: State,
    p: Packet) returns (st0: State)
    requires FirstSearch(w, st, qname, qtype, depth, limit, st1, p)
    ensures Final(p) && st1 == Conclude(w, st0, qname, qtype, p)
    ensures CacheKeys.MakeCacheKey(qname, qtype) in st0.cache.negativeCache ==>
      Denied(st1.trace, |st.trace|, CacheKeys.MakeCacheKey(qname, qtype))
  {
    hide CacheLookup, FindCachedNs, TryRoots, Conclude;
    var k := CacheKeys.MakeCacheKey(qname, qtype);
    var (st3, ns) := Looked(w, st, qname, qtype, depth);
    LookedAccounted(w, st, qname, qtype, depth, k);
    st0 := TryRootsEndsCaching(w, st3, qname, qtype, depth, limit, ns, 0, p);
    ConcludeKeepsTrace(w, st0, qname, qtype, p);
    hide CacheKeys.MakeCacheKey, Denies;
    if k in st0.cache.negativeCache {
      var j :| |st3.trace| <= j < |st0.trace| && Denies(st0.trace[j], k);
    }
  }

  lemma ConcludeKeepsTrace(w: World, st: State, qname: Name, qtype: QueryType, p: Packet)
    requires Final(p)
    ensures Conclude(w, st, qname, qtype, p).trace == st.trace
    ensures Conclude(w, st, qname, qtype, p).ticks == st.ticks + 1
  {
  }

  // ----- the second search -----

  /** An activation answered without a query: it returns a bare response with this code and these answers. */
  predicate AtOnce(w: World, st: State, qname: Name, qtype: QueryType, depth: nat, limit: nat, rescode: ResultCode,
    answers: seq<DnsRecord>)
  {
    var (st', o) := Resolve(w, st, qname, qtype, depth, limit);
    && st'.sent == st.sent && st'.trace == st.trace + [Entered(qname, depth)]
    && o.Returned? && o.packet.header.rescode == rescode && o.packet.answers == answers
    && o.packet.questions == [] && o.packet.authorities == [] && o.packet.resources == []
  }

  /** A search on the cache that `st1` left, made no earlier. */
  predicate OnSameCache(w: World, st1: State, st2: State, qname: Name, depth: nat) {
    && st2.cache == st1.cache && depth < MAX_RECURSION_DEPTH && qname !in st2.visited
    && st1.ticks > 0 && w.clock(st1.ticks - 1) <= w.clock(st2.ticks)
  }

  lemma CacheDecides(w: World, st: State, qname: Name, qtype: QueryType, depth: nat, limit: nat)
    requires depth < MAX_RECURSION_DEPTH && qname !in st.visited
    ensures var k, u := CacheKeys.MakeCacheKey(qname, qtype), w.clock(st.ticks);
      var live := CacheHistory.RecordsLive(st.cache, k, u);
      if CacheHistory.NegativeAt(st.cache, k, u) then AtOnce(w, st, qname, qtype, depth, limit, NXDOMAIN, [])
      else if live != [] then AtOnce(w, st, qname, qtype, depth, limit, NOERROR, live)
      else Unanswered(w, st, qname, qtype, depth)
  {
    hide CacheKeys.MakeCacheKey, CacheModel.LookupStep, CacheHistory.RecordsLive, CacheHistory.NegativeAt, TryRoots;
    CacheHistory.LookupAnswer(st.cache, CacheKeys.MakeCacheKey(qname, qtype), w.clock(st.ticks));
  }

  /** After a search that ended with NXDOMAIN or SERVFAIL a second one is answered NXDOMAIN, without answers and without
      a query, for 300 seconds, and no longer. */
  lemma DenialIsRepeated(w: World, st: State, qname: Name, qtype: QueryType, depth: nat, limit: nat, st1: State,
    p: Packet, st2: State, depth2: nat, limit2: nat)
    requires FirstSearch(w, st, qname, qtype, depth, limit, st1, p) && p.header.rescode != NOERROR
    requires OnSameCache(w, st1, st2, qname, depth2)
    ensures var live := CacheHistory.RecordsLive(st2.cache, CacheKeys.MakeCacheKey(qname, qtype), w.clock(st2.ticks));
      if w.clock(st2.ticks) < w.clock(st1.ticks - 1) + 300 * SECOND then
        AtOnce(w, st2, qname, qtype, depth2, limit2, NXDOMAIN, [])
      else if live != [] then AtOnce(w, st2, qname, qtype, depth2, limit2, NOERROR, live)
      else Unanswered(w, st2, qname, qtype, depth2)
  {
    hide AtOnce, Unanswered, CacheLookup, Resolve, CacheKeys.MakeCacheKey, CacheModel.InsertStep;
    var st0 := FirstSearchCaches(w, st, qname, qtype, depth, limit, st1, p);
    CacheDecides(w, st2, qname, qtype, depth2, limit2);
  }

  /** After a search that ended with answers, of which some could be stored, a second one is decided by the cache alone:
      while a negative answer stands it is NXDOMAIN; else it is those of the answers that survive, in order, with code
      NOERROR; and only if there are none left is the network asked again. A negative answer can stand only if, during
      the first search, a query for the same name up to case, and the same type, was denied. */
  lemma AnswersAreRepeated(w: World, st: State, qname: Name, qtype: QueryType, depth: nat, limit: nat, st1: State,
    p: Packet, st2: State, depth2: nat, limit2: nat) returns (answers: seq<DnsRecord>, at: seq<nat>)
    requires FirstSearch(w, st, qname, qtype, depth, limit, st1, p) && p.header.rescode == NOERROR
    requires exists i :: 0 <= i < |p.answers| && Storable(w.cfg, p.answers[i].ttl)
    requires OnSameCache(w, st1, st2, qname, depth2)
    ensures Survivors(w.cfg, p.answers, w.clock(st1.ticks - 1), w.clock(st2.ticks), answers, at)
    ensures var k := CacheKeys.MakeCacheKey(qname, qtype);
      && (if CacheHistory.NegativeAt(st1.cache, k, w.clock(st2.ticks)) then
            AtOnce(w, st2, qname, qtype, depth2, limit2, NXDOMAIN, [])
          else if answers != [] then AtOnce(w, st2, qname, qtype, depth2, limit2, NOERROR, answers)
          else Unanswered(w, st2, qname, qtype, depth2))
      && (CacheHistory.NegativeAt(st1.cache, k, w.clock(st2.ticks)) ==> Denied(st1.trace, |st.trace|, k))
  {
    hide AtOnce, Unanswered, CacheLookup, Resolve, Survivors, Storable, Denied, CacheKeys.MakeCacheKey,
      CacheModel.InsertStep, CacheModel.Kept, CacheModel.Live, CacheModel.Served;
    var t, u := w.clock(st1.ticks - 1), w.clock(st2.ticks);
    var st0 := FirstSearchCaches(w, st, qname, qtype, depth, limit, st1, p);
    at := ServedAreSurvivors(w.cfg, p.answers, t, u);
    answers := CacheModel.Served(CacheModel.Live(CacheModel.Kept(w.cfg, p.answers, t), u), u);
    var call := Call(CacheHistory.Insert(qname, qtype, p.answers), t);
    KeptMeans(w.cfg, p.answers, t);
    CacheHistory.RecordsAfterInsert(w.cfg, st0.cache, call, CacheKeys.MakeCacheKey(qname, qtype), u);
    CacheHistory.InsertLeavesOthers(w.cfg, st0.cache, CacheKeys.MakeCacheKey(qname, qtype), p.answers, t);
    CacheDecides(w, st2, qname, qtype, depth2, limit2);
  }

  lemma {:induction false} KeptMeans(cfg: CacheModel.Config, records: seq<DnsRecord>, now: int)
    ensures CacheModel.Kept(cfg, records, now) != [] <==>
      exists i :: 0 <= i < |records| && Storable(cfg, records[i].ttl)
  {
    if records != [] {
      var rest := records[1..];
      KeptMeans(cfg, rest, now);
      EnforcedExactly(cfg, records[0].ttl);
      hide Storable, CacheModel.EnforceTTLBounds;
      if i :| 0 <= i < |rest| && Storable(cfg, rest[i].ttl) { assert records[i + 1] == rest[i]; }
      if i :| 0 <= i < |records| && Storable(cfg, records[i].ttl) {
        if i > 0 { assert records[i] == rest[i - 1]; }
      }
    }
  }

  /** A name met again, or a chain ten deep, is refused with SERVFAIL, without answers and without a query. */
  lemma RefusedAtOnce(w: World, st: State, qname: Name, qtype: QueryType, depth: nat, limit: nat)
    requires qname in st.visited || depth >= 10
    ensures var (st', o) := Resolve(w, st, qname, qtype, depth, limit);
      && st'.sent == st.sent && st'.cache == st.cache
      && o.Returned? && o.packet.header.rescode == SERVFAIL
      && o.packet.questions == [] && o.packet.answers == [] && o.packet.authorities == [] && o.packet.resources == []
  {
  }

  // ----- a denial that hides later answers -----

  const LOWER: Name := [97]
  const UPPER: Name := [65]
  const ROOT: IPv4 := [1, 1, 1, 1]
  const OTHER: IPv4 := [2, 2, 2, 2]

  const REFERRAL: Packet := Packet(NEW_HEADER, [], [], [NSRecord(LOWER, UPPER, 100)], [])
  const DENIAL: Packet := Answering(NXDOMAIN, [ARecord(UPPER, OTHER, 100)])
  const ANSWER: Packet := Answering(NOERROR, [ARecord(LOWER, OTHER, 100)])

  /** The root server refers `a` to the host `A`, and denies `A` while giving its address; the server there answers. */
  function VariantReply(q: Query): Packet {
    if q.server == OTHER then ANSWER else if q.qname == UPPER then DENIAL else REFERRAL
  }

  const VARIANT: World :=
    World((n, q) => Response(VariantReply(q)), n => 0, [ROOT], 1, CacheModel.Config(1, 1000))

  predicate Blank(c: CacheModel.State) { c.cache == map[] && c.nsCache == map[] && c.negativeCache == map[] }

  lemma BlankLooked(st: State, qname: Name, depth: nat)
    requires Blank(st.cache) && |qname| == 1 && qname[0] != DOT && qname !in st.visited && depth < MAX_RECURSION_DEPTH
    ensures Unanswered(VARIANT, st, qname, A, depth)
    ensures var (st', ns) := Looked(VARIANT, st, qname, A, depth);
      ns == None && Blank(st'.cache) && st'.visited == st.visited + {qname}
  {
    hide CacheKeys.MakeCacheKey;
  }

  /** The query for `A` is denied, and that is cached. */
  lemma VariantDenied(st: State, limit: nat)
    requires Blank(st.cache) && UPPER !in st.visited && limit > 0
    ensures var (st', o) := Resolve(VARIANT, st, UPPER, A, 1, limit);
      && o == Returned(DENIAL)
      && CacheHistory.NegativeAt(st'.cache, CacheKeys.MakeCacheKey(UPPER, A), 0)
  {
    hide CacheLookup, FindCachedNs, FollowOn, CacheGlue, Enter, CacheKeys.MakeCacheKey;
    BlankLooked(st, UPPER, 1);
    var (st3, ns) := Looked(VARIANT, st, UPPER, A, 1);
    assert Retry(VARIANT, st3, Query(UPPER, A, ROOT), 1, 0)
      == (Send(VARIANT, st3, Query(UPPER, A, ROOT), 1, 0), Got(DENIAL));
  }

  /** The question for `a` leads to the hop to `A`. */
  lemma VariantReferred(st: State, limit: nat, patience: nat)
    requires patience > 0
    ensures Follow(VARIANT, st, LOWER, A, 0, limit, ROOT, patience)
      == FollowOn(VARIANT, Send(VARIANT, st, Query(LOWER, A, ROOT), 0, 0), LOWER, A, 0, limit, REFERRAL, patience - 1)
  {
    hide FollowOn;
    var st1 := Send(VARIANT, st, Query(LOWER, A, ROOT), 0, 0);
    assert Retry(VARIANT, st, Query(LOWER, A, ROOT), 0, 0) == (st1, Got(REFERRAL));
    ReferralServer();
    assert CacheGlue(VARIANT, st1, [(LOWER, UPPER)], []) == st1;
  }

  lemma ReferralServer()
    ensures NsOf(REFERRAL.authorities, LOWER) == [(LOWER, UPPER)]
    ensures ResolvedNs(REFERRAL, LOWER) == None && UnresolvedNs(REFERRAL, LOWER) == Some(UPPER)
  {
    var a := REFERRAL.authorities;
    assert a[1..] == [] && NsOf([], LOWER) == [];
    assert LOWER[|LOWER| - |LOWER|..] == LOWER && Delegates(a[0], LOWER);
    assert [(LOWER, UPPER)][1..] == [] && FirstGlue([], []) == None;
  }

  /** The address that came with the denial is asked next. */
  lemma VariantHop(st: State, limit: nat, patience: nat)
    requires Resolve(VARIANT, st, UPPER, A, 1, limit).1 == Returned(DENIAL)
    ensures FollowOn(VARIANT, st, LOWER, A, 0, limit, REFERRAL, patience)
      == Follow(VARIANT, Resolve(VARIANT, st, UPPER, A, 1, limit).0, LOWER, A, 0, limit, OTHER, patience)
  {
    hide Resolve, Follow, ResolvedNs, UnresolvedNs;
    ReferralServer();
    assert FirstA(DENIAL.answers) == Some(OTHER);
  }

  /** The server there answers. */
  lemma VariantAnswered(st: State, limit: nat, patience: nat)
    requires patience > 0
    ensures var (st', o) := Follow(VARIANT, st, LOWER, A, 0, limit, OTHER, patience);
      o == Done(Returned(ANSWER)) && st'.cache.negativeCache == st.cache.negativeCache
  {
    hide FollowOn, Conclude;
    var st1 := Send(VARIANT, st, Query(LOWER, A, OTHER), 0, 0);
    assert Retry(VARIANT, st, Query(LOWER, A, OTHER), 0, 0) == (st1, Got(ANSWER));
    AnswerKeepsDenials(VARIANT, st1, LOWER, A, ANSWER);
  }

  lemma VariantSearch(limit: nat)
    requires limit >= 2
    ensures var st := State(CacheModel.EMPTY, {}, 0, 0, []);
      var st' := Resolve(VARIANT, st, LOWER, A, 0, limit).0;
      && FirstSearch(VARIANT, st, LOWER, A, 0, limit, st', ANSWER)
      && CacheHistory.NegativeAt(st'.cache, CacheKeys.MakeCacheKey(LOWER, A), 0)
  {
    hide CacheLookup, FindCachedNs, Follow, FollowOn, Enter, CacheKeys.MakeCacheKey, CacheHistory.NegativeAt, Blank;
    var st := State(CacheModel.EMPTY, {}, 0, 0, []);
    EmptyIsBlank();
    BlankLooked(st, LOWER, 0);
    var st3 := Looked(VARIANT, st, LOWER, A, 0).0;
    var st4 := Send(VARIANT, st3, Query(LOWER, A, ROOT), 0, 0);
    VariantReferred(st3, limit, limit);
    VariantDenied(st4, limit);
    VariantHop(st4, limit, limit - 1);
    var st5 := Resolve(VARIANT, st4, UPPER, A, 1, limit).0;
    VariantAnswered(st5, limit, limit - 1);
    var st' := Follow(VARIANT, st5, LOWER, A, 0, limit, OTHER, limit - 1).0;
    CacheKeys.KeysCollideOnlyWhenEqual(LOWER, A, UPPER, A);
    SameDenials(st5.cache, st'.cache, CacheKeys.MakeCacheKey(LOWER, A), 0);
  }

  lemma EmptyIsBlank()
    ensures Blank(CacheModel.EMPTY)
  {
  }

  /** So the second search is not answered from the answers of the first in every case: here they are cached and live,
      and it still returns NXDOMAIN. */
  lemma DenialHidesAnswers(st2: State, limit: nat, limit2: nat) returns (st: State, st1: State, left: u32)
    requires limit >= 2
    ensures FirstSearch(VARIANT, st, LOWER, A, 0, limit, st1, ANSWER)
    ensures Survives(VARIANT.cfg, ANSWER.answers[0].ttl, 0, 0, left)
    ensures OnSameCache(VARIANT, st1, st2, LOWER, 0) ==> AtOnce(VARIANT, st2, LOWER, A, 0, limit2, NXDOMAIN, [])
  {
    hide Resolve, Unanswered, AtOnce, CacheKeys.MakeCacheKey;
    VariantSearch(limit);
    st := State(CacheModel.EMPTY, {}, 0, 0, []);
    st1 := Resolve(VARIANT, st, LOWER, A, 0, limit).0;
    left := 100;
    assert MovedInto(VARIANT.cfg, 100, 100);
    if OnSameCache(VARIANT, st1, st2, LOWER, 0) { CacheDecides(VARIANT, st2, LOWER, A, 0, limit2); }
  }

  lemma SameDenials(c: CacheModel.State, c': CacheModel.State, k: CacheModel.Key, u: int)
    requires c'.negativeCache == c.negativeCache
    ensures CacheHistory.NegativeAt(c', k, u) <==> CacheHistory.NegativeAt(c, k, u)
  {
  }

  lemma AnswerKeepsDenials(w: World, st: State, qname: Name, qtype: QueryType, p: Packet)
    requires p.answers != [] && p.header.rescode == NOERROR
    ensures Conclude(w, st, qname, qtype, p).cache.negativeCache == st.cache.negativeCache
  {
    hide CacheModel.InsertStep, CacheKeys.MakeCacheKey;
    CacheHistory.InsertLeavesOthers(w.cfg, st.cache, CacheKeys.MakeCacheKey(qname, qtype), p.answers,
      w.clock(st.ticks));
  }
}

/** lib/Core.hpp and lib/RetryPolicy.hpp: the resolver with its shared visited set and cache, updated in place.
    Each method performs the step `ResolverModel` describes. */
module ResolverObject {
  import opened Bytes
  import opened StringUtils
  import opened QueryTypes
  import opened DnsRecords
  import opened PacketWire
  import opened Referrals
  import opened ResolverModel
  import opened ResolverTheorems
  import opened ResolverEnds
  import CacheModel
  import CacheKeys
  import DnsCacheObject

  class Resolver {
    const world: World
    const cache: DnsCacheObject.DnsCache
    var visited: set<Name>
    var ticks: nat
    var sent: nat
    ghost var trace: seq<Event>

    ghost function Abs(): State
      reads this, cache
    {
      State(cache.Abs(), visited, ticks, sent, trace)
    }

    ghost predicate Valid()
      reads this, cache
    {
      cache.cfg == world.cfg && Good(world, Abs())
    }

    constructor (w: World, c: DnsCacheObject.DnsCache)
      requires c.Valid() && |c.cache| <= CacheModel.MAX_ENTRIES && c.cfg == w.cfg
      ensures Valid() && world == w && cache == c && visited == {} && trace == []
    {
      world, cache := w, c;
      visited, ticks, sent, trace := {}, 0, 0, [];
    }

    // ----- the clock -----

    method Now() returns (now: int)
      modifies this`ticks
      ensures now == world.clock(old(ticks)) && ticks == old(ticks) + 1
    {
      now := world.clock(ticks);
      ticks := ticks + 1;
    }

    // ----- retries -----

    method SendQuery(q: Query, ghost depth: nat, ghost attempt: nat) returns (reply: Reply)
      modifies this`sent, this`trace
      ensures reply == world.net(old(sent), q) && Abs() == Send(world, old(Abs()), q, depth, attempt)
    {
      reply := world.net(sent, q);
      sent := sent + 1;
      trace := trace + [Sent(q, depth, attempt, reply)];
    }

    method ExecuteWithRetry(q: Query, ghost depth: nat) returns (r: RetryOutcome)
      modifies this`sent, this`trace
      ensures (Abs(), r) == Retry(world, old(Abs()), q, depth, 0)
    {
      var attempt := 0;
      while attempt < world.maxRetries
        invariant attempt >= 0 && Retry(world, Abs(), q, depth, attempt) == Retry(world, old(Abs()), q, depth, 0)
        decreases world.maxRetries - attempt
      {
        var reply := SendQuery(q, depth, attempt);
        match reply {
          case Response(p) => return Got(p);
          case Failure => return Failed;
          case Timeout => if attempt == world.maxRetries - 1 { return TimedOut; }
        }
        attempt := attempt + 1;
      }
      r := NotTried;
    }

    // ----- cache side -----

    /** The walk to the longest parent with a cached name server. */
    method FindCachedNsInPlace(qname: Name) returns (ns: Option<IPv4>)
      requires cache.Valid()
      modifies this`ticks, cache
      ensures cache.Valid()
      ensures (Abs(), ns) == FindCachedNs(world, old(Abs()), qname)
    {
      hide CacheModel.LookupNSStep, CacheModel.LruOk;
      var domain := qname;
      ghost var goal := FindCachedNs(world, Abs(), domain);
      while true
        invariant cache.Valid() && FindCachedNs(world, Abs(), domain) == goal
        invariant visited == old(visited) && sent == old(sent) && trace == old(trace)
        decreases |domain|
      {
        var now := Now();
        ns := cache.LookupNS(domain, now);
        if ns.Some? { return; }
        var dot := FirstDelim(domain, DOT);
        if dot == |domain| { return; }
        domain := domain[dot + 1..];
      }
    }

    /** The two nested loops that cache glue addresses. */
    method CacheGlueInPlace(servers: seq<NameServer>, resources: seq<DnsRecord>)
      requires cache.Valid() && cache.cfg == world.cfg
      modifies this`ticks, cache
      ensures cache.Valid()
      ensures Abs() == CacheGlue(world, old(Abs()), servers, resources)
    {
      hide CacheServerGlue, CacheModel.LruOk;
      ghost var goal := CacheGlue(world, Abs(), servers, resources);
      assert servers[0..] == servers;
      for i := 0 to |servers|
        invariant cache.Valid() && CacheGlue(world, Abs(), servers[i..], resources) == goal
        invariant visited == old(visited) && sent == old(sent) && trace == old(trace)
      {
        assert servers[i..][1..] == servers[i + 1..];
        CacheServerGlueInPlace(servers[i], resources);
      }
    }

    method CacheServerGlueInPlace(ns: NameServer, resources: seq<DnsRecord>)
      requires cache.Valid() && cache.cfg == world.cfg
      modifies this`ticks, cache
      ensures cache.Valid()
      ensures Abs() == CacheServerGlue(world, old(Abs()), ns, resources)
    {
      hide CacheModel.InsertNSStep, CacheModel.LruOk;
      ghost var goal := CacheServerGlue(world, Abs(), ns, resources);
      assert resources[0..] == resources;
      for j := 0 to |resources|
        invariant cache.Valid() && CacheServerGlue(world, Abs(), ns, resources[j..]) == goal
        invariant visited == old(visited) && sent == old(sent) && trace == old(trace)
      {
        assert resources[j..][1..] == resources[j + 1..];
        if resources[j].ARecord? && resources[j].domain == ns.1 {
          var now := Now();
          cache.InsertNS(ns.0, resources[j].addr, resources[j].ttl, now);
        }
      }
    }

    method ConcludeInPlace(qname: Name, qtype: QueryType, p: Packet)
      requires cache.Valid() && cache.cfg == world.cfg && Final(p)
      modifies this`ticks, cache
      ensures cache.Valid()
      ensures Abs() == Conclude(world, old(Abs()), qname, qtype, p)
    {
      hide CacheModel.InsertStep, CacheModel.InsertNegativeStep, CacheModel.LruOk, CacheKeys.MakeCacheKey;
      var now := Now();
      if p.answers != [] && p.header.rescode == NOERROR {
        cache.Insert(qname, qtype, p.answers, now);
      } else {
        cache.InsertNegative(qname, qtype, p.header.rescode, 300, now);
      }
    }

    // ----- resolution -----

    /** The call from outside: it starts with no name visited. If the unbounded search has an end, this is it. */
    method Search(qname: Name, qtype: QueryType) returns (o: Outcome)
      requires Valid() && HasEnd(world, Afresh(), qname, qtype, 0)
      modifies this`visited, this`ticks, this`sent, this`trace, cache
      ensures Valid()
      ensures Settles(world, old(Afresh()), qname, qtype, 0, Abs(), o)
      ensures DistinctNames(trace) && forall e :: e in trace && e.Sent? ==> e.depth < MAX_RECURSION_DEPTH
    {
      StartingAfresh(Abs());
      visited, trace := {}, [];
      ghost var st := Abs();
      assert st == old(Afresh());
      hide Good, Resolve;
      ghost var st', o' :| Settles(world, st, qname, qtype, 0, st', o');
      ghost var limit: nat :| Resolve(world, st, qname, qtype, 0, limit) == (st', o');
      o := RecursiveLookup(qname, qtype, 0, limit);
      KeepsNamesApart(Abs());
    }

    /** The resolver as a search from outside finds it. */
    ghost function Afresh(): State
      reads this, cache
    {
      Abs().(visited := {}, trace := [])
    }

    lemma StartingAfresh(st: State)
      requires Good(world, st)
      ensures Good(world, st.(visited := {}, trace := []))
    {
    }

    lemma KeepsNamesApart(st: State)
      requires Good(world, st)
      ensures DistinctNames(st.trace) && forall e :: e in st.trace && e.Sent? ==> e.depth < MAX_RECURSION_DEPTH
    {
    }

    // The loops below have no bound, as in the source. `limit` is ghost: some number of turns that is enough for every
    // referral loop of a search that ends.

    method RecursiveLookup(qname: Name, qtype: QueryType, depth: nat, ghost limit: nat) returns (o: Outcome)
      requires Valid() && Resolve(world, Abs(), qname, qtype, depth, limit).1 != Threw(OutOfPatience)
      modifies this`visited, this`ticks, this`sent, this`trace, cache
      ensures Valid()
      ensures (Abs(), o) == Resolve(world, old(Abs()), qname, qtype, depth, limit)
      decreases DepthLeft(depth), 2, 0
    {
      ghost var st := Abs();
      EnterGood(st, qname, depth);
      hide Good, Quiet, TryRoots, FindCachedNs, CacheLookup, CacheModel.LruOk;
      if qname in visited { return Returned(SERVFAIL_RESPONSE); }
      MarkVisited(qname, depth);
      if depth >= MAX_RECURSION_DEPTH { return Returned(SERVFAIL_RESPONSE); }
      ghost var st1 := Abs();
      LookupIsQuiet(world, st1, qname, qtype);
      QuietIsGood(world, st1, CacheLookup(world, st1, qname, qtype).0, depth);
      var cached := CacheLookupInPlace(qname, qtype);
      if cached.Some? { return Returned(CachedResponse(cached.value)); }
      ghost var st2 := Abs();
      FindCachedNsIsQuiet(world, st2, qname);
      QuietIsGood(world, st2, FindCachedNs(world, st2, qname).0, depth);
      GoodCache(st2);
      var ns := FindCachedNsInPlace(qname);
      o := RootLoop(qname, qtype, depth, limit, ns);
    }

    method MarkVisited(qname: Name, ghost depth: nat)
      modifies this`visited, this`trace
      ensures Abs() == Enter(old(Abs()), qname, depth)
    {
      visited := visited + {qname};
      trace := trace + [Entered(qname, depth)];
    }

    method CacheLookupInPlace(qname: Name, qtype: QueryType) returns (r: Option<seq<DnsRecord>>)
      requires cache.Valid()
      modifies this`ticks, cache
      ensures cache.Valid()
      ensures (Abs(), r) == CacheLookup(world, old(Abs()), qname, qtype)
    {
      hide CacheModel.LookupStep, CacheModel.LruOk, CacheKeys.MakeCacheKey;
      var now := Now();
      r := cache.Lookup(qname, qtype, now);
    }

    lemma EnterGood(st: State, qname: Name, depth: nat)
      requires Good(world, st)
      ensures CacheModel.LruOk(st.cache)
      ensures qname !in st.visited ==> Good(world, Enter(st, qname, depth))
    {
      if qname !in st.visited { EnterIsGood(world, st, qname, depth); }
    }

    /** The loop over the root servers. */
    method RootLoop(qname: Name, qtype: QueryType, depth: nat, ghost limit: nat, cachedNs: Option<IPv4>)
      returns (o: Outcome)
      requires Valid() && depth < MAX_RECURSION_DEPTH
      requires TryRoots(world, Abs(), qname, qtype, depth, limit, cachedNs, 0).1 != Threw(OutOfPatience)
      modifies this`visited, this`ticks, this`sent, this`trace, cache
      ensures Valid()
      ensures (Abs(), o) == TryRoots(world, old(Abs()), qname, qtype, depth, limit, cachedNs, 0)
      decreases DepthLeft(depth), 1, 0
    {
      hide Good, Follow;
      var ns := cachedNs;
      var prevNSTimedOut := false;
      ghost var goal := TryRoots(world, Abs(), qname, qtype, depth, limit, cachedNs, 0);
      for i := 0 to |world.roots|
        invariant Valid()
        invariant TryRoots(world, Abs(), qname, qtype, depth, limit, if prevNSTimedOut then None else ns, i) == goal
      {
        if ns.None? || prevNSTimedOut {
          ns := Some(world.roots[i]);
        }
        var f := ReferralLoop(qname, qtype, depth, limit, ns.value);
        if f.Done? { return f.outcome; }
        prevNSTimedOut := true;
      }
      o := Threw(AllRootsFailed(depth));
    }

    /** The referral loop. */
    method ReferralLoop(qname: Name, qtype: QueryType, depth: nat, ghost limit: nat, server: IPv4)
      returns (f: FollowOutcome)
      requires Valid() && depth < MAX_RECURSION_DEPTH
      requires Follow(world, Abs(), qname, qtype, depth, limit, server, limit).1 != Done(Threw(OutOfPatience))
      modifies this`visited, this`ticks, this`sent, this`trace, cache
      ensures Valid()
      ensures (Abs(), f) == Follow(world, old(Abs()), qname, qtype, depth, limit, server, limit)
      decreases DepthLeft(depth), 0, 1
    {
      hide Good, Quiet, FollowOn, Retry, Conclude, CacheGlue, Final, NsOf, ResolvedNs, UnresolvedNs, FirstA;
      ghost var goal := Follow(world, Abs(), qname, qtype, depth, limit, server, limit);
      var ns := server;
      ghost var patience := limit;
      while true
        invariant Valid()
        invariant Follow(world, Abs(), qname, qtype, depth, limit, ns, patience) == goal
        decreases patience
      {
        assert patience > 0;
        patience := patience - 1;
        var q := Query(qname, qtype, ns);
        ghost var st := Abs();
        RetryIsGood(world, st, q, depth, 0);
        var r := ExecuteWithRetry(q, depth);
        match r {
          case TimedOut => return GaveUp;
          case Failed => return Done(Threw(NetworkFailed));
          case NotTried => return Done(Threw(NoAttempts));
          case Got(response) =>
            var next;
            f, next := TakeIn(response, qname, qtype, depth, limit, patience);
            if next.None? { return; }
            ns := next.value;
        }
      }
    }

    /** What a turn does with the response: end the search, or learn the next server. */
    method TakeIn(p: Packet, qname: Name, qtype: QueryType, depth: nat, ghost limit: nat, ghost patience: nat)
      returns (f: FollowOutcome, next: Option<IPv4>)
      requires Valid() && depth < MAX_RECURSION_DEPTH
      requires !Final(p) ==>
        FollowOn(world, CacheGlue(world, Abs(), NsOf(p.authorities, qname), p.resources), qname, qtype, depth, limit, p,
          patience).1 != Done(Threw(OutOfPatience))
      modifies this`visited, this`ticks, this`sent, this`trace, cache
      ensures Valid()
      ensures Final(p) ==> next.None? && (Abs(), f) == (Conclude(world, old(Abs()), qname, qtype, p), Done(Returned(p)))
      ensures !Final(p) ==>
        FollowOn(world, CacheGlue(world, old(Abs()), NsOf(p.authorities, qname), p.resources), qname, qtype, depth,
          limit, p, patience)
        == if next.Some? then Follow(world, Abs(), qname, qtype, depth, limit, next.value, patience) else (Abs(), f)
      decreases DepthLeft(depth), 0, 0, 1
    {
      GoodCache(Abs());
      hide Good, Quiet, Follow, FollowOn, Conclude, CacheGlue, NsOf, CacheModel.LruOk;
      f, next := Done(Returned(p)), None;
      ghost var st := Abs();
      if Final(p) {
        ConcludeIsQuiet(world, st, qname, qtype, p);
        QuietIsGood(world, st, Conclude(world, st, qname, qtype, p), depth);
        ConcludeInPlace(qname, qtype, p);
        return;
      }
      var nameservers := GetNs(p, qname);
      GlueIsQuiet(world, st, nameservers, p.resources);
      QuietIsGood(world, st, CacheGlue(world, st, nameservers, p.resources), depth);
      CacheGlueInPlace(nameservers, p.resources);
      f, next := NextServer(p, qname, qtype, depth, limit, patience);
    }

    /** Where the referral leads: glue first, else the first server, resolved by name. */
    method NextServer(p: Packet, qname: Name, qtype: QueryType, depth: nat, ghost limit: nat, ghost patience: nat)
      returns (f: FollowOutcome, next: Option<IPv4>)
      requires Valid() && depth < MAX_RECURSION_DEPTH
      requires FollowOn(world, Abs(), qname, qtype, depth, limit, p, patience).1 != Done(Threw(OutOfPatience))
      modifies this`visited, this`ticks, this`sent, this`trace, cache
      ensures Valid()
      ensures FollowOn(world, old(Abs()), qname, qtype, depth, limit, p, patience)
        == if next.Some? then Follow(world, Abs(), qname, qtype, depth, limit, next.value, patience) else (Abs(), f)
      decreases DepthLeft(depth), 0, 0, 0
    {
      hide Good, Resolve, Follow, ResolvedNs, UnresolvedNs, FirstA;
      f := Done(Returned(p));
      next := GetResolvedNs(p, qname);
      if next.Some? { return; }
      var unresolvedNs := GetUnresolvedNs(p, qname);
      if unresolvedNs.None? { return; }
      var recursiveResponse := RecursiveLookup(unresolvedNs.value, A, depth + 1, limit);
      if recursiveResponse.Threw? { return Done(recursiveResponse), None; }
      next := GetRandomA(recursiveResponse.packet);
    }

    lemma GoodCache(st: State)
      requires Good(world, st)
      ensures CacheModel.LruOk(st.cache)
    {
    }
  }
}

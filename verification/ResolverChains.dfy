/** Exactly which networks let every search end: those without an endless chain of referrals with glue. Name hops, the
    loop over the root servers and the retries never keep a search from ending. */
module ResolverChains {
  import opened Bytes
  import opened QueryTypes
  import opened PacketWire
  import opened Referrals
  import opened ResolverModel
  import opened ResolverTheorems
  import opened ResolverOutcomes
  import opened ResolverBounds
  import opened ResolverEnds
  import CacheHistory
  import CacheKeys
  import CacheModel

  // ----- chains of glue -----

  /** One query with its retries: the number of queries sent by then, and the outcome. */
  function Ask(w: World, sent: nat, q: Query, attempt: nat): (nat, RetryOutcome)
    decreases w.maxRetries - attempt
  {
    if attempt >= w.maxRetries then (sent, NotTried)
    else match w.net(sent, q)
      case Response(p) => (sent + 1, Got(p))
      case Failure => (sent + 1, Failed)
      case Timeout => if attempt == w.maxRetries - 1 then (sent + 1, TimedOut) else Ask(w, sent + 1, q, attempt + 1)
  }

  /** The next query of a chain: that of the same question to the server whose address came along. */
  function GlueStep(w: World, sent: nat, q: Query): Option<(nat, Query)> {
    match Ask(w, sent, q, 0)
    case (sent', Got(p)) =>
      if !Final(p) && ResolvedNs(p, q.qname).Some? then
        Some((sent', Query(q.qname, q.qtype, ResolvedNs(p, q.qname).value)))
      else None
    case _ => None
  }

  /** What is asked after `k` steps of the chain that starts with `q` as the query after the first `sent`. */
  function GlueChain(w: World, sent: nat, q: Query, k: nat): Option<(nat, Query)>
    decreases k
  {
    if k == 0 then Some((sent, q))
    else match GlueStep(w, sent, q)
      case None => None
      case Some((sent', q')) => GlueChain(w, sent', q', k - 1)
  }

  ghost predicate Endless(w: World, sent: nat, q: Query) { forall k: nat :: GlueChain(w, sent, q, k).Some? }

  lemma {:induction false} RetryAsks(w: World, st: State, q: Query, depth: nat, attempt: nat)
    ensures var (st', r) := Retry(w, st, q, depth, attempt);
      (st'.sent, r) == Ask(w, st.sent, q, attempt) && st'.visited == st.visited
    decreases w.maxRetries - attempt
  {
    if attempt < w.maxRetries && w.net(st.sent, q) == Timeout && attempt != w.maxRetries - 1 {
      RetryAsks(w, Send(w, st, q, depth, attempt), q, depth, attempt + 1);
    }
  }

  lemma ChainSteps(w: World, sent: nat, q: Query, k: nat)
    ensures GlueChain(w, sent, q, 0).Some?
    ensures k > 0 && GlueStep(w, sent, q).None? ==> GlueChain(w, sent, q, k).None?
    ensures k > 0 && GlueStep(w, sent, q).Some? ==>
      var (sent', q') := GlueStep(w, sent, q).value;
      GlueChain(w, sent, q, k) == GlueChain(w, sent', q', k - 1)
  {
    hide GlueStep;
  }

  // ----- without an endless chain every search ends -----

  ghost predicate NoEndlessChain(w: World) { forall sent: nat, q: Query :: !Endless(w, sent, q) }

  /** The number of steps at which the chain from `q` has ended. */
  lemma ChainLength(w: World, sent: nat, q: Query) returns (k: nat)
    requires NoEndlessChain(w)
    ensures GlueChain(w, sent, q, k).None?
  {
    hide GlueChain;
    assert !Endless(w, sent, q);
    k :| GlueChain(w, sent, q, k).None?;
  }

  function Max(a: nat, b: nat): nat { if a <= b then b else a }

  lemma {:induction false} ResolveStops(w: World, st: State, qname: Name, qtype: QueryType, depth: nat,
    hosts: set<Name>) returns (limit: nat)
    requires Good(w, st) && NoEndlessChain(w) && NamesAmong(w, hosts)
    ensures Resolve(w, st, qname, qtype, depth, limit).1 != Threw(OutOfPatience)
    decreases DepthLeft(depth), 2, 0, 0, 0
  {
    hide Good, Grows, Quiet, CacheLookup, FindCachedNs, TryRoots, Enter, NoEndlessChain, NamesAmong;
    limit := 0;
    if qname !in st.visited && depth < MAX_RECURSION_DEPTH {
      var st1 := Enter(st, qname, depth);
      EnterIsGood(w, st, qname, depth);
      var st2 := CacheLookup(w, st1, qname, qtype).0;
      LookupIsQuiet(w, st1, qname, qtype);
      QuietIsGood(w, st1, st2, depth);
      var (st3, ns) := FindCachedNs(w, st2, qname);
      FindCachedNsIsQuiet(w, st2, qname);
      QuietIsGood(w, st2, st3, depth);
      limit := TryRootsStops(w, st3, qname, qtype, depth, ns, 0, hosts);
    }
  }

  lemma {:induction false} TryRootsStops(w: World, st: State, qname: Name, qtype: QueryType, depth: nat,
    start: Option<IPv4>, i: nat, hosts: set<Name>) returns (limit: nat)
    requires depth < MAX_RECURSION_DEPTH && Good(w, st) && NoEndlessChain(w) && NamesAmong(w, hosts)
    ensures TryRoots(w, st, qname, qtype, depth, limit, start, i).1 != Threw(OutOfPatience)
    decreases DepthLeft(depth), 1, |w.roots| - i, 0, 0
  {
    hide Good, Grows, Follow, NamesAmong, NoEndlessChain, GlueChain;
    limit := 0;
    if i < |w.roots| {
      var server := if start.Some? then start.value else w.roots[i];
      var k := ChainLength(w, st.sent, Query(qname, qtype, server));
      var l1 := FollowStops(w, st, Query(qname, qtype, server), depth, hosts, k);
      FollowIsGood(w, st, qname, qtype, depth, l1, server, l1);
      var (st1, o) := Follow(w, st, qname, qtype, depth, l1, server, l1);
      limit := l1;
      if o.GaveUp? {
        var l2 := TryRootsStops(w, st1, qname, qtype, depth, None, i + 1, hosts);
        limit := Max(l1, l2);
        FollowLimit(w, st, qname, qtype, depth, l1, limit, server, l1, limit);
        TryRootsLimit(w, st1, qname, qtype, depth, l2, limit, None, i + 1);
      }
    }
  }

  /** A referral loop ends by the number of hosts not hopped to yet, and then by the length of the chain of glue. */
  lemma {:induction false} FollowStops(w: World, st: State, q: Query, depth: nat, hosts: set<Name>, k: nat)
    returns (limit: nat)
    requires depth < MAX_RECURSION_DEPTH && Good(w, st) && NoEndlessChain(w) && NamesAmong(w, hosts)
    requires GlueChain(w, st.sent, q, k).None?
    ensures Follow(w, st, q.qname, q.qtype, depth, limit, q.server, limit).1 != Done(Threw(OutOfPatience))
    decreases DepthLeft(depth), 0, |hosts - st.visited|, k, 1
  {
    hide Good, Grows, Quiet, Retry, FollowOn, Conclude, CacheGlue, Final, NsOf, NoEndlessChain, NamesAmong, GlueChain,
      Ask;
    var (st1, r) := Retry(w, st, q, depth, 0);
    RetryIsGood(w, st, q, depth, 0);
    RetryAsks(w, st, q, depth, 0);
    assert Query(q.qname, q.qtype, q.server) == q;
    limit := 1;
    if r.Got? && !Final(r.packet) {
      var p := r.packet;
      var st2 := CacheGlue(w, st1, NsOf(p.authorities, q.qname), p.resources);
      GlueIsQuiet(w, st1, NsOf(p.authorities, q.qname), p.resources);
      QuietIsGood(w, st1, st2, depth);
      QuietVisited(st1, st2);
      QuietTrace(st1, st2);
      var l := FollowOnStops(w, st, st2, q, depth, hosts, p, k);
      FollowOnLimit(w, st2, q.qname, q.qtype, depth, l, l + 1, p, l, l);
      limit := l + 1;
    }
  }

  /** `st` asked `q` and got `p`, and `st2` has taken in its glue. */
  lemma {:induction false} FollowOnStops(w: World, st: State, st2: State, q: Query, depth: nat, hosts: set<Name>,
    p: Packet, k: nat) returns (limit: nat)
    requires depth < MAX_RECURSION_DEPTH && Good(w, st2) && NoEndlessChain(w) && NamesAmong(w, hosts)
    requires Ask(w, st.sent, q, 0) == (st2.sent, Got(p)) && !Final(p) && st2.visited == st.visited
    requires GlueChain(w, st.sent, q, k).None?
    ensures FollowOn(w, st2, q.qname, q.qtype, depth, limit, p, limit).1 != Done(Threw(OutOfPatience))
    decreases DepthLeft(depth), 0, |hosts - st.visited|, k, 0
  {
    hide Good, Grows, Follow, Resolve, ResolvedNs, UnresolvedNs, FirstA, Final, NamesAmong, NoEndlessChain, GlueChain,
      Ask;
    var qname, qtype := q.qname, q.qtype;
    var resolved, unresolved := ResolvedNs(p, qname), UnresolvedNs(p, qname);
    limit := 0;
    ChainSteps(w, st.sent, q, k);
    if resolved.Some? {
      limit := FollowStops(w, st2, Query(qname, qtype, resolved.value), depth, hosts, k - 1);
    } else if unresolved.Some? {
      var host := unresolved.value;
      AskedByName(w, hosts, st.sent, q, 0);
      var l1 := ResolveStops(w, st2, host, A, depth + 1, hosts);
      var (st3, o) := Resolve(w, st2, host, A, depth + 1, l1);
      limit := l1;
      if o.Returned? && FirstA(o.packet.answers).Some? {
        var q' := Query(qname, qtype, FirstA(o.packet.answers).value);
        ResolveIsGood(w, st2, host, A, depth + 1, l1);
        GrowsTrace(st2, st3, depth + 1);
        HopConsumesFreshName(w, st2, host, depth + 1, l1);
        FewerHosts(hosts, st2.visited, st3.visited, host);
        var k' := ChainLength(w, st3.sent, q');
        var l2 := FollowStops(w, st3, q', depth, hosts, k');
        limit := Max(l1, l2);
        LimitIsIrrelevant(w, st2, host, A, depth + 1, l1, limit);
        FollowLimit(w, st3, qname, qtype, depth, l2, limit, q'.server, l2, limit);
      }
    }
  }

  lemma FewerHosts(hosts: set<Name>, visited: set<Name>, visited': set<Name>, host: Name)
    requires visited <= visited' && host in hosts && host !in visited && host in visited'
    ensures |hosts - visited'| < |hosts - visited|
  {
    var before, after := hosts - visited, hosts - visited';
    assert after <= before - {host};
    CacheHistory.SubsetSize(after, before - {host});
  }

  lemma {:induction false} AskedByName(w: World, hosts: set<Name>, sent: nat, q: Query, attempt: nat)
    requires NamesAmong(w, hosts) && Ask(w, sent, q, attempt).1.Got?
    ensures var p := Ask(w, sent, q, attempt).1.packet;
      !Final(p) && ResolvedNs(p, q.qname).None? && UnresolvedNs(p, q.qname).Some? ==>
        UnresolvedNs(p, q.qname).value in hosts
    decreases w.maxRetries - attempt
  {
    hide Final, ResolvedNs, UnresolvedNs;
    if w.net(sent, q) == Timeout {
      AskedByName(w, hosts, sent + 1, q, attempt + 1);
    } else {
      assert RefersByName(w.net(sent, q), q.qname) ==> UnresolvedNs(w.net(sent, q).packet, q.qname).value in hosts;
    }
  }

  // ----- an endless chain keeps some search going -----

  lemma {:induction false} FollowsChain(w: World, st: State, q: Query, depth: nat, limit: nat, patience: nat)
    requires depth < MAX_RECURSION_DEPTH && Endless(w, st.sent, q)
    ensures Follow(w, st, q.qname, q.qtype, depth, limit, q.server, patience).1 == Done(Threw(OutOfPatience))
    decreases patience
  {
    hide Retry, CacheGlue, Final, NsOf, ResolvedNs, UnresolvedNs, Conclude, Resolve, Quiet, Ask;
    assert Query(q.qname, q.qtype, q.server) == q;
    if patience > 0 {
      RetryAsks(w, st, q, depth, 0);
      EndlessStep(w, st.sent, q);
      var (st1, r) := Retry(w, st, q, depth, 0);
      var p := r.packet;
      var st2 := CacheGlue(w, st1, NsOf(p.authorities, q.qname), p.resources);
      GlueIsQuiet(w, st1, NsOf(p.authorities, q.qname), p.resources);
      QuietTrace(st1, st2);
      hide Endless;
      FollowsChain(w, st2, Query(q.qname, q.qtype, ResolvedNs(p, q.qname).value), depth, limit, patience - 1);
    }
  }

  lemma EndlessStep(w: World, sent: nat, q: Query)
    requires Endless(w, sent, q)
    ensures GlueStep(w, sent, q).Some? && Endless(w, GlueStep(w, sent, q).value.0, GlueStep(w, sent, q).value.1)
  {
    hide GlueStep;
    ChainSteps(w, sent, q, 1);
    assert GlueChain(w, sent, q, 1).Some?;
    var (sent', q') := GlueStep(w, sent, q).value;
    forall k: nat ensures GlueChain(w, sent', q', k).Some? {
      ChainSteps(w, sent, q, k + 1);
      assert GlueChain(w, sent, q, k + 1).Some?;
    }
    hide GlueChain;
  }

  /** The server a search asks first if the cache has no answer. */
  function FirstServer(w: World, st: State, qname: Name, qtype: QueryType, depth: nat): IPv4
    requires w.roots != []
  {
    var ns := FindCachedNs(w, CacheLookup(w, Enter(st, qname, depth), qname, qtype).0, qname).1;
    if ns.Some? then ns.value else w.roots[0]
  }

  /** A search that the cache does not answer and that starts on an endless chain ends in no way at all. */
  lemma EndlessFromStart(w: World, st: State, qname: Name, qtype: QueryType, depth: nat, st': State, o: Outcome)
    requires depth < MAX_RECURSION_DEPTH && w.roots != []
    requires qname !in st.visited && CacheLookup(w, Enter(st, qname, depth), qname, qtype).1 == None
    requires Endless(w, st.sent, Query(qname, qtype, FirstServer(w, st, qname, qtype, depth)))
    ensures !Settles(w, st, qname, qtype, depth, st', o)
  {
    hide CacheLookup, FindCachedNs, Follow, Endless, Quiet;
    var st1 := Enter(st, qname, depth);
    var st2 := CacheLookup(w, st1, qname, qtype).0;
    LookupIsQuiet(w, st1, qname, qtype);
    QuietTrace(st1, st2);
    var st3 := FindCachedNs(w, st2, qname).0;
    FindCachedNsIsQuiet(w, st2, qname);
    QuietTrace(st2, st3);
    var q := Query(qname, qtype, FirstServer(w, st, qname, qtype, depth));
    hide Enter;
    forall limit: nat ensures Resolve(w, st, qname, qtype, depth, limit).1 == Threw(OutOfPatience) {
      FollowsChain(w, st3, q, depth, limit, limit);
    }
    hide Resolve;
  }

  /** A resolver that has sent `sent` queries, visited nothing, and cached one name server. */
  function Primed(w: World, sent: nat, q: Query): State {
    var now := w.clock(1);
    var c := CacheModel.EMPTY.(nsCache := map[q.qname := CacheModel.NSCacheEntry(q.server, now, now + 1, 1, 0)]);
    State(c, {}, 0, sent, [])
  }

  lemma PrimedStarts(w: World, sent: nat, q: Query)
    requires w.roots != []
    ensures var st := Primed(w, sent, q);
      && Good(w, st) && st.sent == sent && st.visited == {}
      && CacheLookup(w, Enter(st, q.qname, 0), q.qname, q.qtype).1 == None
      && FirstServer(w, st, q.qname, q.qtype, 0) == q.server
  {
    hide CacheKeys.MakeCacheKey;
  }

  ghost predicate EverySearchEnds(w: World) {
    forall st, qname, qtype, depth: nat :: Good(w, st) ==> HasEnd(w, st, qname, qtype, depth)
  }

  /** The exact condition. Where hosts are named from a finite set, every search of a sound resolver ends if and only if
      no chain of referrals with glue is endless. */
  lemma SearchesEndWithoutEndlessChains(w: World, hosts: set<Name>)
    requires w.roots != [] && NamesAmong(w, hosts)
    ensures EverySearchEnds(w) <==> NoEndlessChain(w)
  {
    hide Good, Resolve, NamesAmong, Endless, Primed, Enter, CacheLookup, FirstServer;
    if NoEndlessChain(w) {
      forall st, qname, qtype, depth: nat | Good(w, st)
        ensures HasEnd(w, st, qname, qtype, depth)
      {
        var limit := ResolveStops(w, st, qname, qtype, depth, hosts);
        var r := Resolve(w, st, qname, qtype, depth, limit);
        assert Resolve(w, st, qname, qtype, depth, limit) == (r.0, r.1);
        assert Settles(w, st, qname, qtype, depth, r.0, r.1);
      }
    }
    hide Settles;
    if EverySearchEnds(w) {
      forall sent: nat, q: Query ensures !Endless(w, sent, q) {
        if Endless(w, sent, q) {
          var st := Primed(w, sent, q);
          PrimedStarts(w, sent, q);
          assert HasEnd(w, st, q.qname, q.qtype, 0);
          var st', o :| Settles(w, st, q.qname, q.qtype, 0, st', o);
          assert Query(q.qname, q.qtype, q.server) == q;
          EndlessFromStart(w, st, q.qname, q.qtype, 0, st', o);
        }
      }
    }
  }

  // ----- networks that only ever refer -----

  /** Every reply to this question refers onwards with glue. */
  ghost predicate AlwaysRefers(w: World, qname: Name, qtype: QueryType) {
    forall n: nat, server: IPv4 :: RefersWithGlue(w.net(n, Query(qname, qtype, server)), qname)
  }

  lemma {:induction false} AlwaysRefersEndless(w: World, qname: Name, qtype: QueryType, sent: nat, server: IPv4, k: nat)
    requires AlwaysRefers(w, qname, qtype) && w.maxRetries > 0
    ensures GlueChain(w, sent, Query(qname, qtype, server), k).Some?
    decreases k
  {
    var q := Query(qname, qtype, server);
    assert RefersWithGlue(w.net(sent, q), qname);
    var p := w.net(sent, q).packet;
    assert Ask(w, sent, q, 0) == (sent + 1, Got(p));
    hide AlwaysRefers, Final, ResolvedNs;
    if k > 0 { AlwaysRefersEndless(w, qname, qtype, sent + 1, ResolvedNs(p, qname).value, k - 1); }
  }

  /** Nothing in the search bounds a referral loop by itself: where every reply is a referral with glue, a search that
      the cache does not answer ends in no way at all. */
  lemma EndlessReferrals(w: World, st: State, qname: Name, qtype: QueryType, depth: nat, st': State, o: Outcome)
    requires depth < MAX_RECURSION_DEPTH && w.maxRetries > 0 && w.roots != [] && AlwaysRefers(w, qname, qtype)
    requires qname !in st.visited && CacheLookup(w, Enter(st, qname, depth), qname, qtype).1 == None
    ensures !Settles(w, st, qname, qtype, depth, st', o)
  {
    var server := FirstServer(w, st, qname, qtype, depth);
    forall k: nat ensures GlueChain(w, st.sent, Query(qname, qtype, server), k).Some? {
      AlwaysRefersEndless(w, qname, qtype, st.sent, server, k);
    }
    hide CacheLookup, Enter, FirstServer, Settles, AlwaysRefers, GlueChain;
    EndlessFromStart(w, st, qname, qtype, depth, st', o);
  }
}

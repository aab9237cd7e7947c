/** Main results about whole resolutions. */
module ResolverOutcomes {
  import opened Bytes
  import opened QueryTypes
  import opened PacketWire
  import opened Referrals
  import opened ResolverModel
  import opened ResolverTheorems

  /** A resolver that has done nothing yet, on a sound cache. */
  predicate Idle(st: State) { st.visited == {} && st.trace == [] && CacheSound(st.cache) }

  /** In one top-level resolution each name passes the visited check at most once, no query leaves at depth ten or
      deeper, and the cache stays sound. */
  lemma ResolutionIsBounded(w: World, st: State, qname: Name, qtype: QueryType, limit: nat)
    requires Idle(st)
    ensures var st' := Resolve(w, st, qname, qtype, 0, limit).0;
      && DistinctNames(st'.trace)
      && (forall e :: e in st'.trace && e.Sent? ==> e.depth < 10)
      && CacheSound(st'.cache)
  {
    ResolveIsGood(w, st, qname, qtype, 0, limit);
    hide Resolve, DistinctNames, CacheSound;
  }

  /** A query was given up at `i`: the last permitted attempt timed out. */
  predicate GivenUp(w: World, e: Event, depth: nat) {
    e.Sent? && e.depth == depth && e.attempt == w.maxRetries - 1 && e.reply == Timeout
  }

  lemma PreviousAttempt(w: World, trace: seq<Event>, j: nat)
    requires RetriesInOrder(w, trace) && j < |trace| && trace[j].Sent? && trace[j].attempt > 0
    ensures j > 0 && trace[j - 1] == Sent(trace[j].query, trace[j].depth, trace[j].attempt - 1, Timeout)
  {
    assert InOrderAt(w, trace, j);
  }

  /** Giving up takes exactly `maxRetries` consecutive timed-out attempts at the same query. */
  lemma {:induction false} GivingUpTakesAllAttempts(w: World, trace: seq<Event>, i: nat, k: nat)
    requires RetriesInOrder(w, trace) && i < |trace| && GivenUp(w, trace[i], trace[i].depth) && k < w.maxRetries
    ensures k <= i && trace[i - k] == Sent(trace[i].query, trace[i].depth, w.maxRetries - 1 - k, Timeout)
  {
    if k == 0 {
      assert trace[i] == Sent(trace[i].query, trace[i].depth, trace[i].attempt, trace[i].reply);
    } else {
      GivingUpTakesAllAttempts(w, trace, i, k - 1);
      PreviousAttempt(w, trace, i - (k - 1));
      assert i - (k - 1) - 1 == i - k;
    }
  }

  function GiveUps(w: World, trace: seq<Event>, depth: nat): nat {
    if trace == [] then 0
    else GiveUps(w, trace[..|trace| - 1], depth) + if GivenUp(w, trace[|trace| - 1], depth) then 1 else 0
  }

  lemma GiveUpsSnoc(w: World, trace: seq<Event>, e: Event, depth: nat)
    ensures GiveUps(w, trace + [e], depth) == GiveUps(w, trace, depth) + if GivenUp(w, e, depth) then 1 else 0
  {
    assert (trace + [e])[..|trace|] == trace;
  }

  lemma {:induction false} DeeperGiveUps(w: World, a: seq<Event>, b: seq<Event>, depth: nat)
    requires a <= b && forall i :: |a| <= i < |b| ==> DepthOf(b[i]) >= depth + 1
    ensures GiveUps(w, b, depth) == GiveUps(w, a, depth)
    decreases |b|
  {
    if |a| < |b| {
      DeeperGiveUps(w, a, b[..|b| - 1], depth);
    } else {
      assert a == b;
    }
  }

  lemma {:induction false} RetryGiveUps(w: World, st: State, q: Query, depth: nat, attempt: nat)
    ensures var (st', r) := Retry(w, st, q, depth, attempt);
      GiveUps(w, st'.trace, depth) == GiveUps(w, st.trace, depth) + if r.TimedOut? then 1 else 0
    decreases w.maxRetries - attempt
  {
    hide GiveUps;
    if attempt < w.maxRetries {
      GiveUpsSnoc(w, st.trace, Sent(q, depth, attempt, w.net(st.sent, q)), depth);
      if w.net(st.sent, q) == Timeout && attempt != w.maxRetries - 1 {
        RetryGiveUps(w, Send(w, st, q, depth, attempt), q, depth, attempt + 1);
      }
    }
  }

  predicate ThrewExhausted(o: Outcome) { o.Threw? && o.error.AllRootsFailed? }

  lemma {:induction false} ResolveGiveUps(w: World, st: State, qname: Name, qtype: QueryType, depth: nat, limit: nat)
    requires Good(w, st) && w.roots != []
    ensures var (st', o) := Resolve(w, st, qname, qtype, depth, limit);
      && (ThrewExhausted(o) ==> o.error.depth >= depth)
      && GiveUps(w, st'.trace, depth) <= GiveUps(w, st.trace, depth) + |w.roots|
      && (o == Threw(AllRootsFailed(depth)) <==>
            GiveUps(w, st'.trace, depth) == GiveUps(w, st.trace, depth) + |w.roots|)
    decreases DepthLeft(depth), 2, 0
  {
    hide Good, GiveUps, Grows, Quiet, CacheLookup, FindCachedNs, TryRoots, GivenUp, Enter;
    if qname !in st.visited {
      var st1 := Enter(st, qname, depth);
      EnterGiveUps(w, st, qname, depth);
      EnterIsGood(w, st, qname, depth);
      if depth < MAX_RECURSION_DEPTH {
        var st2 := CacheLookup(w, st1, qname, qtype).0;
        LookupIsQuiet(w, st1, qname, qtype);
        QuietIsGood(w, st1, st2, depth);
        QuietTrace(st1, st2);
        var (st3, ns) := FindCachedNs(w, st2, qname);
        FindCachedNsIsQuiet(w, st2, qname);
        QuietIsGood(w, st2, st3, depth);
        QuietTrace(st2, st3);
        TryRootsGiveUps(w, st3, qname, qtype, depth, limit, ns, 0);
      }
    }
  }

  lemma EnterGiveUps(w: World, st: State, qname: Name, depth: nat)
    ensures GiveUps(w, Enter(st, qname, depth).trace, depth) == GiveUps(w, st.trace, depth)
  {
    GiveUpsSnoc(w, st.trace, Entered(qname, depth), depth);
    hide GiveUps;
  }

  lemma QuietTrace(st: State, st': State)
    requires Quiet(st, st')
    ensures st'.trace == st.trace && st'.sent == st.sent
  {
  }

  lemma {:induction false} TryRootsGiveUps(w: World, st: State, qname: Name, qtype: QueryType, depth: nat, limit: nat,
    start: Option<IPv4>, i: nat)
    requires depth < MAX_RECURSION_DEPTH && Good(w, st) && w.roots != [] && i <= |w.roots|
    ensures var (st', o) := TryRoots(w, st, qname, qtype, depth, limit, start, i);
      && (ThrewExhausted(o) ==> o.error.depth >= depth)
      && GiveUps(w, st'.trace, depth) <= GiveUps(w, st.trace, depth) + |w.roots| - i
      && (o == Threw(AllRootsFailed(depth)) <==>
            GiveUps(w, st'.trace, depth) == GiveUps(w, st.trace, depth) + |w.roots| - i)
    decreases DepthLeft(depth), 1, |w.roots| - i
  {
    hide Good, GiveUps, Follow;
    if i < |w.roots| {
      var server := if start.Some? then start.value else w.roots[i];
      FollowIsGood(w, st, qname, qtype, depth, limit, server, limit);
      FollowGiveUps(w, st, qname, qtype, depth, limit, server, limit);
      var (st1, o) := Follow(w, st, qname, qtype, depth, limit, server, limit);
      if o.GaveUp? {
        TryRootsGiveUps(w, st1, qname, qtype, depth, limit, None, i + 1);
      }
    }
  }

  lemma {:induction false} FollowGiveUps(w: World, st: State, qname: Name, qtype: QueryType, depth: nat, limit: nat,
    server: IPv4, patience: nat)
    requires depth < MAX_RECURSION_DEPTH && Good(w, st) && w.roots != []
    ensures var (st', o) := Follow(w, st, qname, qtype, depth, limit, server, patience);
      && GiveUps(w, st'.trace, depth) == GiveUps(w, st.trace, depth) + (if o.GaveUp? then 1 else 0)
      && (o.Done? && ThrewExhausted(o.outcome) ==> o.outcome.error.depth > depth)
    decreases DepthLeft(depth), 0, patience, 0
  {
    hide Good, GiveUps, Grows, Quiet, Retry, FollowOn, Conclude, CacheGlue, Final, NsOf;
    if patience > 0 {
      var q := Query(qname, qtype, server);
      var (st1, r) := Retry(w, st, q, depth, 0);
      RetryIsGood(w, st, q, depth, 0);
      RetryGiveUps(w, st, q, depth, 0);
      if r.Got? {
        var p := r.packet;
        if Final(p) {
          ConcludeIsQuiet(w, st1, qname, qtype, p);
          QuietTrace(st1, Conclude(w, st1, qname, qtype, p));
        } else {
          var st2 := CacheGlue(w, st1, NsOf(p.authorities, qname), p.resources);
          GlueIsQuiet(w, st1, NsOf(p.authorities, qname), p.resources);
          QuietIsGood(w, st1, st2, depth);
          QuietTrace(st1, st2);
          FollowOnGiveUps(w, st2, qname, qtype, depth, limit, p, patience - 1);
        }
      }
    }
  }

  lemma {:induction false} FollowOnGiveUps(w: World, st: State, qname: Name, qtype: QueryType, depth: nat, limit: nat,
    p: Packet, patience: nat)
    requires depth < MAX_RECURSION_DEPTH && Good(w, st) && w.roots != []
    ensures var (st', o) := FollowOn(w, st, qname, qtype, depth, limit, p, patience);
      && GiveUps(w, st'.trace, depth) == GiveUps(w, st.trace, depth) + (if o.GaveUp? then 1 else 0)
      && (o.Done? && ThrewExhausted(o.outcome) ==> o.outcome.error.depth > depth)
    decreases DepthLeft(depth), 0, patience, 1
  {
    hide Good, GiveUps, Follow, Resolve, ResolvedNs, UnresolvedNs, FirstA;
    var resolved, unresolved := ResolvedNs(p, qname), UnresolvedNs(p, qname);
    if resolved.Some? {
      FollowGiveUps(w, st, qname, qtype, depth, limit, resolved.value, patience);
    } else if unresolved.Some? {
      var (st1, o) := Resolve(w, st, unresolved.value, A, depth + 1, limit);
      ResolveIsGood(w, st, unresolved.value, A, depth + 1, limit);
      ResolveGiveUps(w, st, unresolved.value, A, depth + 1, limit);
      DeeperGiveUps(w, st.trace, st1.trace, depth);
      if o.Returned? && FirstA(o.packet.answers).Some? {
        FollowGiveUps(w, st1, qname, qtype, depth, limit, FirstA(o.packet.answers).value, patience);
      }
    }
  }

  /** An activation itself reports that all root servers failed exactly when it gave up as many queries as there are
      root servers; it never gives up more. A failure reported by a nested activation carries a greater depth. */
  lemma ExhaustionMeansEveryRootGivenUp(w: World, st: State, qname: Name, qtype: QueryType, limit: nat)
    requires Idle(st) && w.roots != []
    ensures var (st', o) := Resolve(w, st, qname, qtype, 0, limit);
      o == Threw(AllRootsFailed(0)) <==> GiveUps(w, st'.trace, 0) == |w.roots|
  {
    ResolveGiveUps(w, st, qname, qtype, 0, limit);
    hide Resolve;
  }

  // ----- where answers come from -----

  /** During the step from `st` to `st'` the network answered `p` to this very question at this depth. */
  predicate FromNetwork(st: State, st': State, qname: Name, qtype: QueryType, depth: nat, p: Packet) {
    exists i :: |st.trace| <= i < |st'.trace| && AnswersIt(st'.trace[i], qname, qtype, depth, p)
  }

  predicate AnswersIt(e: Event, qname: Name, qtype: QueryType, depth: nat, p: Packet) {
    e.Sent? && e.query.qname == qname && e.query.qtype == qtype && e.depth == depth && e.reply == Response(p)
  }

  lemma FromNetworkWider(a: State, b: State, c: State, d: State, qname: Name, qtype: QueryType, depth: nat, p: Packet)
    requires a.trace <= b.trace <= c.trace <= d.trace && FromNetwork(b, c, qname, qtype, depth, p)
    ensures FromNetwork(a, d, qname, qtype, depth, p)
  {
    hide AnswersIt;
    var i :| |b.trace| <= i < |c.trace| && AnswersIt(c.trace[i], qname, qtype, depth, p);
    assert d.trace[i] == c.trace[i];
  }

  lemma {:induction false} RetryAnswers(w: World, st: State, q: Query, depth: nat, attempt: nat)
    requires Good(w, st) && depth < MAX_RECURSION_DEPTH
    requires attempt > 0 ==> st.trace != [] && st.trace[|st.trace| - 1] == Sent(q, depth, attempt - 1, Timeout)
    ensures var (st', r) := Retry(w, st, q, depth, attempt);
      st.trace <= st'.trace && (r.Got? ==> FromNetwork(st, st', q.qname, q.qtype, depth, r.packet))
    decreases w.maxRetries - attempt
  {
    hide Good;
    if attempt < w.maxRetries {
      var st1 := Send(w, st, q, depth, attempt);
      SendIsGood(w, st, q, depth, attempt);
      match w.net(st.sent, q)
      case Response(p) => assert AnswersIt(st1.trace[|st.trace|], q.qname, q.qtype, depth, p);
      case Failure =>
      case Timeout =>
        if attempt != w.maxRetries - 1 {
          RetryAnswers(w, st1, q, depth, attempt + 1);
          var (st', r) := Retry(w, st1, q, depth, attempt + 1);
          if r.Got? { FromNetworkWider(st, st1, st', st', q.qname, q.qtype, depth, r.packet); }
        }
    }
  }

  /** What a resolution may return: the fixed failure for a repeated name or too deep a chain, an answer from the cache,
      or a packet the network gave to a query for this name and type. */
  predicate Honest(w: World, st: State, st': State, qname: Name, qtype: QueryType, depth: nat, p: Packet) {
    || (p == SERVFAIL_RESPONSE && (qname in st.visited || depth >= MAX_RECURSION_DEPTH))
    || (var cached := CacheLookup(w, Enter(st, qname, depth), qname, qtype).1;
        qname !in st.visited && depth < MAX_RECURSION_DEPTH && cached.Some? && p == CachedResponse(cached.value))
    || FromNetwork(st, st', qname, qtype, depth, p)
  }

  lemma {:induction false} ReturnsAreHonest(w: World, st: State, qname: Name, qtype: QueryType, depth: nat, limit: nat)
    requires Good(w, st)
    ensures var (st', o) := Resolve(w, st, qname, qtype, depth, limit);
      o.Returned? ==> Honest(w, st, st', qname, qtype, depth, o.packet)
  {
    hide Good, Grows, Quiet, CacheLookup, FindCachedNs, TryRoots, FromNetwork, Enter;
    if qname !in st.visited && depth < MAX_RECURSION_DEPTH {
      var st1 := Enter(st, qname, depth);
      EnterIsGood(w, st, qname, depth);
      var (st2, cached) := CacheLookup(w, st1, qname, qtype);
      LookupIsQuiet(w, st1, qname, qtype);
      QuietIsGood(w, st1, st2, depth);
      if cached.None? {
        var (st3, ns) := FindCachedNs(w, st2, qname);
        FindCachedNsIsQuiet(w, st2, qname);
        QuietIsGood(w, st2, st3, depth);
        TryRootsHonest(w, st3, qname, qtype, depth, limit, ns, 0);
        var (st', o) := TryRoots(w, st3, qname, qtype, depth, limit, ns, 0);
        TryRootsIsGood(w, st3, qname, qtype, depth, limit, ns, 0);
        if o.Returned? {
          GrowsTrans(st, st1, st2, depth, depth);
          GrowsTrans(st, st2, st3, depth, depth);
          GrowsTrace(st, st3, depth);
          GrowsTrace(st3, st', depth);
          FromNetworkWider(st, st3, st', st', qname, qtype, depth, o.packet);
        }
      }
    }
  }

  lemma GrowsTrace(st: State, st': State, depth: nat)
    requires Grows(st, st', depth)
    ensures st.trace <= st'.trace && st.visited <= st'.visited
  {
  }

  lemma {:induction false} TryRootsHonest(w: World, st: State, qname: Name, qtype: QueryType, depth: nat, limit: nat,
    start: Option<IPv4>, i: nat)
    requires depth < MAX_RECURSION_DEPTH && Good(w, st)
    ensures var (st', o) := TryRoots(w, st, qname, qtype, depth, limit, start, i);
      o.Returned? ==> FromNetwork(st, st', qname, qtype, depth, o.packet)
    decreases |w.roots| - i
  {
    hide Good, Grows, Follow, FromNetwork;
    if i < |w.roots| {
      var server := if start.Some? then start.value else w.roots[i];
      FollowIsGood(w, st, qname, qtype, depth, limit, server, limit);
      FollowHonest(w, st, qname, qtype, depth, limit, server, limit);
      var (st1, o) := Follow(w, st, qname, qtype, depth, limit, server, limit);
      if o.GaveUp? {
        TryRootsHonest(w, st1, qname, qtype, depth, limit, None, i + 1);
        TryRootsIsGood(w, st1, qname, qtype, depth, limit, None, i + 1);
        var (st', o') := TryRoots(w, st1, qname, qtype, depth, limit, None, i + 1);
        GrowsTrace(st, st1, depth);
        GrowsTrace(st1, st', depth);
        if o'.Returned? { FromNetworkWider(st, st1, st', st', qname, qtype, depth, o'.packet); }
      }
    }
  }

  lemma {:induction false} FollowHonest(w: World, st: State, qname: Name, qtype: QueryType, depth: nat, limit: nat,
    server: IPv4, patience: nat)
    requires depth < MAX_RECURSION_DEPTH && Good(w, st)
    ensures var (st', o) := Follow(w, st, qname, qtype, depth, limit, server, patience);
      o.Done? && o.outcome.Returned? ==> FromNetwork(st, st', qname, qtype, depth, o.outcome.packet)
    decreases patience, 1
  {
    hide Good, Grows, Quiet, Retry, FollowOn, Conclude, CacheGlue, Final, NsOf, FromNetwork;
    if patience > 0 {
      var q := Query(qname, qtype, server);
      var (st1, r) := Retry(w, st, q, depth, 0);
      RetryIsGood(w, st, q, depth, 0);
      RetryAnswers(w, st, q, depth, 0);
      if r.Got? {
        var p := r.packet;
        if Final(p) {
          ConcludeIsQuiet(w, st1, qname, qtype, p);
          QuietTrace(st1, Conclude(w, st1, qname, qtype, p));
          FromNetworkWider(st, st, st1, Conclude(w, st1, qname, qtype, p), qname, qtype, depth, p);
        } else {
          var st2 := CacheGlue(w, st1, NsOf(p.authorities, qname), p.resources);
          GlueIsQuiet(w, st1, NsOf(p.authorities, qname), p.resources);
          QuietIsGood(w, st1, st2, depth);
          QuietTrace(st1, st2);
          FollowOnHonest(w, st2, qname, qtype, depth, limit, p, patience - 1);
          FollowOnIsGood(w, st2, qname, qtype, depth, limit, p, patience - 1);
          var (st', o) := FollowOn(w, st2, qname, qtype, depth, limit, p, patience - 1);
          GrowsTrace(st2, st', depth);
          FromNetworkWider(st, st, st1, st', qname, qtype, depth, p);
          if o.Done? && o.outcome.Returned? && o.outcome.packet != p {
            FromNetworkWider(st, st2, st', st', qname, qtype, depth, o.outcome.packet);
          }
        }
      }
    }
  }

  lemma {:induction false} FollowOnHonest(w: World, st: State, qname: Name, qtype: QueryType, depth: nat, limit: nat,
    p: Packet, patience: nat)
    requires depth < MAX_RECURSION_DEPTH && Good(w, st)
    ensures var (st', o) := FollowOn(w, st, qname, qtype, depth, limit, p, patience);
      o.Done? && o.outcome.Returned? ==>
        o.outcome.packet == p || FromNetwork(st, st', qname, qtype, depth, o.outcome.packet)
    decreases patience, 2
  {
    hide Good, Grows, Follow, Resolve, ResolvedNs, UnresolvedNs, FirstA, FromNetwork;
    var resolved, unresolved := ResolvedNs(p, qname), UnresolvedNs(p, qname);
    if resolved.Some? {
      FollowHonest(w, st, qname, qtype, depth, limit, resolved.value, patience);
    } else if unresolved.Some? {
      var (st1, o) := Resolve(w, st, unresolved.value, A, depth + 1, limit);
      ResolveIsGood(w, st, unresolved.value, A, depth + 1, limit);
      GrowsTrace(st, st1, depth + 1);
      if o.Returned? && FirstA(o.packet.answers).Some? {
        var ip := FirstA(o.packet.answers).value;
        FollowHonest(w, st1, qname, qtype, depth, limit, ip, patience);
        FollowIsGood(w, st1, qname, qtype, depth, limit, ip, patience);
        var (st', o') := Follow(w, st1, qname, qtype, depth, limit, ip, patience);
        GrowsTrace(st1, st', depth);
        if o'.Done? && o'.outcome.Returned? {
          FromNetworkWider(st, st1, st', st', qname, qtype, depth, o'.outcome.packet);
        }
      }
    }
  }

  /** A server name resolved along the way that yields an address was a fresh one: it had not been entered before,
      and it has been now. Without an address the referral is not followed. */
  lemma HopConsumesFreshName(w: World, st: State, host: Name, depth: nat, limit: nat)
    requires Good(w, st)
    ensures var (st', o) := Resolve(w, st, host, A, depth, limit);
      o.Returned? && FirstA(o.packet.answers).Some? ==>
        host !in st.visited && host in st'.visited && depth < MAX_RECURSION_DEPTH
  {
    ResolveIsGood(w, st, host, A, depth, limit);
    ResolveEnters(w, st, host, A, depth, limit);
    hide Resolve, Good, Grows;
  }

  lemma ResolveEnters(w: World, st: State, qname: Name, qtype: QueryType, depth: nat, limit: nat)
    requires Good(w, st)
    ensures qname in Resolve(w, st, qname, qtype, depth, limit).0.visited
    ensures qname in st.visited || depth >= MAX_RECURSION_DEPTH ==>
      Resolve(w, st, qname, qtype, depth, limit).1 == Returned(SERVFAIL_RESPONSE)
  {
    hide Good, Grows, Quiet, CacheLookup, FindCachedNs, TryRoots;
    if qname !in st.visited && depth < MAX_RECURSION_DEPTH {
      var st1 := Enter(st, qname, depth);
      EnterIsGood(w, st, qname, depth);
      var (st2, cached) := CacheLookup(w, st1, qname, qtype);
      LookupIsQuiet(w, st1, qname, qtype);
      QuietIsGood(w, st1, st2, depth);
      GrowsTrace(st1, st2, depth);
      var (st3, ns) := FindCachedNs(w, st2, qname);
      FindCachedNsIsQuiet(w, st2, qname);
      QuietIsGood(w, st2, st3, depth);
      GrowsTrace(st2, st3, depth);
      TryRootsIsGood(w, st3, qname, qtype, depth, limit, ns, 0);
      GrowsTrace(st3, TryRoots(w, st3, qname, qtype, depth, limit, ns, 0).0, depth);
    }
  }
}

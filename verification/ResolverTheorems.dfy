/** What every resolution keeps, whatever the network answers: one pass per name, the depth cap, the retry pattern,
    a sound cache, exhaustion of the root servers, the origin of answers, and bounds on the work. */
module ResolverTheorems {
  import opened Bytes
  import opened StringUtils
  import opened QueryTypes
  import opened DnsRecords
  import opened PacketWire
  import opened Referrals
  import opened ResolverModel
  import opened Runs
  import CacheModel
  import CacheHistory
  import CacheKeys

  // ----- the invariant -----

  function DepthOf(e: Event): nat { e.depth }

  predicate DistinctNames(trace: seq<Event>) {
    forall i, j :: 0 <= i < j < |trace| && trace[i].Entered? && trace[j].Entered? ==> trace[i].qname != trace[j].qname
  }

  /** The query at `i` was sent within the depth cap and the retry limit, and its attempt a+1 directly follows
      attempt a of the same query, which timed out. */
  predicate InOrderAt(w: World, trace: seq<Event>, i: nat)
    requires i < |trace| && trace[i].Sent?
  {
    && trace[i].depth < MAX_RECURSION_DEPTH && trace[i].attempt < w.maxRetries
    && (trace[i].attempt > 0 ==>
          i > 0 && trace[i - 1] == Sent(trace[i].query, trace[i].depth, trace[i].attempt - 1, Timeout))
  }

  predicate RetriesInOrder(w: World, trace: seq<Event>) {
    forall i :: 0 <= i < |trace| && trace[i].Sent? ==> InOrderAt(w, trace, i)
  }

  predicate EnteredVisited(st: State) {
    forall i :: 0 <= i < |st.trace| && st.trace[i].Entered? ==> st.trace[i].qname in st.visited
  }

  predicate CacheSound(c: CacheModel.State) { CacheModel.LruOk(c) && |c.cache| <= CacheModel.MAX_ENTRIES }

  predicate Good(w: World, st: State) {
    DistinctNames(st.trace) && RetriesInOrder(w, st.trace) && EnteredVisited(st) && CacheSound(st.cache)
  }

  /** Only events of this depth or deeper were added, and no name was forgotten. */
  predicate Grows(st: State, st': State, depth: nat) {
    && st.trace <= st'.trace && st.visited <= st'.visited
    && forall i :: |st.trace| <= i < |st'.trace| ==> DepthOf(st'.trace[i]) >= depth
  }

  /** Nothing but the cache and its clock moved, and the cache stays sound. */
  predicate Quiet(st: State, st': State) {
    && st'.visited == st.visited && st'.trace == st.trace && st'.sent == st.sent
    && (CacheSound(st.cache) ==> CacheSound(st'.cache))
  }

  lemma GrowsTrans(a: State, b: State, c: State, depth: nat, deeper: nat)
    requires Grows(a, b, depth) && Grows(b, c, deeper) && depth <= deeper
    ensures Grows(a, c, depth)
  {
  }

  lemma QuietIsGood(w: World, st: State, st': State, depth: nat)
    requires Quiet(st, st')
    ensures Good(w, st) ==> Good(w, st')
    ensures Grows(st, st', depth)
  {
    hide CacheSound;
  }

  lemma StepIsQuiet(w: World, st: State, c: Call<CacheHistory.Op>)
    ensures Quiet(st, Tick(st, CacheHistory.Step(w.cfg, st.cache, c).0))
  {
    if CacheSound(st.cache) { CacheHistory.StepKeepsOk(w.cfg, st.cache, c); }
  }

  lemma LookupIsQuiet(w: World, st: State, qname: Name, qtype: QueryType)
    ensures Quiet(st, CacheLookup(w, st, qname, qtype).0)
  {
    StepIsQuiet(w, st, Call(CacheHistory.Lookup(qname, qtype), w.clock(st.ticks)));
    hide Quiet;
  }

  lemma ConcludeIsQuiet(w: World, st: State, qname: Name, qtype: QueryType, p: Packet)
    requires Final(p)
    ensures Quiet(st, Conclude(w, st, qname, qtype, p))
  {
    StepIsQuiet(w, st, Call(CacheHistory.Insert(qname, qtype, p.answers), w.clock(st.ticks)));
    StepIsQuiet(w, st, Call(CacheHistory.InsertNegative(qname, qtype, p.header.rescode, 300), w.clock(st.ticks)));
    hide Quiet, CacheModel.InsertStep, CacheModel.InsertNegativeStep, CacheKeys.MakeCacheKey;
  }

  lemma QuietTrans(a: State, b: State, c: State)
    requires Quiet(a, b) && Quiet(b, c)
    ensures Quiet(a, c)
  {
    hide CacheSound;
  }

  lemma QuietRefl(st: State)
    ensures Quiet(st, st)
  {
  }

  lemma {:induction false} ServerGlueIsQuiet(w: World, st: State, ns: NameServer, resources: seq<DnsRecord>)
    ensures Quiet(st, CacheServerGlue(w, st, ns, resources))
    decreases |resources|
  {
    hide Quiet, CacheModel.InsertNSStep;
    QuietRefl(st);
    if resources != [] {
      var r := resources[0];
      if IsGlue(r, ns.1) {
        StepIsQuiet(w, st, Call(CacheHistory.InsertNS(ns.0, r.addr, r.ttl), w.clock(st.ticks)));
        ServerGlueIsQuiet(w, CacheAddress(w, st, ns.0, r), ns, resources[1..]);
        QuietTrans(st, CacheAddress(w, st, ns.0, r), CacheServerGlue(w, st, ns, resources));
      } else {
        ServerGlueIsQuiet(w, st, ns, resources[1..]);
      }
    }
  }

  lemma {:induction false} GlueIsQuiet(w: World, st: State, servers: seq<NameServer>, resources: seq<DnsRecord>)
    ensures Quiet(st, CacheGlue(w, st, servers, resources))
    decreases |servers|
  {
    hide Quiet, CacheServerGlue;
    QuietRefl(st);
    if servers != [] {
      var st1 := CacheServerGlue(w, st, servers[0], resources);
      ServerGlueIsQuiet(w, st, servers[0], resources);
      GlueIsQuiet(w, st1, servers[1..], resources);
      QuietTrans(st, st1, CacheGlue(w, st, servers, resources));
    }
  }

  lemma {:induction false} FindCachedNsIsQuiet(w: World, st: State, domain: Name)
    ensures Quiet(st, FindCachedNs(w, st, domain).0)
    decreases |domain|
  {
    hide Quiet, FirstDelim, CacheModel.LookupNSStep;
    StepIsQuiet(w, st, Call(CacheHistory.LookupNS(domain), w.clock(st.ticks)));
    var (c, r) := CacheModel.LookupNSStep(st.cache, domain, w.clock(st.ticks));
    var st1, dot := Tick(st, c), FirstDelim(domain, DOT);
    if !(r.Some? || dot == |domain|) {
      FindCachedNsIsQuiet(w, st1, domain[dot + 1..]);
      QuietTrans(st, st1, FindCachedNs(w, st, domain).0);
    }
  }

  // ----- every function keeps it -----

  lemma SendIsGood(w: World, st: State, q: Query, depth: nat, attempt: nat)
    requires Good(w, st) && depth < MAX_RECURSION_DEPTH && attempt < w.maxRetries
    requires attempt > 0 ==> st.trace != [] && st.trace[|st.trace| - 1] == Sent(q, depth, attempt - 1, Timeout)
    ensures Good(w, Send(w, st, q, depth, attempt)) && Grows(st, Send(w, st, q, depth, attempt), depth)
  {
    hide CacheSound;
    var e := Sent(q, depth, attempt, w.net(st.sent, q));
    assert Send(w, st, q, depth, attempt).trace == st.trace + [e];
    TraceSnoc(w, st.trace, e);
    hide DistinctNames, RetriesInOrder;
  }

  lemma TraceSnoc(w: World, trace: seq<Event>, e: Event)
    requires RetriesInOrder(w, trace) && e.Sent? && e.depth < MAX_RECURSION_DEPTH && e.attempt < w.maxRetries
    requires e.attempt > 0 ==> trace != [] && trace[|trace| - 1] == Sent(e.query, e.depth, e.attempt - 1, Timeout)
    ensures RetriesInOrder(w, trace + [e])
    ensures DistinctNames(trace) ==> DistinctNames(trace + [e])
  {
    var trace' := trace + [e];
    forall i | 0 <= i < |trace'| && trace'[i].Sent? ensures InOrderAt(w, trace', i) {
      if i < |trace| {
        assert trace'[i] == trace[i] && InOrderAt(w, trace, i);
        if i > 0 { assert trace'[i - 1] == trace[i - 1]; }
      } else {
        assert trace'[i] == e;
        if i > 0 { assert trace'[i - 1] == trace[|trace| - 1]; }
      }
    }
  }

  lemma {:induction false} RetryIsGood(w: World, st: State, q: Query, depth: nat, attempt: nat)
    requires Good(w, st) && depth < MAX_RECURSION_DEPTH
    requires attempt > 0 ==> st.trace != [] && st.trace[|st.trace| - 1] == Sent(q, depth, attempt - 1, Timeout)
    ensures Good(w, Retry(w, st, q, depth, attempt).0) && Grows(st, Retry(w, st, q, depth, attempt).0, depth)
    decreases w.maxRetries - attempt
  {
    hide Good, Grows;
    GrowsRefl(st, depth);
    if attempt < w.maxRetries {
      var st1 := Send(w, st, q, depth, attempt);
      SendIsGood(w, st, q, depth, attempt);
      if w.net(st.sent, q) == Timeout && attempt != w.maxRetries - 1 {
        RetryIsGood(w, st1, q, depth, attempt + 1);
        GrowsTrans(st, st1, Retry(w, st1, q, depth, attempt + 1).0, depth, depth);
      }
    }
  }

  lemma GrowsRefl(st: State, depth: nat)
    ensures Grows(st, st, depth)
  {
  }

  lemma EnterIsGood(w: World, st: State, qname: Name, depth: nat)
    requires Good(w, st) && qname !in st.visited
    ensures Good(w, Enter(st, qname, depth)) && Grows(st, Enter(st, qname, depth), depth)
  {
    hide CacheSound;
    var trace' := Enter(st, qname, depth).trace;
    forall i | 0 <= i < |trace'| && trace'[i].Sent? ensures InOrderAt(w, trace', i) {
      assert trace'[i] == st.trace[i] && InOrderAt(w, st.trace, i);
      if i > 0 { assert trace'[i - 1] == st.trace[i - 1]; }
    }
  }

  lemma {:induction false} ResolveIsGood(w: World, st: State, qname: Name, qtype: QueryType, depth: nat, limit: nat)
    requires Good(w, st)
    ensures Good(w, Resolve(w, st, qname, qtype, depth, limit).0)
      && Grows(st, Resolve(w, st, qname, qtype, depth, limit).0, depth)
    decreases DepthLeft(depth), 2, 0
  {
    hide Good, Grows, Quiet, Enter, CacheLookup, FindCachedNs, TryRoots;
    GrowsRefl(st, depth);
    if qname !in st.visited {
      var st1 := Enter(st, qname, depth);
      EnterIsGood(w, st, qname, depth);
      if depth < MAX_RECURSION_DEPTH {
        var st2 := CacheLookup(w, st1, qname, qtype).0;
        LookupIsQuiet(w, st1, qname, qtype);
        QuietIsGood(w, st1, st2, depth);
        GrowsTrans(st, st1, st2, depth, depth);
        var (st3, ns) := FindCachedNs(w, st2, qname);
        FindCachedNsIsQuiet(w, st2, qname);
        QuietIsGood(w, st2, st3, depth);
        GrowsTrans(st, st2, st3, depth, depth);
        TryRootsIsGood(w, st3, qname, qtype, depth, limit, ns, 0);
        GrowsTrans(st, st3, TryRoots(w, st3, qname, qtype, depth, limit, ns, 0).0, depth, depth);
      }
    }
  }

  lemma {:induction false} TryRootsIsGood(w: World, st: State, qname: Name, qtype: QueryType, depth: nat, limit: nat,
    start: Option<IPv4>, i: nat)
    requires depth < MAX_RECURSION_DEPTH && Good(w, st)
    ensures var st' := TryRoots(w, st, qname, qtype, depth, limit, start, i).0;
      Good(w, st') && Grows(st, st', depth)
    decreases DepthLeft(depth), 1, |w.roots| - i
  {
    hide Good, Grows, Follow;
    GrowsRefl(st, depth);
    if i < |w.roots| {
      var server := if start.Some? then start.value else w.roots[i];
      FollowIsGood(w, st, qname, qtype, depth, limit, server, limit);
      var (st1, o) := Follow(w, st, qname, qtype, depth, limit, server, limit);
      if o.GaveUp? {
        TryRootsIsGood(w, st1, qname, qtype, depth, limit, None, i + 1);
        GrowsTrans(st, st1, TryRoots(w, st1, qname, qtype, depth, limit, None, i + 1).0, depth, depth);
      }
    }
  }

  lemma {:induction false} FollowIsGood(w: World, st: State, qname: Name, qtype: QueryType, depth: nat, limit: nat,
    server: IPv4, patience: nat)
    requires depth < MAX_RECURSION_DEPTH && Good(w, st)
    ensures var st' := Follow(w, st, qname, qtype, depth, limit, server, patience).0;
      Good(w, st') && Grows(st, st', depth)
    decreases DepthLeft(depth), 0, patience, 0
  {
    hide Good, Grows, Quiet, Retry, FollowOn, Conclude, CacheGlue, Final, NsOf;
    GrowsRefl(st, depth);
    if patience > 0 {
      var q := Query(qname, qtype, server);
      var (st1, r) := Retry(w, st, q, depth, 0);
      RetryIsGood(w, st, q, depth, 0);
      if r.Got? {
        var p := r.packet;
        if Final(p) {
          ConcludeIsQuiet(w, st1, qname, qtype, p);
          QuietIsGood(w, st1, Conclude(w, st1, qname, qtype, p), depth);
          GrowsTrans(st, st1, Conclude(w, st1, qname, qtype, p), depth, depth);
        } else {
          var st2 := CacheGlue(w, st1, NsOf(p.authorities, qname), p.resources);
          GlueIsQuiet(w, st1, NsOf(p.authorities, qname), p.resources);
          QuietIsGood(w, st1, st2, depth);
          GrowsTrans(st, st1, st2, depth, depth);
          FollowOnIsGood(w, st2, qname, qtype, depth, limit, p, patience - 1);
          GrowsTrans(st, st2, FollowOn(w, st2, qname, qtype, depth, limit, p, patience - 1).0, depth, depth);
        }
      }
    }
  }

  lemma {:induction false} FollowOnIsGood(w: World, st: State, qname: Name, qtype: QueryType, depth: nat, limit: nat,
    p: Packet, patience: nat)
    requires depth < MAX_RECURSION_DEPTH && Good(w, st)
    ensures var st' := FollowOn(w, st, qname, qtype, depth, limit, p, patience).0;
      Good(w, st') && Grows(st, st', depth)
    decreases DepthLeft(depth), 0, patience, 1
  {
    hide Good, Grows, Follow, Resolve, ResolvedNs, UnresolvedNs, FirstA;
    GrowsRefl(st, depth);
    var resolved, unresolved := ResolvedNs(p, qname), UnresolvedNs(p, qname);
    if resolved.Some? {
      FollowIsGood(w, st, qname, qtype, depth, limit, resolved.value, patience);
    } else if unresolved.Some? {
      var (st1, o) := Resolve(w, st, unresolved.value, A, depth + 1, limit);
      ResolveIsGood(w, st, unresolved.value, A, depth + 1, limit);
      GrowsShallower(st, st1, depth);
      if o.Returned? && FirstA(o.packet.answers).Some? {
        var ip := FirstA(o.packet.answers).value;
        FollowIsGood(w, st1, qname, qtype, depth, limit, ip, patience);
        GrowsTrans(st, st1, Follow(w, st1, qname, qtype, depth, limit, ip, patience).0, depth, depth);
      }
    }
  }

  lemma GrowsShallower(st: State, st': State, depth: nat)
    requires Grows(st, st', depth + 1)
    ensures Grows(st, st', depth)
  {
  }
}

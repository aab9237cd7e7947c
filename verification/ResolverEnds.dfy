/** When a search ends. The source's referral loop is not bounded: a search ends with a result if some number of turns
    is enough for it, and then every larger number gives the same result. */
module ResolverEnds {
  import opened Bytes
  import opened QueryTypes
  import opened PacketWire
  import opened Referrals
  import opened ResolverModel
  import opened ResolverTheorems
  import opened ResolverOutcomes
  import opened ResolverBounds
  import CacheHistory

  /** The search, its loops unbounded as in the source, ends in `st'` with `o`. */
  ghost predicate Settles(w: World, st: State, qname: Name, qtype: QueryType, depth: nat, st': State, o: Outcome) {
    o != Threw(OutOfPatience) && exists limit: nat :: Resolve(w, st, qname, qtype, depth, limit) == (st', o)
  }

  ghost predicate HasEnd(w: World, st: State, qname: Name, qtype: QueryType, depth: nat) {
    exists st', o :: Settles(w, st, qname, qtype, depth, st', o)
  }

  /** A search ends in one way only. */
  lemma SettlesOnce(w: World, st: State, qname: Name, qtype: QueryType, depth: nat,
    st1: State, o1: Outcome, st2: State, o2: Outcome)
    requires Settles(w, st, qname, qtype, depth, st1, o1) && Settles(w, st, qname, qtype, depth, st2, o2)
    ensures st1 == st2 && o1 == o2
  {
    hide Resolve;
    var i: nat :| Resolve(w, st, qname, qtype, depth, i) == (st1, o1);
    var j: nat :| Resolve(w, st, qname, qtype, depth, j) == (st2, o2);
    if i <= j {
      LimitIsIrrelevant(w, st, qname, qtype, depth, i, j);
    } else {
      LimitIsIrrelevant(w, st, qname, qtype, depth, j, i);
    }
  }

  // ----- networks on which every search ends -----

  /** A reply that ends nothing and names a server together with its address. */
  predicate RefersWithGlue(r: Reply, qname: Name) {
    r.Response? && !Final(r.packet) && ResolvedNs(r.packet, qname).Some?
  }

  /** A reply that ends nothing and names a server without its address. */
  predicate RefersByName(r: Reply, qname: Name) {
    r.Response? && !Final(r.packet) && ResolvedNs(r.packet, qname).None? && UnresolvedNs(r.packet, qname).Some?
  }

  /** Chains of referrals with glue are shorter than `length`: each leads to a query of lower rank. */
  ghost predicate Descends(w: World, rank: Query -> nat, length: nat) {
    forall n: nat, q: Query ::
      && rank(q) < length
      && (RefersWithGlue(w.net(n, q), q.qname) ==>
            rank(Query(q.qname, q.qtype, ResolvedNs(w.net(n, q).packet, q.qname).value)) < rank(q))
  }

  /** Servers are referred to without an address by the names in `hosts` only. */
  ghost predicate NamesAmong(w: World, hosts: set<Name>) {
    forall n: nat, q: Query ::
      RefersByName(w.net(n, q), q.qname) ==> UnresolvedNs(w.net(n, q).packet, q.qname).value in hosts
  }

  /** Turns that are enough for any referral loop: one chain of glue to begin with, and one more for every host. */
  function Turns(length: nat, hosts: set<Name>): nat { length + |hosts| * length }

  /** Turns still enough at a query of this rank, when the names in `visited` cannot be hopped to again. */
  function TurnsFrom(rank: nat, length: nat, hosts: set<Name>, visited: set<Name>): nat {
    rank + 1 + |hosts - visited| * length
  }

  lemma TurnsSuffice(rank: nat, length: nat, hosts: set<Name>, visited: set<Name>)
    requires rank < length
    ensures TurnsFrom(rank, length, hosts, visited) <= Turns(length, hosts)
  {
    CacheHistory.SubsetSize(hosts - visited, hosts);
    TimesMonotone(|hosts - visited|, |hosts|, length);
  }

  lemma TimesMonotone(a: nat, b: nat, c: nat)
    requires a <= b
    ensures a * c <= b * c
  {
  }

  /** A hop to a fresh host pays for a whole new chain of glue. */
  lemma HopPays(rank: nat, length: nat, hosts: set<Name>, visited: set<Name>, visited': set<Name>, host: Name)
    requires rank < length && visited <= visited' && host in hosts && host !in visited && host in visited'
    ensures TurnsFrom(rank, length, hosts, visited') <= |hosts - visited| * length
  {
    var before, after := hosts - visited, hosts - visited';
    assert after <= before - {host};
    CacheHistory.SubsetSize(after, before - {host});
    TimesMonotone(|after| + 1, |before|, length);
    assert (|after| + 1) * length == |after| * length + length;
  }

  lemma {:induction false} RetryKeepsVisited(w: World, st: State, q: Query, depth: nat, attempt: nat)
    ensures var (st', r) := Retry(w, st, q, depth, attempt);
      st'.visited == st.visited && (r.Got? ==> exists n: nat :: w.net(n, q) == Response(r.packet))
    decreases w.maxRetries - attempt
  {
    if attempt < w.maxRetries && w.net(st.sent, q) == Timeout && attempt != w.maxRetries - 1 {
      RetryKeepsVisited(w, Send(w, st, q, depth, attempt), q, depth, attempt + 1);
    }
  }

  /** On a network with finite chains of glue and finitely many hosts referred to by name, no referral loop runs out of
      `Turns`. */
  lemma {:induction false} ResolveEnds(w: World, st: State, qname: Name, qtype: QueryType, depth: nat, limit: nat,
    rank: Query -> nat, length: nat, hosts: set<Name>)
    requires Good(w, st) && Descends(w, rank, length) && NamesAmong(w, hosts) && limit >= Turns(length, hosts)
    ensures Resolve(w, st, qname, qtype, depth, limit).1 != Threw(OutOfPatience)
    decreases DepthLeft(depth), 2, 0
  {
    hide Good, Grows, Quiet, CacheLookup, FindCachedNs, TryRoots, Enter, Descends, NamesAmong, Turns;
    if qname !in st.visited && depth < MAX_RECURSION_DEPTH {
      var st1 := Enter(st, qname, depth);
      EnterIsGood(w, st, qname, depth);
      var st2 := CacheLookup(w, st1, qname, qtype).0;
      LookupIsQuiet(w, st1, qname, qtype);
      QuietIsGood(w, st1, st2, depth);
      var (st3, ns) := FindCachedNs(w, st2, qname);
      FindCachedNsIsQuiet(w, st2, qname);
      QuietIsGood(w, st2, st3, depth);
      TryRootsEnds(w, st3, qname, qtype, depth, limit, ns, 0, rank, length, hosts);
    }
  }

  lemma {:induction false} TryRootsEnds(w: World, st: State, qname: Name, qtype: QueryType, depth: nat, limit: nat,
    start: Option<IPv4>, i: nat, rank: Query -> nat, length: nat, hosts: set<Name>)
    requires depth < MAX_RECURSION_DEPTH && Good(w, st)
    requires Descends(w, rank, length) && NamesAmong(w, hosts) && limit >= Turns(length, hosts)
    ensures TryRoots(w, st, qname, qtype, depth, limit, start, i).1 != Threw(OutOfPatience)
    decreases DepthLeft(depth), 1, |w.roots| - i
  {
    hide Good, Grows, Follow, NamesAmong, Turns, TurnsFrom;
    if i < |w.roots| {
      var server := if start.Some? then start.value else w.roots[i];
      RankBelow(w, rank, length, Query(qname, qtype, server));
      hide Descends;
      TurnsSuffice(rank(Query(qname, qtype, server)), length, hosts, st.visited);
      FollowEnds(w, st, qname, qtype, depth, limit, server, limit, rank, length, hosts);
      FollowIsGood(w, st, qname, qtype, depth, limit, server, limit);
      var (st1, o) := Follow(w, st, qname, qtype, depth, limit, server, limit);
      if o.GaveUp? {
        TryRootsEnds(w, st1, qname, qtype, depth, limit, None, i + 1, rank, length, hosts);
      }
    }
  }

  lemma RankBelow(w: World, rank: Query -> nat, length: nat, q: Query)
    requires Descends(w, rank, length)
    ensures rank(q) < length
  {
    var r := w.net(0, q);
  }

  lemma ReplyLeads(w: World, rank: Query -> nat, length: nat, hosts: set<Name>, n: nat, q: Query, p: Packet)
    requires Descends(w, rank, length) && NamesAmong(w, hosts) && w.net(n, q) == Response(p) && !Final(p)
    ensures var resolved, unresolved := ResolvedNs(p, q.qname), UnresolvedNs(p, q.qname);
      && (resolved.Some? ==> rank(Query(q.qname, q.qtype, resolved.value)) < rank(q))
      && (resolved.None? && unresolved.Some? ==> unresolved.value in hosts)
  {
    hide ResolvedNs, UnresolvedNs, Final;
    var r := w.net(n, q);
    assert RefersWithGlue(r, q.qname) || RefersByName(r, q.qname)
      || (ResolvedNs(p, q.qname).None? && UnresolvedNs(p, q.qname).None?);
  }

  lemma {:induction false} FollowEnds(w: World, st: State, qname: Name, qtype: QueryType, depth: nat, limit: nat,
    server: IPv4, patience: nat, rank: Query -> nat, length: nat, hosts: set<Name>)
    requires depth < MAX_RECURSION_DEPTH && Good(w, st)
    requires Descends(w, rank, length) && NamesAmong(w, hosts) && limit >= Turns(length, hosts)
    requires patience >= TurnsFrom(rank(Query(qname, qtype, server)), length, hosts, st.visited)
    ensures Follow(w, st, qname, qtype, depth, limit, server, patience).1 != Done(Threw(OutOfPatience))
    decreases DepthLeft(depth), 0, patience, 0
  {
    hide Good, Grows, Quiet, Retry, FollowOn, Conclude, CacheGlue, Final, NsOf, Descends, NamesAmong, Turns, ResolvedNs,
      UnresolvedNs;
    var q := Query(qname, qtype, server);
    var (st1, r) := Retry(w, st, q, depth, 0);
    RetryIsGood(w, st, q, depth, 0);
    RetryKeepsVisited(w, st, q, depth, 0);
    if r.Got? && !Final(r.packet) {
      var p := r.packet;
      var st2 := CacheGlue(w, st1, NsOf(p.authorities, qname), p.resources);
      GlueIsQuiet(w, st1, NsOf(p.authorities, qname), p.resources);
      QuietIsGood(w, st1, st2, depth);
      QuietVisited(st1, st2);
      var n: nat :| w.net(n, q) == Response(p);
      FollowOnEnds(w, st2, q, n, depth, limit, p, patience - 1, rank, length, hosts);
    }
  }

  lemma QuietVisited(st: State, st': State)
    requires Quiet(st, st')
    ensures st'.visited == st.visited
  {
  }

  lemma {:induction false} FollowOnEnds(w: World, st: State, q: Query, n: nat, depth: nat, limit: nat,
    p: Packet, patience: nat, rank: Query -> nat, length: nat, hosts: set<Name>)
    requires depth < MAX_RECURSION_DEPTH && Good(w, st) && w.net(n, q) == Response(p) && !Final(p)
    requires Descends(w, rank, length) && NamesAmong(w, hosts) && limit >= Turns(length, hosts)
    requires patience + 1 >= TurnsFrom(rank(q), length, hosts, st.visited)
    ensures FollowOn(w, st, q.qname, q.qtype, depth, limit, p, patience).1 != Done(Threw(OutOfPatience))
    decreases DepthLeft(depth), 0, patience, 1
  {
    hide Good, Grows, Follow, Resolve, ResolvedNs, UnresolvedNs, FirstA, Final, NamesAmong, Descends, Turns;
    ReplyLeads(w, rank, length, hosts, n, q, p);
    var qname, qtype := q.qname, q.qtype;
    var resolved, unresolved := ResolvedNs(p, qname), UnresolvedNs(p, qname);
    if resolved.Some? {
      FollowEnds(w, st, qname, qtype, depth, limit, resolved.value, patience, rank, length, hosts);
    } else if unresolved.Some? {
      var host := unresolved.value;
      var (st1, o) := Resolve(w, st, host, A, depth + 1, limit);
      ResolveIsGood(w, st, host, A, depth + 1, limit);
      ResolveEnds(w, st, host, A, depth + 1, limit, rank, length, hosts);
      HopConsumesFreshName(w, st, host, depth + 1, limit);
      GrowsTrace(st, st1, depth + 1);
      if o.Returned? && FirstA(o.packet.answers).Some? {
        var ip := FirstA(o.packet.answers).value;
        RankBelow(w, rank, length, Query(qname, qtype, ip));
        HopPays(rank(Query(qname, qtype, ip)), length, hosts, st.visited, st1.visited, host);
        FollowEnds(w, st1, qname, qtype, depth, limit, ip, patience, rank, length, hosts);
      }
    }
  }

  /** Every search ends, in one way, on a network whose chains of referrals with glue are finite and which refers to
      finitely many hosts by name; and it sends no more queries than a number known in advance. */
  lemma SearchEnds(w: World, st: State, qname: Name, qtype: QueryType, depth: nat,
    rank: Query -> nat, length: nat, hosts: set<Name>) returns (st': State, o: Outcome)
    requires Good(w, st) && Descends(w, rank, length) && NamesAmong(w, hosts)
    ensures Settles(w, st, qname, qtype, depth, st', o)
    ensures st'.sent <= st.sent + QueryBudget(w, depth, Turns(length, hosts))
    ensures forall st2, o2 :: Settles(w, st, qname, qtype, depth, st2, o2) ==> st2 == st' && o2 == o
  {
    hide Resolve, Good, Descends, NamesAmong, QueryBudget, Turns;
    var limit := Turns(length, hosts);
    ResolveEnds(w, st, qname, qtype, depth, limit, rank, length, hosts);
    QueriesAreBudgeted(w, st, qname, qtype, depth, limit);
    var r := Resolve(w, st, qname, qtype, depth, limit);
    st', o := r.0, r.1;
    forall st2, o2 | Settles(w, st, qname, qtype, depth, st2, o2) ensures st2 == st' && o2 == o {
      SettlesOnce(w, st, qname, qtype, depth, st', o, st2, o2);
    }
  }
}

/** How much a resolution does within a number of turns, that more turns change nothing once it ends, and where it
    starts. */
module ResolverBounds {
  import opened Bytes
  import opened StringUtils
  import opened QueryTypes
  import opened PacketWire
  import opened Referrals
  import opened ResolverModel
  import opened ResolverTheorems
  import opened ResolverOutcomes
  import CacheModel
  import CacheHistory

  // ----- queries sent -----

  function Tries(w: World): nat { if w.maxRetries > 0 then w.maxRetries else 0 }

  /** Queries one activation may cause, nested ones included: each of its referral turns is retried and may resolve
      one server name a level deeper. */
  function QueryBudget(w: World, depth: nat, limit: nat): nat
    decreases DepthLeft(depth)
  {
    if depth >= MAX_RECURSION_DEPTH then 0
    else |w.roots| * (limit * (Tries(w) + QueryBudget(w, depth + 1, limit)))
  }

  /** The share of one root server. */
  function RootBudget(w: World, depth: nat, limit: nat): nat { limit * (Tries(w) + QueryBudget(w, depth + 1, limit)) }

  lemma {:induction false} RetrySends(w: World, st: State, q: Query, depth: nat, attempt: nat)
    ensures Retry(w, st, q, depth, attempt).0.sent
      <= st.sent + (if attempt < w.maxRetries then w.maxRetries - attempt else 0)
    decreases w.maxRetries - attempt
  {
    if attempt < w.maxRetries && w.net(st.sent, q) == Timeout && attempt != w.maxRetries - 1 {
      RetrySends(w, Send(w, st, q, depth, attempt), q, depth, attempt + 1);
    }
  }

  /** No resolution sends more than its budget. */
  lemma {:induction false} QueriesAreBudgeted(w: World, st: State, qname: Name, qtype: QueryType, depth: nat,
    limit: nat)
    ensures Resolve(w, st, qname, qtype, depth, limit).0.sent <= st.sent + QueryBudget(w, depth, limit)
    decreases DepthLeft(depth), 2, 0
  {
    hide CacheLookup, FindCachedNs, TryRoots, QueryBudget, Quiet;
    if qname !in st.visited && depth < MAX_RECURSION_DEPTH {
      var st1 := Enter(st, qname, depth);
      var st2 := CacheLookup(w, st1, qname, qtype).0;
      LookupIsQuiet(w, st1, qname, qtype);
      QuietTrace(st1, st2);
      var (st3, ns) := FindCachedNs(w, st2, qname);
      FindCachedNsIsQuiet(w, st2, qname);
      QuietTrace(st2, st3);
      TryRootsBudgeted(w, st3, qname, qtype, depth, limit, ns, 0);
      BudgetUnfolds(w, depth, limit);
      hide RootBudget;
    }
  }

  lemma TurnsAddUp(turns: nat, cost: nat)
    ensures (turns + 1) * cost == turns * cost + cost
  {
  }

  lemma {:induction false} TryRootsBudgeted(w: World, st: State, qname: Name, qtype: QueryType, depth: nat, limit: nat,
    start: Option<IPv4>, i: nat)
    requires depth < MAX_RECURSION_DEPTH && i <= |w.roots|
    ensures TryRoots(w, st, qname, qtype, depth, limit, start, i).0.sent
      <= st.sent + (|w.roots| - i) * RootBudget(w, depth, limit)
    decreases DepthLeft(depth), 1, |w.roots| - i
  {
    hide Follow, RootBudget;
    var turn, left := RootBudget(w, depth, limit), |w.roots| - i;
    if i < |w.roots| {
      var server := if start.Some? then start.value else w.roots[i];
      FollowWithinRoot(w, st, qname, qtype, depth, limit, server);
      TurnsAddUp(left - 1, turn);
      NonNegative(left - 1, turn);
      var (st1, o) := Follow(w, st, qname, qtype, depth, limit, server, limit);
      if o.GaveUp? {
        TryRootsBudgeted(w, st1, qname, qtype, depth, limit, None, i + 1);
      }
    }
  }

  lemma {:induction false} FollowWithinRoot(w: World, st: State, qname: Name, qtype: QueryType, depth: nat, limit: nat,
    server: IPv4)
    requires depth < MAX_RECURSION_DEPTH
    ensures Follow(w, st, qname, qtype, depth, limit, server, limit).0.sent <= st.sent + RootBudget(w, depth, limit)
    decreases DepthLeft(depth), 0, limit, 2
  {
    hide Follow, QueryBudget;
    FollowBudgeted(w, st, qname, qtype, depth, limit, server, limit);
  }

  lemma BudgetUnfolds(w: World, depth: nat, limit: nat)
    requires depth < MAX_RECURSION_DEPTH
    ensures QueryBudget(w, depth, limit) == |w.roots| * RootBudget(w, depth, limit)
  {
  }

  lemma NonNegative(a: nat, b: nat)
    ensures a * b >= 0
  {
  }

  lemma {:induction false} FollowBudgeted(w: World, st: State, qname: Name, qtype: QueryType, depth: nat, limit: nat,
    server: IPv4, patience: nat)
    requires depth < MAX_RECURSION_DEPTH
    ensures Follow(w, st, qname, qtype, depth, limit, server, patience).0.sent
      <= st.sent + patience * (Tries(w) + QueryBudget(w, depth + 1, limit))
    decreases DepthLeft(depth), 0, patience, 0
  {
    hide Quiet, Retry, FollowOn, Conclude, CacheGlue, Final, NsOf, QueryBudget;
    if patience > 0 {
      var q, cost := Query(qname, qtype, server), Tries(w) + QueryBudget(w, depth + 1, limit);
      var (st1, r) := Retry(w, st, q, depth, 0);
      RetrySends(w, st, q, depth, 0);
      TurnsAddUp(patience - 1, cost);
      NonNegative(patience - 1, cost);
      if r.Got? {
        var p := r.packet;
        if Final(p) {
          ConcludeIsQuiet(w, st1, qname, qtype, p);
          QuietTrace(st1, Conclude(w, st1, qname, qtype, p));
        } else {
          var st2 := CacheGlue(w, st1, NsOf(p.authorities, qname), p.resources);
          GlueIsQuiet(w, st1, NsOf(p.authorities, qname), p.resources);
          QuietTrace(st1, st2);
          FollowOnBudgeted(w, st2, qname, qtype, depth, limit, p, patience - 1);
        }
      }
    }
  }

  lemma {:induction false} FollowOnBudgeted(w: World, st: State, qname: Name, qtype: QueryType, depth: nat, limit: nat,
    p: Packet, patience: nat)
    requires depth < MAX_RECURSION_DEPTH
    ensures FollowOn(w, st, qname, qtype, depth, limit, p, patience).0.sent
      <= st.sent + QueryBudget(w, depth + 1, limit) + patience * (Tries(w) + QueryBudget(w, depth + 1, limit))
    decreases DepthLeft(depth), 0, patience, 1
  {
    hide Follow, Resolve, ResolvedNs, UnresolvedNs, FirstA, QueryBudget, Tries;
    NonNegative(patience, Tries(w) + QueryBudget(w, depth + 1, limit));
    var resolved, unresolved := ResolvedNs(p, qname), UnresolvedNs(p, qname);
    if resolved.Some? {
      FollowBudgeted(w, st, qname, qtype, depth, limit, resolved.value, patience);
    } else if unresolved.Some? {
      var (st1, o) := Resolve(w, st, unresolved.value, A, depth + 1, limit);
      QueriesAreBudgeted(w, st, unresolved.value, A, depth + 1, limit);
      if o.Returned? && FirstA(o.packet.answers).Some? {
        FollowBudgeted(w, st1, qname, qtype, depth, limit, FirstA(o.packet.answers).value, patience);
      }
    }
  }

  // ----- the bound on referral loops does not shape the result -----

  /** A search that ends within `limit` turns per loop goes the same way, to the same state and outcome, under every
      larger bound: given finite chains of referrals the outcome is that of the source's unbounded loop. */
  lemma {:induction false} LimitIsIrrelevant(w: World, st: State, qname: Name, qtype: QueryType, depth: nat, limit: nat,
    more: nat)
    requires limit <= more && Resolve(w, st, qname, qtype, depth, limit).1 != Threw(OutOfPatience)
    ensures Resolve(w, st, qname, qtype, depth, more) == Resolve(w, st, qname, qtype, depth, limit)
    decreases DepthLeft(depth), 2, 0
  {
    hide CacheLookup, FindCachedNs, TryRoots, Enter;
    if qname !in st.visited && depth < MAX_RECURSION_DEPTH {
      var (st2, cached) := CacheLookup(w, Enter(st, qname, depth), qname, qtype);
      if cached.None? {
        var (st3, ns) := FindCachedNs(w, st2, qname);
        TryRootsLimit(w, st3, qname, qtype, depth, limit, more, ns, 0);
      }
    }
  }

  lemma {:induction false} TryRootsLimit(w: World, st: State, qname: Name, qtype: QueryType, depth: nat, limit: nat,
    more: nat, start: Option<IPv4>, i: nat)
    requires depth < MAX_RECURSION_DEPTH && limit <= more
    requires TryRoots(w, st, qname, qtype, depth, limit, start, i).1 != Threw(OutOfPatience)
    ensures TryRoots(w, st, qname, qtype, depth, more, start, i)
      == TryRoots(w, st, qname, qtype, depth, limit, start, i)
    decreases DepthLeft(depth), 1, |w.roots| - i
  {
    hide Follow;
    if i < |w.roots| {
      var server := if start.Some? then start.value else w.roots[i];
      FollowLimit(w, st, qname, qtype, depth, limit, more, server, limit, more);
      var (st1, o) := Follow(w, st, qname, qtype, depth, limit, server, limit);
      if o.GaveUp? {
        TryRootsLimit(w, st1, qname, qtype, depth, limit, more, None, i + 1);
      }
    }
  }

  lemma {:induction false} FollowLimit(w: World, st: State, qname: Name, qtype: QueryType, depth: nat, limit: nat,
    more: nat, server: IPv4,
    patience: nat, longer: nat)
    requires depth < MAX_RECURSION_DEPTH && limit <= more && patience <= longer
    requires Follow(w, st, qname, qtype, depth, limit, server, patience).1 != Done(Threw(OutOfPatience))
    ensures Follow(w, st, qname, qtype, depth, more, server, longer)
      == Follow(w, st, qname, qtype, depth, limit, server, patience)
    decreases DepthLeft(depth), 0, patience, 0
  {
    hide Retry, FollowOn, Conclude, CacheGlue, Final, NsOf;
    var (st1, r) := Retry(w, st, Query(qname, qtype, server), depth, 0);
    if r.Got? && !Final(r.packet) {
      var p := r.packet;
      FollowOnLimit(w, CacheGlue(w, st1, NsOf(p.authorities, qname), p.resources), qname, qtype, depth, limit, more, p,
        patience - 1, longer - 1);
    }
  }

  lemma {:induction false} FollowOnLimit(w: World, st: State, qname: Name, qtype: QueryType, depth: nat, limit: nat,
    more: nat, p: Packet,
    patience: nat, longer: nat)
    requires depth < MAX_RECURSION_DEPTH && limit <= more && patience <= longer
    requires FollowOn(w, st, qname, qtype, depth, limit, p, patience).1 != Done(Threw(OutOfPatience))
    ensures FollowOn(w, st, qname, qtype, depth, more, p, longer)
      == FollowOn(w, st, qname, qtype, depth, limit, p, patience)
    decreases DepthLeft(depth), 0, patience, 1
  {
    hide Follow, Resolve, ResolvedNs, UnresolvedNs, FirstA;
    var resolved, unresolved := ResolvedNs(p, qname), UnresolvedNs(p, qname);
    if resolved.Some? {
      FollowLimit(w, st, qname, qtype, depth, limit, more, resolved.value, patience, longer);
    } else if unresolved.Some? {
      LimitIsIrrelevant(w, st, unresolved.value, A, depth + 1, limit, more);
      var (st1, o) := Resolve(w, st, unresolved.value, A, depth + 1, limit);
      if o.Returned? && FirstA(o.packet.answers).Some? {
        FollowLimit(w, st1, qname, qtype, depth, limit, more, FirstA(o.packet.answers).value, patience, longer);
      }
    }
  }

  // ----- where a search starts -----

  /** The name and its parents, longest first. */
  function Parents(name: Name): seq<Name>
    decreases |name|
  {
    var dot := FirstDelim(name, DOT);
    [name] + if dot == |name| then [] else Parents(name[dot + 1..])
  }

  lemma {:induction false} ParentsShrink(name: Name, i: nat, j: nat)
    requires i < j < |Parents(name)|
    ensures |Parents(name)[j]| < |Parents(name)[i]| <= |name|
    decreases |name|
  {
    hide FirstDelim;
    var rest := name[FirstDelim(name, DOT) + 1..];
    if i == 0 {
      if j > 1 { ParentsShrink(rest, 0, j - 1); }
      ParentsHead(rest);
    } else {
      ParentsShrink(rest, i - 1, j - 1);
    }
  }

  /** The names tried are the name itself and what follows any of its dots. */
  lemma {:induction false} ParentsExactly(name: Name, parent: Name)
    ensures parent in Parents(name) <==>
      parent == name || exists i :: 0 <= i < |name| && name[i] == DOT && parent == name[i + 1..]
    decreases |name|
  {
    var dot := FirstDelim(name, DOT);
    if dot < |name| {
      var rest := name[dot + 1..];
      ParentsExactly(rest, parent);
      forall i | 0 <= i < dot ensures name[i] != DOT { assert name[..dot][i] == name[i]; }
      hide Parents, FirstDelim;
      if j :| 0 <= j < |rest| && rest[j] == DOT && parent == rest[j + 1..] {
        assert name[dot + 1 + j] == DOT && name[dot + 1 + j + 1..] == rest[j + 1..];
      }
      if i :| 0 <= i < |name| && name[i] == DOT && parent == name[i + 1..] {
        if i > dot { assert rest[i - dot - 1] == DOT && rest[i - dot - 1 + 1..] == name[i + 1..]; }
      }
    } else {
      assert name == name[..dot];
    }
  }

  lemma ParentsHead(name: Name)
    ensures Parents(name) != [] && Parents(name)[0] == name
  {
  }

  /** The address the i-th parent had in the NS cache, unexpired, at the instant the walk asks for it. */
  function ParentAddress(w: World, st: State, name: Name, i: nat): Option<IPv4>
    requires i < |Parents(name)|
  {
    CacheHistory.AddressAt(st.cache, Parents(name)[i], w.clock(st.ticks + i))
  }

  /** `found` is the address of the longest parent that has one. */
  ghost predicate LongestParent(w: World, st: State, name: Name, found: Option<IPv4>) {
    match found
    case None => forall i :: 0 <= i < |Parents(name)| ==> ParentAddress(w, st, name, i) == None
    case Some(ip) => exists i :: 0 <= i < |Parents(name)| && ParentAddress(w, st, name, i) == Some(ip)
                       && forall j :: 0 <= j < i ==> ParentAddress(w, st, name, j) == None
  }

  /** The walk stops at the longest dot-boundary suffix of the name that has an unexpired NS entry;
      it finds nothing only if no suffix has one. */
  lemma {:induction false} WalkFindsLongestParent(w: World, st: State, name: Name)
    ensures LongestParent(w, st, name, FindCachedNs(w, st, name).1)
    decreases |name|
  {
    hide FirstDelim, CacheModel.LookupNSStep, CacheHistory.AddressAt, LongestParent, ParentAddress;
    var now, dot := w.clock(st.ticks), FirstDelim(name, DOT);
    var (c, r) := CacheModel.LookupNSStep(st.cache, name, now);
    FirstParent(w, st, name);
    if r.Some? {
      FoundAtOnce(w, st, name);
    } else if dot == |name| {
      NoParents(w, st, name);
    } else {
      var st1, rest := Tick(st, c), name[dot + 1..];
      WalkFindsLongestParent(w, st1, rest);
      assert Parents(name)[1..] == Parents(rest);
      forall i | 0 <= i < |Parents(rest)| ensures ParentAddress(w, st1, rest, i) == ParentAddress(w, st, name, i + 1) {
        assert Parents(name)[i + 1] == Parents(name)[1..][i];
        ParentAddressShifts(w, st, name, c, rest, i);
      }
      WalkShifts(w, st, name, st1, rest, FindCachedNs(w, st1, rest).1);
    }
  }

  lemma FirstParent(w: World, st: State, name: Name)
    ensures Parents(name) != [] && Parents(name)[0] == name
    ensures ParentAddress(w, st, name, 0) == CacheModel.LookupNSStep(st.cache, name, w.clock(st.ticks)).1
  {
    ParentsHead(name);
    CacheHistory.LookupNSAnswer(st.cache, name, w.clock(st.ticks));
    hide Parents, CacheModel.LookupNSStep, CacheHistory.AddressAt;
  }

  lemma FoundAtOnce(w: World, st: State, name: Name)
    requires Parents(name) != [] && ParentAddress(w, st, name, 0).Some?
    ensures LongestParent(w, st, name, ParentAddress(w, st, name, 0))
  {
    hide ParentAddress, Parents;
  }

  lemma NoParents(w: World, st: State, name: Name)
    requires FirstDelim(name, DOT) == |name| && Parents(name) != [] && ParentAddress(w, st, name, 0) == None
    ensures LongestParent(w, st, name, None)
  {
    assert |Parents(name)| == 1;
    hide ParentAddress, Parents;
  }

  lemma ParentAddressShifts(w: World, st: State, name: Name, c: CacheModel.State, rest: Name, i: nat)
    requires c == CacheModel.LookupNSStep(st.cache, name, w.clock(st.ticks)).0
    requires i < |Parents(rest)| && |Parents(name)| == 1 + |Parents(rest)|
    requires Parents(name)[0] == name && Parents(name)[i + 1] == Parents(rest)[i]
    ensures ParentAddress(w, Tick(st, c), rest, i) == ParentAddress(w, st, name, i + 1)
  {
    hide Parents, CacheModel.LookupNSStep, CacheHistory.AddressAt;
    ParentsShrink(name, 0, i + 1);
    OtherAddressesStay(st.cache, name, w.clock(st.ticks), Parents(rest)[i], w.clock(st.ticks + i + 1));
    assert st.ticks + 1 + i == st.ticks + i + 1;
  }

  lemma OtherAddressesStay(c: CacheModel.State, name: Name, now: int, other: Name, later: int)
    requires other != name
    ensures CacheHistory.AddressAt(CacheModel.LookupNSStep(c, name, now).0, other, later)
      == CacheHistory.AddressAt(c, other, later)
  {
  }

  lemma WalkShifts(w: World, st: State, name: Name, st1: State, rest: Name, found: Option<IPv4>)
    requires |Parents(name)| == 1 + |Parents(rest)| && ParentAddress(w, st, name, 0) == None
    requires forall i :: 0 <= i < |Parents(rest)| ==>
      ParentAddress(w, st1, rest, i) == ParentAddress(w, st, name, i + 1)
    requires LongestParent(w, st1, rest, found)
    ensures LongestParent(w, st, name, found)
  {
    hide ParentAddress, Parents;
    forall i | 0 < i < |Parents(name)| ensures ParentAddress(w, st, name, i) == ParentAddress(w, st1, rest, i - 1) {
      assert ParentAddress(w, st1, rest, i - 1) == ParentAddress(w, st, name, i - 1 + 1);
    }
    if found.Some? {
      var i :| 0 <= i < |Parents(rest)| && ParentAddress(w, st1, rest, i) == Some(found.value)
        && forall j :: 0 <= j < i ==> ParentAddress(w, st1, rest, j) == None;
      assert ParentAddress(w, st, name, i + 1) == Some(found.value);
    }
  }
}

/** What a search asks, query by query: each event of its trace determines the next one, or the outcome. */
module ResolverTrace {
  import opened Bytes
  import opened QueryTypes
  import opened DnsRecords
  import opened PacketWire
  import opened Referrals
  import opened ResolverModel
  import opened ResolverTheorems
  import opened ResolverOutcomes
  import opened ResolverBounds

  /** A response that ends the search: a name that does not exist, a server failure, or answers without an error. */
  predicate EndsSearch(p: Packet) {
    || p.header.rescode == NXDOMAIN || p.header.rescode == SERVFAIL
    || (p.header.rescode == NOERROR && p.answers != [])
  }

  predicate Asks(e: Event, q: Query, depth: nat, attempt: nat) {
    e.Sent? && e.query == q && e.depth == depth && e.attempt == attempt
  }

  /** An activation asks for the type it was given, and those nested in it for addresses. */
  predicate TypeRule(e: Event, qtype: QueryType, depth: nat) {
    e.Sent? ==> e.query.qtype == if e.depth == depth then qtype else A
  }

  /** What follows the reply at `j` to a query of this activation, while it stays with one root server. */
  predicate TurnRule(w: World, t: seq<Event>, j: nat, qname: Name, qtype: QueryType, depth: nat, o: FollowOutcome)
    requires j < |t|
  {
    var e, last := t[j], j + 1 == |t|;
    e.Sent? && e.depth == depth ==>
      && e.query == Query(qname, qtype, e.query.server)
      && match e.reply
         case Timeout =>
           if e.attempt + 1 < w.maxRetries then !last && Asks(t[j + 1], e.query, depth, e.attempt + 1)
           else last && e.attempt + 1 == w.maxRetries && o == GaveUp
         case Failure => last && o == Done(Threw(NetworkFailed))
         case Response(p) =>
           if EndsSearch(p) then last && o == Done(Returned(p))
           else if ResolvedNs(p, qname).Some? then
             if last then o == Done(Threw(OutOfPatience))
             else Asks(t[j + 1], Query(qname, qtype, ResolvedNs(p, qname).value), depth, 0)
           else if UnresolvedNs(p, qname).Some? then
             if last then o == Done(Returned(p))
             else t[j + 1] == Entered(UnresolvedNs(p, qname).value, depth + 1)
           else last && o == Done(Returned(p))
  }

  /** The same for the whole activation: after the k-th query given up comes the k-th root server, while there is
      one. */
  predicate RootRule(w: World, t: seq<Event>, j: nat, qname: Name, qtype: QueryType, depth: nat, o: Outcome, k: int)
    requires j < |t|
  {
    if GivenUp(w, t[j], depth) then
      && t[j].query == Query(qname, qtype, t[j].query.server)
      && if 0 <= k < |w.roots| then j + 1 < |t| && Asks(t[j + 1], Query(qname, qtype, w.roots[k]), depth, 0)
         else j + 1 == |t| && o == Threw(AllRootsFailed(depth))
    else TurnRule(w, t, j, qname, qtype, depth, Done(o))
  }

  lemma TurnWidens(w: World, t1: seq<Event>, t: seq<Event>, j: nat, qname: Name, qtype: QueryType, depth: nat,
    o1: FollowOutcome, o: FollowOutcome)
    requires t1 <= t && j + 1 < |t1| && TurnRule(w, t1, j, qname, qtype, depth, o1)
    ensures TurnRule(w, t, j, qname, qtype, depth, o)
  {
    hide EndsSearch, ResolvedNs, UnresolvedNs;
    assert t[j] == t1[j] && t[j + 1] == t1[j + 1];
  }

  // ----- one query with its retries -----

  predicate RetryRule(w: World, t: seq<Event>, j: nat, q: Query, depth: nat, r: RetryOutcome)
    requires j < |t|
  {
    var e := t[j];
    && e.Sent? && e.query == q && e.depth == depth
    && if j + 1 < |t| then
         e.reply == Timeout && e.attempt + 1 < w.maxRetries && Asks(t[j + 1], q, depth, e.attempt + 1)
       else match r
         case TimedOut => e.reply == Timeout && e.attempt + 1 == w.maxRetries
         case Got(p) => e.reply == Response(p)
         case Failed => e.reply == Failure
         case NotTried => false
  }

  lemma {:induction false} RetryRules(w: World, st: State, q: Query, depth: nat, attempt: nat)
    requires attempt < w.maxRetries
    ensures var (st', r) := Retry(w, st, q, depth, attempt);
      && st.trace < st'.trace && Asks(st'.trace[|st.trace|], q, depth, attempt)
      && forall j :: |st.trace| <= j < |st'.trace| ==> RetryRule(w, st'.trace, j, q, depth, r)
    decreases w.maxRetries - attempt
  {
    var st1 := Send(w, st, q, depth, attempt);
    var e := Sent(q, depth, attempt, w.net(st.sent, q));
    assert st1.trace == st.trace + [e];
    if w.net(st.sent, q) == Timeout && attempt != w.maxRetries - 1 {
      RetryRules(w, st1, q, depth, attempt + 1);
      var st' := Retry(w, st1, q, depth, attempt + 1).0;
      assert st'.trace[|st.trace|] == st1.trace[|st.trace|] == e;
    }
  }

  // ----- the referral loop -----

  predicate Ruled(w: World, from: nat, t: seq<Event>, qname: Name, qtype: QueryType, depth: nat, o: FollowOutcome) {
    forall j :: from <= j < |t| ==> TurnRule(w, t, j, qname, qtype, depth, o) && TypeRule(t[j], qtype, depth)
  }

  lemma {:induction false} FollowRules(w: World, st: State, qname: Name, qtype: QueryType, depth: nat, limit: nat,
    server: IPv4, patience: nat)
    requires depth < MAX_RECURSION_DEPTH && Good(w, st)
    ensures var (st', o) := Follow(w, st, qname, qtype, depth, limit, server, patience);
      && st.trace <= st'.trace && Ruled(w, |st.trace|, st'.trace, qname, qtype, depth, o)
      && (patience > 0 && w.maxRetries > 0 ==>
            st.trace < st'.trace && Asks(st'.trace[|st.trace|], Query(qname, qtype, server), depth, 0))
      && (patience == 0 ==> st'.trace == st.trace && o == Done(Threw(OutOfPatience)))
    decreases DepthLeft(depth), 0, patience, 0
  {
    hide Good, Grows, Quiet, FollowOn, Conclude, CacheGlue, NsOf, ResolvedNs, UnresolvedNs, Retry, Final, EndsSearch,
      RetryRule, TurnRule, TypeRule;
    if patience > 0 && w.maxRetries > 0 {
      var q := Query(qname, qtype, server);
      var (st1, r) := Retry(w, st, q, depth, 0);
      RetryIsGood(w, st, q, depth, 0);
      RetryRules(w, st, q, depth, 0);
      if r.Got? {
        var p := r.packet;
        if Final(p) {
          ConcludeIsQuiet(w, st1, qname, qtype, p);
          QuietTrace(st1, Conclude(w, st1, qname, qtype, p));
          RetryEnds(w, |st.trace|, st1.trace, q, depth, r, Done(Returned(p)));
        } else {
          var st2 := CacheGlue(w, st1, NsOf(p.authorities, qname), p.resources);
          GlueIsQuiet(w, st1, NsOf(p.authorities, qname), p.resources);
          QuietIsGood(w, st1, st2, depth);
          QuietTrace(st1, st2);
          FollowOnRules(w, st2, qname, qtype, depth, limit, p, patience - 1);
          var (st', o) := FollowOn(w, st2, qname, qtype, depth, limit, p, patience - 1);
          RetryThenMore(w, |st.trace|, st1.trace, st'.trace, q, depth, p, o);
        }
      } else {
        LastRule(w, st1.trace, |st1.trace| - 1, q, depth, r);
        RetryEnds(w, |st.trace|, st1.trace, q, depth, r, if r.TimedOut? then GaveUp else Done(Threw(NetworkFailed)));
      }
    } else if patience > 0 {
      NoAttempt(w, st, Query(qname, qtype, server), depth);
    }
  }

  lemma NoAttempt(w: World, st: State, q: Query, depth: nat)
    requires w.maxRetries <= 0
    ensures Retry(w, st, q, depth, 0) == (st, NotTried)
  {
  }

  lemma LastRule(w: World, t: seq<Event>, j: nat, q: Query, depth: nat, r: RetryOutcome)
    requires j + 1 == |t| && RetryRule(w, t, j, q, depth, r)
    ensures r != NotTried
  {
  }

  /** The loop ends with the outcome of its last query. */
  lemma RetryEnds(w: World, from: nat, t: seq<Event>, q: Query, depth: nat, r: RetryOutcome, o: FollowOutcome)
    requires forall j :: from <= j < |t| ==> RetryRule(w, t, j, q, depth, r)
    requires match r
      case TimedOut => o == GaveUp
      case Failed => o == Done(Threw(NetworkFailed))
      case Got(p) => Final(p) && o == Done(Returned(p))
      case NotTried => false
    ensures Ruled(w, from, t, q.qname, q.qtype, depth, o)
  {
    hide ResolvedNs, UnresolvedNs;
    assert Query(q.qname, q.qtype, q.server) == q;
    forall j | from <= j < |t| ensures TurnRule(w, t, j, q.qname, q.qtype, depth, o) && TypeRule(t[j], q.qtype, depth) {
      assert RetryRule(w, t, j, q, depth, r);
    }
  }

  /** What may follow a referral `p`. */
  predicate HeadRule(w: World, from: nat, t: seq<Event>, p: Packet, qname: Name, qtype: QueryType, depth: nat,
    o: FollowOutcome)
  {
    var more := from < |t|;
    if ResolvedNs(p, qname).Some? then
      if more then Asks(t[from], Query(qname, qtype, ResolvedNs(p, qname).value), depth, 0)
      else o == Done(Threw(OutOfPatience))
    else if UnresolvedNs(p, qname).Some? then
      if more then t[from] == Entered(UnresolvedNs(p, qname).value, depth + 1) else o == Done(Returned(p))
    else !more && o == Done(Returned(p))
  }

  lemma RetryThenMore(w: World, from: nat, t1: seq<Event>, t: seq<Event>, q: Query, depth: nat, p: Packet,
    o: FollowOutcome)
    requires from < |t1| && t1 <= t && !Final(p)
    requires forall j :: from <= j < |t1| ==> RetryRule(w, t1, j, q, depth, Got(p))
    requires HeadRule(w, |t1|, t, p, q.qname, q.qtype, depth, o) && Ruled(w, |t1|, t, q.qname, q.qtype, depth, o)
    ensures Ruled(w, from, t, q.qname, q.qtype, depth, o)
  {
    hide ResolvedNs, UnresolvedNs;
    assert Query(q.qname, q.qtype, q.server) == q;
    forall j | from <= j < |t| ensures TurnRule(w, t, j, q.qname, q.qtype, depth, o) && TypeRule(t[j], q.qtype, depth) {
      if j < |t1| {
        assert RetryRule(w, t1, j, q, depth, Got(p)) && t[j] == t1[j];
        if j + 1 < |t1| { assert t[j + 1] == t1[j + 1]; }
      }
    }
  }

  lemma {:induction false} FollowOnRules(w: World, st: State, qname: Name, qtype: QueryType, depth: nat, limit: nat,
    p: Packet, patience: nat)
    requires depth < MAX_RECURSION_DEPTH && Good(w, st) && w.maxRetries > 0
    ensures var (st', o) := FollowOn(w, st, qname, qtype, depth, limit, p, patience);
      && st.trace <= st'.trace && Ruled(w, |st.trace|, st'.trace, qname, qtype, depth, o)
      && HeadRule(w, |st.trace|, st'.trace, p, qname, qtype, depth, o)
    decreases DepthLeft(depth), 0, patience, 1
  {
    hide Good, Grows, Follow, Resolve, ResolvedNs, UnresolvedNs, FirstA, TurnRule, TypeRule;
    var resolved, unresolved := ResolvedNs(p, qname), UnresolvedNs(p, qname);
    if resolved.Some? {
      FollowRules(w, st, qname, qtype, depth, limit, resolved.value, patience);
    } else if unresolved.Some? {
      var host := unresolved.value;
      var (st1, o1) := Resolve(w, st, host, A, depth + 1, limit);
      ResolveIsGood(w, st, host, A, depth + 1, limit);
      ResolveRules(w, st, host, A, depth + 1, limit);
      ResolveEnters(w, st, host, A, depth + 1, limit);
      RefusalHasNoAddress();
      GrowsTrace(st, st1, depth + 1);
      NestedRuled(w, st, st1, qname, qtype, depth);
      if o1.Returned? && FirstA(o1.packet.answers).Some? {
        var ip := FirstA(o1.packet.answers).value;
        FollowRules(w, st1, qname, qtype, depth, limit, ip, patience);
        var (st', o) := Follow(w, st1, qname, qtype, depth, limit, ip, patience);
        NestedThenMore(w, |st.trace|, st1.trace, st'.trace, qname, qtype, depth, o);
        assert st'.trace[|st.trace|] == st1.trace[|st.trace|];
      } else {
        NestedOnly(w, |st.trace|, st1.trace, qname, qtype, depth,
          FollowOn(w, st, qname, qtype, depth, limit, p, patience).1);
      }
    }
  }

  lemma RefusalHasNoAddress()
    ensures FirstA(SERVFAIL_RESPONSE.answers).None?
  {
  }

  /** The events of a nested activation: none of them at this depth, and all of them for addresses. */
  predicate Nested(from: nat, t: seq<Event>, depth: nat) {
    forall j :: from <= j < |t| ==> t[j].depth > depth && (t[j].Sent? ==> t[j].query.qtype == A)
  }

  lemma NestedRuled(w: World, st: State, st1: State, qname: Name, qtype: QueryType, depth: nat)
    requires Grows(st, st1, depth + 1)
    requires forall j :: |st.trace| <= j < |st1.trace| ==> TypeRule(st1.trace[j], A, depth + 1)
    ensures Nested(|st.trace|, st1.trace, depth)
  {
    forall j | |st.trace| <= j < |st1.trace|
      ensures st1.trace[j].depth > depth && (st1.trace[j].Sent? ==> st1.trace[j].query.qtype == A)
    {
      assert TypeRule(st1.trace[j], A, depth + 1) && DepthOf(st1.trace[j]) >= depth + 1;
    }
  }

  lemma NestedOnly(w: World, from: nat, t: seq<Event>, qname: Name, qtype: QueryType, depth: nat, o: FollowOutcome)
    requires Nested(from, t, depth)
    ensures Ruled(w, from, t, qname, qtype, depth, o)
  {
    hide EndsSearch, ResolvedNs, UnresolvedNs;
  }

  lemma NestedThenMore(w: World, from: nat, t1: seq<Event>, t: seq<Event>, qname: Name, qtype: QueryType,
    depth: nat, o: FollowOutcome)
    requires from <= |t1| && t1 <= t && Nested(from, t1, depth) && Ruled(w, |t1|, t, qname, qtype, depth, o)
    ensures Ruled(w, from, t, qname, qtype, depth, o)
  {
    hide EndsSearch, ResolvedNs, UnresolvedNs;
    forall j | from <= j < |t| ensures TurnRule(w, t, j, qname, qtype, depth, o) && TypeRule(t[j], qtype, depth) {
      if j < |t1| { assert t[j] == t1[j]; }
    }
  }

  // ----- the root servers -----

  /** The rule for the event at `j`, where the loop began with root server `i` behind the events `base`. */
  predicate RootRuleAt(w: World, base: seq<Event>, t: seq<Event>, j: nat, qname: Name, qtype: QueryType, depth: nat,
    o: Outcome, i: nat)
    requires j < |t|
  {
    && TypeRule(t[j], qtype, depth)
    && RootRule(w, t, j, qname, qtype, depth, o, i + GiveUps(w, t[..j + 1], depth) - GiveUps(w, base, depth))
  }

  predicate RootsRuled(w: World, base: seq<Event>, t: seq<Event>, qname: Name, qtype: QueryType, depth: nat, o: Outcome,
    i: nat)
  {
    forall j :: |base| <= j < |t| ==> RootRuleAt(w, base, t, j, qname, qtype, depth, o, i)
  }

  lemma {:induction false} TryRootsRules(w: World, st: State, qname: Name, qtype: QueryType, depth: nat, limit: nat,
    start: Option<IPv4>, i: nat)
    requires depth < MAX_RECURSION_DEPTH && Good(w, st)
    ensures var (st', o) := TryRoots(w, st, qname, qtype, depth, limit, start, i);
      && st.trace <= st'.trace && RootsRuled(w, st.trace, st'.trace, qname, qtype, depth, o, i)
      && (i < |w.roots| && limit > 0 && w.maxRetries > 0 ==>
            && st.trace < st'.trace
            && Asks(st'.trace[|st.trace|], Query(qname, qtype, if start.Some? then start.value else w.roots[i]), depth,
                 0))
    decreases DepthLeft(depth), 1, |w.roots| - i
  {
    hide Good, Grows, Follow, TurnRule, TypeRule, GiveUps, RootRuleAt;
    if i < |w.roots| {
      var server := if start.Some? then start.value else w.roots[i];
      var (st1, f) := Follow(w, st, qname, qtype, depth, limit, server, limit);
      FollowRules(w, st, qname, qtype, depth, limit, server, limit);
      FollowIsGood(w, st, qname, qtype, depth, limit, server, limit);
      FollowGiveUps(w, st, qname, qtype, depth, limit, server, limit);
      if f.GaveUp? {
        TryRootsRules(w, st1, qname, qtype, depth, limit, None, i + 1);
        var (st', o) := TryRoots(w, st1, qname, qtype, depth, limit, None, i + 1);
        GaveUpTried(w, st, qname, qtype, depth, limit, server);
        RootThenMore(w, st.trace, st1.trace, st'.trace, qname, qtype, depth, o, i);
      } else {
        RootAlone(w, st.trace, st1.trace, qname, qtype, depth, f.outcome, i);
      }
    }
  }

  lemma GaveUpTried(w: World, st: State, qname: Name, qtype: QueryType, depth: nat, limit: nat, server: IPv4)
    requires depth < MAX_RECURSION_DEPTH && Follow(w, st, qname, qtype, depth, limit, server, limit).1 == GaveUp
    ensures limit > 0 && (w.maxRetries > 0)
  {
    hide FollowOn, CacheGlue, Conclude;
    if w.maxRetries <= 0 { NoAttempt(w, st, Query(qname, qtype, server), depth); }
  }

  /** Without a query given up only the turn rules apply. */
  lemma RootAlone(w: World, base: seq<Event>, t: seq<Event>, qname: Name, qtype: QueryType, depth: nat,
    o: Outcome, i: nat)
    requires base <= t && Ruled(w, |base|, t, qname, qtype, depth, Done(o))
    ensures RootsRuled(w, base, t, qname, qtype, depth, o, i)
  {
    hide TypeRule, GiveUps;
    forall j | |base| <= j < |t| ensures RootRuleAt(w, base, t, j, qname, qtype, depth, o, i) {
      NotGivenUp(w, t, j, qname, qtype, depth, o);
    }
  }

  lemma NotGivenUp(w: World, t: seq<Event>, j: nat, qname: Name, qtype: QueryType, depth: nat, o: Outcome)
    requires j < |t| && TurnRule(w, t, j, qname, qtype, depth, Done(o))
    ensures !GivenUp(w, t[j], depth)
  {
    hide EndsSearch, ResolvedNs, UnresolvedNs;
  }

  lemma RootThenMore(w: World, base: seq<Event>, t1: seq<Event>, t: seq<Event>, qname: Name, qtype: QueryType,
    depth: nat, o: Outcome, i: nat)
    requires base <= t1 <= t && i < |w.roots| && Ruled(w, |base|, t1, qname, qtype, depth, GaveUp)
    requires RootsRuled(w, t1, t, qname, qtype, depth, o, i + 1)
    requires GiveUps(w, t1, depth) == GiveUps(w, base, depth) + 1
    requires AfterGiveUp(w, t1, t, qname, qtype, depth, o, i + 1)
    ensures RootsRuled(w, base, t, qname, qtype, depth, o, i)
  {
    hide TurnRule, TypeRule, GiveUps, RootRuleAt, AfterGiveUp;
    forall j | |base| <= j < |t| ensures RootRuleAt(w, base, t, j, qname, qtype, depth, o, i) {
      if j >= |t1| {
        assert RootRuleAt(w, t1, t, j, qname, qtype, depth, o, i + 1);
        SameRule(w, base, t1, t, j, qname, qtype, depth, o, i);
      } else {
        assert TurnRule(w, t1, j, qname, qtype, depth, GaveUp) && TypeRule(t1[j], qtype, depth) && t[j] == t1[j];
        if j + 1 < |t1| {
          TurnWidens(w, t1, t, j, qname, qtype, depth, GaveUp, Done(o));
          NotGivenUp(w, t, j, qname, qtype, depth, o);
          InsideLoop(w, base, t, j, qname, qtype, depth, o, i);
        } else {
          LastOfLoop(w, t1, j, qname, qtype, depth);
          AtGiveUp(w, base, t1, t, j, qname, qtype, depth, o, i);
        }
      }
    }
  }

  /** What follows when all servers before the k-th root server have been given up. */
  predicate AfterGiveUp(w: World, t1: seq<Event>, t: seq<Event>, qname: Name, qtype: QueryType, depth: nat, o: Outcome,
    k: nat)
  {
    if k < |w.roots| then |t1| < |t| && Asks(t[|t1|], Query(qname, qtype, w.roots[k]), depth, 0)
    else t == t1 && o == Threw(AllRootsFailed(depth))
  }

  lemma SameRule(w: World, base: seq<Event>, t1: seq<Event>, t: seq<Event>, j: nat, qname: Name, qtype: QueryType,
    depth: nat, o: Outcome, i: nat)
    requires j < |t| && RootRuleAt(w, t1, t, j, qname, qtype, depth, o, i + 1)
    requires GiveUps(w, t1, depth) == GiveUps(w, base, depth) + 1
    ensures RootRuleAt(w, base, t, j, qname, qtype, depth, o, i)
  {
    hide RootRule, TypeRule, GiveUps;
    var (a, b, c) := (GiveUps(w, t[..j + 1], depth), GiveUps(w, t1, depth), GiveUps(w, base, depth));
    assert i + 1 + a - b == i + a - c;
  }

  lemma InsideLoop(w: World, base: seq<Event>, t: seq<Event>, j: nat, qname: Name, qtype: QueryType, depth: nat,
    o: Outcome, i: nat)
    requires j < |t| && !GivenUp(w, t[j], depth) && TypeRule(t[j], qtype, depth)
    requires TurnRule(w, t, j, qname, qtype, depth, Done(o))
    ensures RootRuleAt(w, base, t, j, qname, qtype, depth, o, i)
  {
    hide TurnRule, TypeRule, GiveUps, GivenUp;
  }

  lemma AtGiveUp(w: World, base: seq<Event>, t1: seq<Event>, t: seq<Event>, j: nat, qname: Name, qtype: QueryType,
    depth: nat, o: Outcome, i: nat)
    requires j + 1 == |t1| && t1 <= t && TypeRule(t[j], qtype, depth)
    requires GivenUp(w, t[j], depth) ==> t[j].query == Query(qname, qtype, t[j].query.server)
    requires !GivenUp(w, t[j], depth) ==> !t[j].Sent? || t[j].depth != depth
    requires GiveUps(w, t1, depth) == GiveUps(w, base, depth) + 1
    requires AfterGiveUp(w, t1, t, qname, qtype, depth, o, i + 1)
    ensures RootRuleAt(w, base, t, j, qname, qtype, depth, o, i)
  {
    hide TypeRule, GiveUps, EndsSearch, ResolvedNs, UnresolvedNs;
    assert t[..j + 1] == t1;
  }

  /** The last event of a loop that gave up. */
  lemma LastOfLoop(w: World, t: seq<Event>, j: nat, qname: Name, qtype: QueryType, depth: nat)
    requires j + 1 == |t| && TurnRule(w, t, j, qname, qtype, depth, GaveUp)
    ensures GivenUp(w, t[j], depth) ==> t[j].query == Query(qname, qtype, t[j].query.server)
    ensures !GivenUp(w, t[j], depth) ==> !t[j].Sent? || t[j].depth != depth
  {
    hide EndsSearch, ResolvedNs, UnresolvedNs;
  }

  /** The events of any activation, however it ends. */
  lemma {:induction false} ResolveRules(w: World, st: State, qname: Name, qtype: QueryType, depth: nat, limit: nat)
    requires Good(w, st)
    ensures var st' := Resolve(w, st, qname, qtype, depth, limit).0;
      && st.trace <= st'.trace
      && (forall j :: |st.trace| <= j < |st'.trace| ==> TypeRule(st'.trace[j], qtype, depth))
      && if qname in st.visited then st'.trace == st.trace
         else |st.trace| < |st'.trace| && st'.trace[|st.trace|] == Entered(qname, depth)
    decreases DepthLeft(depth), 2, 0
  {
    hide Good, Grows, Quiet, CacheLookup, FindCachedNs, TryRoots, TypeRule, RootRuleAt;
    if qname !in st.visited {
      Entering(st, qname, qtype, depth);
      if depth < MAX_RECURSION_DEPTH {
        var (st3, ns) := Looked(w, st, qname, qtype, depth);
        LookedIsQuiet(w, st, qname, qtype, depth);
        var (st', o) := TryRoots(w, st3, qname, qtype, depth, limit, ns, 0);
        TryRootsRules(w, st3, qname, qtype, depth, limit, ns, 0);
        OnlyTypes(w, st.trace, st'.trace, qname, qtype, depth, o);
        assert st'.trace[|st.trace|] == st3.trace[|st.trace|];
      }
    }
  }

  lemma Entering(st: State, qname: Name, qtype: QueryType, depth: nat)
    ensures Enter(st, qname, depth).trace == st.trace + [Entered(qname, depth)]
    ensures TypeRule(Entered(qname, depth), qtype, depth)
  {
  }

  /** The state in which an unanswered activation turns to the root servers, and the cached server it begins with. */
  function Looked(w: World, st: State, qname: Name, qtype: QueryType, depth: nat): (State, Option<IPv4>) {
    FindCachedNs(w, CacheLookup(w, Enter(st, qname, depth), qname, qtype).0, qname)
  }

  lemma LookedIsQuiet(w: World, st: State, qname: Name, qtype: QueryType, depth: nat)
    requires Good(w, st) && qname !in st.visited
    ensures CacheLookup(w, Enter(st, qname, depth), qname, qtype).0.trace == st.trace + [Entered(qname, depth)]
    ensures var st3 := Looked(w, st, qname, qtype, depth).0;
      Good(w, st3) && st3.trace == st.trace + [Entered(qname, depth)]
  {
    hide Good, Grows, Quiet, CacheLookup, FindCachedNs;
    var st1 := Enter(st, qname, depth);
    EnterIsGood(w, st, qname, depth);
    var st2 := CacheLookup(w, st1, qname, qtype).0;
    LookupIsQuiet(w, st1, qname, qtype);
    QuietIsGood(w, st1, st2, depth);
    QuietTrace(st1, st2);
    var st3 := FindCachedNs(w, st2, qname).0;
    FindCachedNsIsQuiet(w, st2, qname);
    QuietIsGood(w, st2, st3, depth);
    QuietTrace(st2, st3);
  }

  lemma OnlyTypes(w: World, base: seq<Event>, t: seq<Event>, qname: Name, qtype: QueryType, depth: nat, o: Outcome)
    requires base + [Entered(qname, depth)] <= t
    requires RootsRuled(w, base + [Entered(qname, depth)], t, qname, qtype, depth, o, 0)
    ensures forall j :: |base| <= j < |t| ==> TypeRule(t[j], qtype, depth)
  {
    hide RootRule;
    var longer := base + [Entered(qname, depth)];
    forall j | |base| <= j < |t| ensures TypeRule(t[j], qtype, depth) {
      if j > |base| { assert RootRuleAt(w, longer, t, j, qname, qtype, depth, o, 0); }
      else { assert t[j] == longer[j]; }
    }
  }

  // ----- whole activations -----

  /** The server to begin with: that of the longest cached parent, else the first root server. */
  ghost predicate BeginsWith(w: World, st: State, qname: Name, server: IPv4)
    requires w.roots != []
  {
    exists ns :: LongestParent(w, st, qname, ns) && server == if ns.Some? then ns.value else w.roots[0]
  }

  predicate Unanswered(w: World, st: State, qname: Name, qtype: QueryType, depth: nat) {
    && depth < MAX_RECURSION_DEPTH && qname !in st.visited
    && CacheLookup(w, Enter(st, qname, depth), qname, qtype).1 == None
  }

  /** Everything an activation asks, if the cache does not answer it: its first query, and what follows each event. */
  lemma SearchFollowsRules(w: World, st: State, qname: Name, qtype: QueryType, depth: nat, limit: nat)
    requires Good(w, st) && Unanswered(w, st, qname, qtype, depth) && limit > 0 && w.roots != []
    ensures var (st', o) := Resolve(w, st, qname, qtype, depth, limit);
      var t, entered := st'.trace, st.trace + [Entered(qname, depth)];
      && entered <= t
      && (if w.maxRetries > 0 then
            && entered < t && t[|entered|].Sent?
            && Asks(t[|entered|], Query(qname, qtype, t[|entered|].query.server), depth, 0)
            && BeginsWith(w, CacheLookup(w, Enter(st, qname, depth), qname, qtype).0, qname,
                 t[|entered|].query.server)
          else t == entered && o == Threw(NoAttempts))
      && forall j :: |entered| <= j < |t| ==> RootRuleAt(w, st.trace, t, j, qname, qtype, depth, o, 0)
  {
    hide Good, Grows, Quiet, CacheLookup, FindCachedNs, TryRoots, TypeRule, RootRuleAt, GiveUps, Enter, LongestParent;
    var (st3, ns) := Looked(w, st, qname, qtype, depth);
    LookedIsQuiet(w, st, qname, qtype, depth);
    var st2 := CacheLookup(w, Enter(st, qname, depth), qname, qtype).0;
    WalkFindsLongestParent(w, st2, qname);
    var (st', o) := TryRoots(w, st3, qname, qtype, depth, limit, ns, 0);
    TryRootsRules(w, st3, qname, qtype, depth, limit, ns, 0);
    EnteredCounts(w, st.trace, st'.trace, qname, qtype, depth, o);
    if w.maxRetries <= 0 { NothingTried(w, st3, qname, qtype, depth, limit, ns); }
  }

  lemma NothingTried(w: World, st: State, qname: Name, qtype: QueryType, depth: nat, limit: nat, start: Option<IPv4>)
    requires depth < MAX_RECURSION_DEPTH && w.roots != [] && w.maxRetries <= 0 && limit > 0
    ensures TryRoots(w, st, qname, qtype, depth, limit, start, 0) == (st, Threw(NoAttempts))
  {
    hide FollowOn, CacheGlue, Conclude;
    NoAttempt(w, st, Query(qname, qtype, if start.Some? then start.value else w.roots[0]), depth);
  }

  lemma EnteredCounts(w: World, base: seq<Event>, t: seq<Event>, qname: Name, qtype: QueryType, depth: nat, o: Outcome)
    requires RootsRuled(w, base + [Entered(qname, depth)], t, qname, qtype, depth, o, 0)
    ensures forall j :: |base| < j < |t| ==> RootRuleAt(w, base, t, j, qname, qtype, depth, o, 0)
  {
    var longer := base + [Entered(qname, depth)];
    GiveUpsSnoc(w, base, Entered(qname, depth), depth);
    hide RootRule, TypeRule, GiveUps;
    forall j | |base| < j < |t| ensures RootRuleAt(w, base, t, j, qname, qtype, depth, o, 0) {
      assert RootRuleAt(w, longer, t, j, qname, qtype, depth, o, 0);
    }
  }

  /** The event at which the count of given-up queries reaches `n` more than at `base`. */
  lemma {:induction false} NthGiveUp(w: World, base: seq<Event>, t: seq<Event>, depth: nat, n: nat) returns (j: nat)
    requires base <= t && 0 < n <= GiveUps(w, t, depth) - GiveUps(w, base, depth)
    ensures |base| <= j < |t| && GivenUp(w, t[j], depth)
    ensures GiveUps(w, t[..j + 1], depth) == GiveUps(w, base, depth) + n
    decreases |t|
  {
    hide GivenUp;
    var last := |t| - 1;
    if base == t {
      assert false;
    } else if n <= GiveUps(w, t[..last], depth) - GiveUps(w, base, depth) {
      j := NthGiveUp(w, base, t[..last], depth, n);
      assert t[..last][..j + 1] == t[..j + 1];
    } else {
      j := last;
      assert t[..j + 1] == t;
    }
  }

  /** An activation that reports that all root servers failed gave up one query for each of them, and right after the
      i-th of these it asked its question of root server i. */
  lemma ExhaustionAsksEveryRoot(w: World, st: State, qname: Name, qtype: QueryType, depth: nat, limit: nat, i: nat)
    returns (j: nat)
    requires Good(w, st) && w.roots != [] && 0 < i < |w.roots|
    requires Resolve(w, st, qname, qtype, depth, limit).1 == Threw(AllRootsFailed(depth))
    ensures var t := Resolve(w, st, qname, qtype, depth, limit).0.trace;
      && |st.trace| <= j && j + 1 < |t| && GivenUp(w, t[j], depth)
      && GiveUps(w, t[..j + 1], depth) == GiveUps(w, st.trace, depth) + i
      && t[j].query == Query(qname, qtype, t[j].query.server)
      && Asks(t[j + 1], Query(qname, qtype, w.roots[i]), depth, 0)
  {
    hide Good, Grows, Resolve, GiveUps, Asks, LongestParent;
    var (st', o) := Resolve(w, st, qname, qtype, depth, limit);
    ResolveGiveUps(w, st, qname, qtype, depth, limit);
    ResolveIsGood(w, st, qname, qtype, depth, limit);
    GrowsTrace(st, st', depth);
    j := NthGiveUp(w, st.trace, st'.trace, depth, i);
    ExhaustedWasUnanswered(w, st, qname, qtype, depth, limit);
    SearchFollowsRules(w, st, qname, qtype, depth, limit);
    assert j != |st.trace|;
    assert RootRuleAt(w, st.trace, st'.trace, j, qname, qtype, depth, o, 0);
  }

  lemma ExhaustedWasUnanswered(w: World, st: State, qname: Name, qtype: QueryType, depth: nat, limit: nat)
    requires w.roots != [] && Resolve(w, st, qname, qtype, depth, limit).1 == Threw(AllRootsFailed(depth))
    ensures Unanswered(w, st, qname, qtype, depth) && limit > 0
  {
    hide CacheLookup, FindCachedNs, Enter, FollowOn;
    if limit == 0 {
      var (st3, ns) := Looked(w, st, qname, qtype, depth);
      var server := if ns.Some? then ns.value else w.roots[0];
      assert Follow(w, st3, qname, qtype, depth, 0, server, 0).1 == Done(Threw(OutOfPatience));
    }
  }

  /** A reply that ends the search is the last thing that happens, and the search returns it. */
  lemma FinalReplyIsReturned(w: World, st: State, qname: Name, qtype: QueryType, depth: nat, limit: nat, j: nat)
    requires Good(w, st) && Unanswered(w, st, qname, qtype, depth) && limit > 0 && w.roots != []
    requires var t := Resolve(w, st, qname, qtype, depth, limit).0.trace;
      && |st.trace| <= j < |t| && t[j].Sent? && t[j].depth == depth
      && t[j].reply.Response? && EndsSearch(t[j].reply.packet)
    ensures var (st', o) := Resolve(w, st, qname, qtype, depth, limit);
      j + 1 == |st'.trace| && o == Returned(st'.trace[j].reply.packet)
  {
    hide Good, Resolve, GiveUps, Asks, LongestParent, EndsSearch, ResolvedNs, UnresolvedNs;
    var (st', o) := Resolve(w, st, qname, qtype, depth, limit);
    SearchFollowsRules(w, st, qname, qtype, depth, limit);
    assert j != |st.trace|;
    assert RootRuleAt(w, st.trace, st'.trace, j, qname, qtype, depth, o, 0);
    AtFinalReply(w, st'.trace, j, qname, qtype, depth, o,
      GiveUps(w, st'.trace[..j + 1], depth) - GiveUps(w, st.trace, depth));
  }

  lemma AtFinalReply(w: World, t: seq<Event>, j: nat, qname: Name, qtype: QueryType, depth: nat, o: Outcome, k: int)
    requires j < |t| && RootRule(w, t, j, qname, qtype, depth, o, k)
    requires t[j].Sent? && t[j].depth == depth && t[j].reply.Response? && EndsSearch(t[j].reply.packet)
    ensures j + 1 == |t| && o == Returned(t[j].reply.packet)
  {
    hide EndsSearch, ResolvedNs, UnresolvedNs;
    assert !GivenUp(w, t[j], depth);
    var p := t[j].reply.packet;
    assert t[j].reply == Response(p);
  }

  /** After a name hop the question goes to the address in the first A record found; without one the search is over,
      with the referral or with the failure of the hop. */
  lemma HopAsksFirstAddress(w: World, st: State, qname: Name, qtype: QueryType, depth: nat, limit: nat, p: Packet,
    patience: nat)
    requires depth < MAX_RECURSION_DEPTH && Good(w, st) && w.maxRetries > 0 && patience > 0
    requires ResolvedNs(p, qname).None? && UnresolvedNs(p, qname).Some?
    ensures var (st1, found) := Resolve(w, st, UnresolvedNs(p, qname).value, A, depth + 1, limit);
      var (st', o) := FollowOn(w, st, qname, qtype, depth, limit, p, patience);
      match found
      case Threw(e) => st' == st1 && o == Done(Threw(e))
      case Returned(answer) =>
        && ((forall r :: r in answer.answers ==> !r.ARecord?) ==> st' == st1 && o == Done(Returned(p)))
        && (forall k :: 0 <= k < |answer.answers| && FirstAddressAt(answer.answers, k) ==>
              && st1.trace < st'.trace
              && Asks(st'.trace[|st1.trace|], Query(qname, qtype, answer.answers[k].addr), depth, 0))
  {
    hide Good, Grows, Resolve, Follow, ResolvedNs, UnresolvedNs, FirstA, Ruled, Asks, FirstAddressAt;
    var host := UnresolvedNs(p, qname).value;
    var (st1, found) := Resolve(w, st, host, A, depth + 1, limit);
    ResolveIsGood(w, st, host, A, depth + 1, limit);
    if found.Returned? {
      FirstAddressIs(found.packet.answers);
      var a := FirstA(found.packet.answers);
      if a.Some? { FollowRules(w, st1, qname, qtype, depth, limit, a.value, patience); }
    }
  }

  lemma FirstAddressIs(answers: seq<DnsRecord>)
    ensures (forall r :: r in answers ==> !r.ARecord?) <==> FirstA(answers).None?
    ensures forall k :: 0 <= k < |answers| && FirstAddressAt(answers, k) ==> FirstA(answers) == Some(answers[k].addr)
  {
    FirstAIsFirst(answers);
    hide FirstA;
  }

  predicate FirstAddressAt(answers: seq<DnsRecord>, k: nat)
    requires k < |answers|
  {
    answers[k].ARecord? && forall j :: 0 <= j < k ==> !answers[j].ARecord?
  }
}

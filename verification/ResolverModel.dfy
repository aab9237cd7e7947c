/** `recursiveLookup` of lib/Core.hpp and `executeWithRetry` of lib/RetryPolicy.hpp as functions of a world:
    a network that answers, times out or fails, and a clock. */
module ResolverModel {
  import opened Bytes
  import opened StringUtils
  import opened QueryTypes
  import opened DnsHeaders
  import opened DnsRecords
  import opened PacketWire
  import opened Referrals
  import CacheModel
  import CacheKeys

  const MAX_RECURSION_DEPTH: nat := 10

  datatype Query = Query(qname: Name, qtype: QueryType, server: IPv4)

  /** Outcome of one `lookup`: Failure stands for every exception other than a timeout. */
  datatype Reply = Response(packet: Packet) | Timeout | Failure

  /** What `lookup` makes of a datagram that filled the buffer with `d`, in answer to a query with transaction id `id`:
      it must parse, carry that id, and be a response. */
  function Received(d: seq<byte>, id: u16): Reply {
    match PacketAt(d, 0)
    case None => Failure
    case Some((p, _)) => if p.header.id != id || !p.header.response then Failure else Response(p)
  }

  /** `net` answers the n-th query sent, `clock` is read at the n-th cache operation. */
  datatype World = World(
    net: (nat, Query) -> Reply, clock: nat -> int, roots: seq<IPv4>, maxRetries: int, cfg: CacheModel.Config)

  datatype Error =
    | NetworkFailed
    | NoAttempts              // "all retry attempts failed": a retry limit below one
    | AllRootsFailed(depth: nat)
    | OutOfPatience           // not an outcome of the source: its referral loop would go on

  datatype Outcome = Returned(packet: Packet) | Threw(error: Error)

  /** What happened so far: names that passed the visited check, and queries sent. */
  datatype Event =
    | Entered(qname: Name, depth: nat)
    | Sent(query: Query, depth: nat, attempt: nat, reply: Reply)

  datatype State = State(cache: CacheModel.State, visited: set<Name>, ticks: nat, sent: nat, trace: seq<Event>)

  function Answering(rescode: ResultCode, answers: seq<DnsRecord>): Packet {
    Packet(NEW_HEADER.(rescode := rescode), [], answers, [], [])
  }

  const SERVFAIL_RESPONSE: Packet := Answering(SERVFAIL, [])

  // ----- cache operations, each reading the clock once -----

  function Tick(st: State, cache: CacheModel.State): State { st.(cache := cache, ticks := st.ticks + 1) }

  function CacheLookup(w: World, st: State, qname: Name, qtype: QueryType): (State, Option<seq<DnsRecord>>) {
    var (c, r) := CacheModel.LookupStep(st.cache, CacheKeys.MakeCacheKey(qname, qtype), w.clock(st.ticks));
    (Tick(st, c), r)
  }

  function CacheAnswers(w: World, st: State, qname: Name, qtype: QueryType, records: seq<DnsRecord>): State {
    Tick(st, CacheModel.InsertStep(w.cfg, st.cache, CacheKeys.MakeCacheKey(qname, qtype), records, w.clock(st.ticks)))
  }

  function CacheNegative(w: World, st: State, qname: Name, qtype: QueryType, rescode: ResultCode): State {
    Tick(st, CacheModel.InsertNegativeStep(st.cache, CacheKeys.MakeCacheKey(qname, qtype), rescode, 300,
      w.clock(st.ticks)))
  }

  function CacheAddress(w: World, st: State, domain: Name, r: DnsRecord): State
    requires r.ARecord?
  {
    Tick(st, CacheModel.InsertNSStep(w.cfg, st.cache, domain, r.addr, r.ttl, w.clock(st.ticks)))
  }

  /** Caches every glue address of one server. */
  function CacheServerGlue(w: World, st: State, ns: NameServer, resources: seq<DnsRecord>): State
    decreases |resources|
  {
    if resources == [] then st
    else CacheServerGlue(w, if IsGlue(resources[0], ns.1) then CacheAddress(w, st, ns.0, resources[0]) else st, ns,
      resources[1..])
  }

  function CacheGlue(w: World, st: State, servers: seq<NameServer>, resources: seq<DnsRecord>): State
    decreases |servers|
  {
    if servers == [] then st
    else CacheGlue(w, CacheServerGlue(w, st, servers[0], resources), servers[1..], resources)
  }

  /** Looks for a cached name server of the domain, then of its parents. */
  function FindCachedNs(w: World, st: State, domain: Name): (State, Option<IPv4>)
    decreases |domain|
  {
    var (c, r) := CacheModel.LookupNSStep(st.cache, domain, w.clock(st.ticks));
    var st1, dot := Tick(st, c), FirstDelim(domain, DOT);
    if r.Some? || dot == |domain| then (st1, r) else FindCachedNs(w, st1, domain[dot + 1..])
  }

  // ----- retries -----

  datatype RetryOutcome = Got(packet: Packet) | TimedOut | Failed | NotTried

  function Send(w: World, st: State, q: Query, depth: nat, attempt: nat): State {
    st.(sent := st.sent + 1, trace := st.trace + [Sent(q, depth, attempt, w.net(st.sent, q))])
  }

  function Retry(w: World, st: State, q: Query, depth: nat, attempt: nat): (State, RetryOutcome)
    decreases w.maxRetries - attempt
  {
    if attempt >= w.maxRetries then (st, NotTried)
    else
      var st1 := Send(w, st, q, depth, attempt);
      match w.net(st.sent, q)
      case Response(p) => (st1, Got(p))
      case Failure => (st1, Failed)
      case Timeout => if attempt == w.maxRetries - 1 then (st1, TimedOut) else Retry(w, st1, q, depth, attempt + 1)
  }

  // ----- resolution -----

  // The source does not bound the turns of a referral loop; here each loop takes at most `limit` turns.

  function DepthLeft(depth: nat): nat {
    if depth < MAX_RECURSION_DEPTH then MAX_RECURSION_DEPTH - depth else 0
  }

  function Resolve(w: World, st: State, qname: Name, qtype: QueryType, depth: nat, limit: nat): (State, Outcome)
    decreases DepthLeft(depth), 2, 0
  {
    if qname in st.visited then (st, Returned(SERVFAIL_RESPONSE))
    else
      var st1 := Enter(st, qname, depth);
      if depth >= MAX_RECURSION_DEPTH then (st1, Returned(SERVFAIL_RESPONSE))
      else
        var (st2, cached) := CacheLookup(w, st1, qname, qtype);
        if cached.Some? then (st2, Returned(CachedResponse(cached.value)))
        else
          var (st3, ns) := FindCachedNs(w, st2, qname);
          TryRoots(w, st3, qname, qtype, depth, limit, ns, 0)
  }

  function Enter(st: State, qname: Name, depth: nat): State {
    st.(visited := st.visited + {qname}, trace := st.trace + [Entered(qname, depth)])
  }

  function CachedResponse(records: seq<DnsRecord>): Packet {
    if records == [] then Answering(NXDOMAIN, []) else Answering(NOERROR, records)
  }

  /** The loop over the root servers, from the i-th on. `start` is a server to begin with instead of a root server;
      after a timeout there is none. */
  function TryRoots(w: World, st: State, qname: Name, qtype: QueryType, depth: nat, limit: nat, start: Option<IPv4>,
    i: nat)
    : (State, Outcome)
    requires depth < MAX_RECURSION_DEPTH
    decreases DepthLeft(depth), 1, |w.roots| - i
  {
    if i >= |w.roots| then (st, Threw(AllRootsFailed(depth)))
    else
      match Follow(w, st, qname, qtype, depth, limit, if start.Some? then start.value else w.roots[i], limit)
      case (st1, Done(outcome)) => (st1, outcome)
      case (st1, GaveUp) => TryRoots(w, st1, qname, qtype, depth, limit, None, i + 1)
  }

  datatype FollowOutcome = Done(outcome: Outcome) | GaveUp

  /** The referral loop: query a server, and go on to the server it refers to. */
  function Follow(w: World, st: State, qname: Name, qtype: QueryType, depth: nat, limit: nat, server: IPv4,
    patience: nat)
    : (State, FollowOutcome)
    requires depth < MAX_RECURSION_DEPTH
    decreases DepthLeft(depth), 0, patience, 0
  {
    if patience == 0 then (st, Done(Threw(OutOfPatience)))
    else
      match Retry(w, st, Query(qname, qtype, server), depth, 0)
      case (st1, TimedOut) => (st1, GaveUp)
      case (st1, Failed) => (st1, Done(Threw(NetworkFailed)))
      case (st1, NotTried) => (st1, Done(Threw(NoAttempts)))
      case (st1, Got(p)) =>
        if Final(p) then (Conclude(w, st1, qname, qtype, p), Done(Returned(p)))
        else FollowOn(w, CacheGlue(w, st1, NsOf(p.authorities, qname), p.resources), qname, qtype, depth, limit, p,
          patience - 1)
  }

  /** Where a referral leads: a server with glue, else the first server resolved by name, else nowhere. */
  function FollowOn(w: World, st: State, qname: Name, qtype: QueryType, depth: nat, limit: nat, p: Packet,
    patience: nat)
    : (State, FollowOutcome)
    requires depth < MAX_RECURSION_DEPTH
    decreases DepthLeft(depth), 0, patience, 1
  {
    var resolved, unresolved := ResolvedNs(p, qname), UnresolvedNs(p, qname);
    if resolved.Some? then Follow(w, st, qname, qtype, depth, limit, resolved.value, patience)
    else if unresolved.None? then (st, Done(Returned(p)))
    else
      match Resolve(w, st, unresolved.value, A, depth + 1, limit)
      case (st1, Threw(e)) => (st1, Done(Threw(e)))
      case (st1, Returned(found)) =>
        var ip := FirstA(found.answers);
        if ip.Some? then Follow(w, st1, qname, qtype, depth, limit, ip.value, patience) else (st1, Done(Returned(p)))
  }

  /** Answers without an error, a name that does not exist, a server failure: each ends the search. */
  predicate Final(p: Packet) {
    (p.answers != [] && p.header.rescode == NOERROR) || p.header.rescode == NXDOMAIN || p.header.rescode == SERVFAIL
  }

  function Conclude(w: World, st: State, qname: Name, qtype: QueryType, p: Packet): State
    requires Final(p)
  {
    if p.answers != [] && p.header.rescode == NOERROR then CacheAnswers(w, st, qname, qtype, p.answers)
    else CacheNegative(w, st, qname, qtype, p.header.rescode)
  }
}

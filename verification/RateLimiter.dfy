/** lib/security/RateLimiter.hpp: a sliding window of allowed queries per client. */
module RateLimiting {
  import opened Bytes
  import opened MapSums
  import opened Runs

  datatype RateLimitConfig = RateLimitConfig(maxQueriesPerWindow: u32, windowSeconds: u32) {
    function Width(): nat { windowSeconds * SECOND }
  }

  /** A client's address as text. */
  type Ip = string

  datatype ClientRecord = ClientRecord(queryTime: seq<int>, totalQueries: nat, rateLimitedQueries: nat,
    lastInteracted: int)

  const NEW_CLIENT: ClientRecord := ClientRecord([], 0, 0, 0)

  type Clients = map<Ip, ClientRecord>

  /** A query, seen from here, is a client asking at an instant. */
  type Query = Call<Ip>

  function RecordOf(clients: Clients, ip: Ip): ClientRecord { if ip in clients then clients[ip] else NEW_CLIENT }

  /** Pops the leading times before `windowStart`. */
  function DropOld(times: seq<int>, windowStart: int): seq<int> {
    if times != [] && times[0] < windowStart then DropOld(times[1..], windowStart) else times
  }

  function Allow(cfg: RateLimitConfig, clients: Clients, q: Query): (Clients, bool) {
    var r := RecordOf(clients, q.op);
    var times := DropOld(r.queryTime, q.now - cfg.Width());
    if |times| >= cfg.maxQueriesPerWindow then
      var refused := r.(queryTime := times, rateLimitedQueries := r.rateLimitedQueries + 1, lastInteracted := q.now);
      (clients[q.op := refused], false)
    else
      var served := r.(queryTime := times + [q.now], totalQueries := r.totalQueries + 1, lastInteracted := q.now);
      (clients[q.op := served], true)
  }

  function Limited(r: ClientRecord): nat { r.rateLimitedQueries }

  class RateLimiter {
    const config: RateLimitConfig
    var clients: Clients

    constructor (cfg: RateLimitConfig)
      ensures config == cfg && clients == map[]
    {
      config := cfg;
      clients := map[];
    }

    method AllowQuery(clientIp: Ip, now: int) returns (allowed: bool)
      modifies this
      ensures (clients, allowed) == Allow(config, old(clients), Call(clientIp, now))
    {
      var record := if clientIp in clients then clients[clientIp] else NEW_CLIENT;
      var times := CleanupOldEntries(record.queryTime, now);
      record := record.(queryTime := times);
      if |record.queryTime| >= config.maxQueriesPerWindow {
        record := record.(rateLimitedQueries := record.rateLimitedQueries + 1, lastInteracted := now);
        clients := clients[clientIp := record];
        return false;
      }
      record := record.(queryTime := record.queryTime + [now], totalQueries := record.totalQueries + 1,
        lastInteracted := now);
      clients := clients[clientIp := record];
      allowed := true;
    }

    method CleanupOldEntries(queryTime: seq<int>, now: int) returns (kept: seq<int>)
      ensures kept == DropOld(queryTime, now - config.Width())
    {
      var windowStart := now - config.windowSeconds * SECOND;
      kept := queryTime;
      while kept != [] && kept[0] < windowStart
        invariant DropOld(kept, windowStart) == DropOld(queryTime, windowStart)
        decreases |kept|
      {
        kept := kept[1..];
      }
    }

    /** Sums over the clients in whatever order the hash map yields them. */
    method GetTotalRateLimited() returns (total: nat)
      ensures total == SumBy(clients, Limited)
    {
      hide SumBy;
      total := 0;
      var todo := clients;
      assert todo == clients;
      while todo.Keys != {}
        invariant total + SumBy(todo, Limited) == SumBy(clients, Limited)
        decreases todo.Keys
      {
        var ip :| ip in todo.Keys;
        SumWithout(todo, Limited, ip);
        total := total + todo[ip].rateLimitedQueries;
        todo := todo - {ip};
      }
      SumNothing(todo);
    }
  }

  lemma SumNothing(clients: Clients)
    requires clients.Keys == {}
    ensures SumBy(clients, Limited) == 0
  {
    assert |clients| == |clients.Keys|;
    SumEmpty(clients, Limited);
  }

  // ----- runs -----

  /** The limiter's state after a sequence of calls. */
  function Run(cfg: RateLimitConfig, calls: seq<Query>): Clients {
    if calls == [] then map[] else Allow(cfg, Run(cfg, Before(calls)), Last(calls)).0
  }

  /** The verdict on one more query. */
  predicate Allowed(cfg: RateLimitConfig, calls: seq<Query>, q: Query) { Allow(cfg, Run(cfg, calls), q).1 }

  /** Times of a client's allowed queries, in order. */
  function AllowedTimes(cfg: RateLimitConfig, calls: seq<Query>, ip: Ip): seq<int> {
    if calls == [] then []
    else if Last(calls).op == ip && Allowed(cfg, Before(calls), Last(calls)) then
      AllowedTimes(cfg, Before(calls), ip) + [Last(calls).now]
    else AllowedTimes(cfg, Before(calls), ip)
  }

  /** How many of `times` lie in the closed interval from `a` to `b`. */
  function CountIn(times: seq<int>, a: int, b: int): nat {
    if times == [] then 0
    else CountIn(times[..|times| - 1], a, b) + if a <= times[|times| - 1] <= b then 1 else 0
  }

  predicate Ascending(times: seq<int>, t: int) {
    forall i, j :: 0 <= i <= j < |times| ==> times[i] <= times[j] <= t
  }

  lemma {:induction false} AllowedTimesAscend(cfg: RateLimitConfig, calls: seq<Query>, ip: Ip, t: int)
    requires Timely(calls, t)
    ensures Ascending(AllowedTimes(cfg, calls, ip), t)
  {
    hide Allowed;
    if calls != [] { AllowedTimesAscend(cfg, Before(calls), ip, Last(calls).now); }
  }

  lemma {:induction false} DropTwice(times: seq<int>, a: int, b: int)
    requires a <= b
    ensures DropOld(DropOld(times, a), b) == DropOld(times, b)
  {
    if times != [] && times[0] < a { DropTwice(times[1..], a, b); }
  }

  lemma {:induction false} DropSnoc(times: seq<int>, a: int, x: int)
    requires a <= x
    ensures DropOld(times + [x], a) == DropOld(times, a) + [x]
  {
    if times != [] && times[0] < a {
      assert (times + [x])[1..] == times[1..] + [x];
      DropSnoc(times[1..], a, x);
    }
  }

  /** A client's queue holds its allowed queries still inside the window, and later windows see no difference. */
  lemma {:induction false} QueueIsHistory(cfg: RateLimitConfig, calls: seq<Query>, ip: Ip, windowStart: int)
    requires Timely(calls, windowStart + cfg.Width())
    ensures DropOld(RecordOf(Run(cfg, calls), ip).queryTime, windowStart)
      == DropOld(AllowedTimes(cfg, calls, ip), windowStart)
  {
    if calls != [] {
      var q, w, s := Last(calls), cfg.Width(), Run(cfg, Before(calls));
      TimelyLater(Before(calls), q.now, windowStart + w);
      QueueIsHistory(cfg, Before(calls), ip, windowStart);
      if q.op == ip {
        var times, all := RecordOf(s, ip).queryTime, AllowedTimes(cfg, Before(calls), ip);
        var cleaned := DropOld(times, q.now - w);
        DropTwice(times, q.now - w, windowStart);
        if Allowed(cfg, Before(calls), q) {
          DropSnocLater(cleaned, windowStart, q.now);
          DropSnocLater(all, windowStart, q.now);
        }
      }
    }
  }

  lemma {:induction false} DropSnocLater(times: seq<int>, a: int, x: int)
    ensures DropOld(times + [x], a) == DropOld(DropOld(times, a) + [x], a)
  {
    if times != [] && times[0] < a {
      assert (times + [x])[1..] == times[1..] + [x];
      DropSnocLater(times[1..], a, x);
    } else if times == [] {
      assert times + [x] == [x];
    }
  }

  lemma {:induction false} CountDropped(times: seq<int>, a: int, t: int)
    requires Ascending(times, t)
    ensures |DropOld(times, a)| == CountIn(times, a, t)
  {
    if times != [] {
      var front, last := times[..|times| - 1], times[|times| - 1];
      assert times == front + [last];
      CountDropped(front, a, t);
      if a <= last {
        DropSnoc(front, a, last);
      } else {
        DropAll(times, a);
        CountNone(front, a, t);
      }
    }
  }

  lemma {:induction false} DropAll(times: seq<int>, a: int)
    requires forall i :: 0 <= i < |times| ==> times[i] < a
    ensures DropOld(times, a) == []
  {
    if times != [] { DropAll(times[1..], a); }
  }

  lemma {:induction false} CountNone(times: seq<int>, a: int, b: int)
    requires forall i :: 0 <= i < |times| ==> times[i] < a || times[i] > b
    ensures CountIn(times, a, b) == 0
  {
    if times != [] { CountNone(times[..|times| - 1], a, b); }
  }

  lemma {:induction false} CountNarrower(times: seq<int>, a: int, b: int, a': int, b': int)
    requires a' <= a && b <= b'
    ensures CountIn(times, a, b) <= CountIn(times, a', b')
  {
    if times != [] { CountNarrower(times[..|times| - 1], a, b, a', b'); }
  }

  /** A query is refused exactly when the client already has the limit of allowed queries in the window ending now. */
  lemma RefusedIffWindowFull(cfg: RateLimitConfig, calls: seq<Query>, q: Query)
    requires Timely(calls, q.now)
    ensures Allowed(cfg, calls, q) <==>
      CountIn(AllowedTimes(cfg, calls, q.op), q.now - cfg.Width(), q.now) < cfg.maxQueriesPerWindow
  {
    hide Run, AllowedTimes, DropOld, CountIn, Ascending;
    QueueIsHistory(cfg, calls, q.op, q.now - cfg.Width());
    AllowedTimesAscend(cfg, calls, q.op, q.now);
    CountDropped(AllowedTimes(cfg, calls, q.op), q.now - cfg.Width(), q.now);
  }

  /** In every closed interval as wide as the window, wherever it starts, each client is within the limit. */
  lemma {:induction false} EveryWindowWithinLimit(cfg: RateLimitConfig, calls: seq<Query>, t: int, ip: Ip, a: int)
    requires Timely(calls, t)
    ensures CountIn(AllowedTimes(cfg, calls, ip), a, a + cfg.Width()) <= cfg.maxQueriesPerWindow
  {
    hide Allowed, Run, CountIn, AllowedTimes, Ascending;
    var b := a + cfg.Width();
    if calls == [] {
      CountNone([], a, b);
    } else {
      var q := Last(calls);
      var before := AllowedTimes(cfg, Before(calls), ip);
      EveryWindowWithinLimit(cfg, Before(calls), q.now, ip, a);
      CountSnoc(before, q.now, a, b);
      if q.op == ip && Allowed(cfg, Before(calls), q) && a <= q.now <= b {
        RefusedIffWindowFull(cfg, Before(calls), q);
        AllowedTimesAscend(cfg, Before(calls), ip, q.now);
        CountUpTo(before, a, b, q.now);
        CountNarrower(before, a, q.now, q.now - cfg.Width(), q.now);
      }
    }
    AllowedTimesStep(cfg, calls, ip);
  }

  lemma AllowedTimesStep(cfg: RateLimitConfig, calls: seq<Query>, ip: Ip)
    ensures AllowedTimes(cfg, calls, ip) ==
      if calls == [] then []
      else if Last(calls).op == ip && Allowed(cfg, Before(calls), Last(calls)) then
        AllowedTimes(cfg, Before(calls), ip) + [Last(calls).now]
      else AllowedTimes(cfg, Before(calls), ip)
  {
    hide Allowed;
  }

  lemma CountSnoc(times: seq<int>, x: int, a: int, b: int)
    ensures CountIn(times + [x], a, b) == CountIn(times, a, b) + if a <= x <= b then 1 else 0
  {
    assert (times + [x])[..|times|] == times;
  }

  lemma {:induction false} CountUpTo(times: seq<int>, a: int, b: int, t: int)
    requires Ascending(times, t) && t <= b
    ensures CountIn(times, a, b) == CountIn(times, a, t)
  {
    if times != [] { CountUpTo(times[..|times| - 1], a, b, t); }
  }

  /** The calls of one client. */
  function Own(calls: seq<Query>, ip: Ip): seq<Query> {
    if calls == [] then []
    else if Last(calls).op == ip then Own(Before(calls), ip) + [Last(calls)]
    else Own(Before(calls), ip)
  }

  /** What a client is told depends on its own calls only. */
  lemma {:induction false} ClientsAreIndependent(cfg: RateLimitConfig, calls: seq<Query>, q: Query)
    ensures RecordOf(Run(cfg, calls), q.op) == RecordOf(Run(cfg, Own(calls, q.op)), q.op)
    ensures Allowed(cfg, calls, q) == Allowed(cfg, Own(calls, q.op), q)
  {
    hide DropOld, Allow, RecordOf;
    if calls != [] {
      ClientsAreIndependent(cfg, Before(calls), q);
      var own, last := Own(Before(calls), q.op), Last(calls);
      AllowSeesOneClient(cfg, Run(cfg, Before(calls)), Run(cfg, own), last, q.op);
      if last.op == q.op {
        assert Before(own + [last]) == own && Last(own + [last]) == last;
      }
    }
    AllowSeesOneClient(cfg, Run(cfg, calls), Run(cfg, Own(calls, q.op)), q, q.op);
  }

  lemma AllowSeesOneClient(cfg: RateLimitConfig, s1: Clients, s2: Clients, q: Query, ip: Ip)
    requires RecordOf(s1, ip) == RecordOf(s2, ip)
    ensures q.op == ip ==>
      && Allow(cfg, s1, q).1 == Allow(cfg, s2, q).1
      && RecordOf(Allow(cfg, s1, q).0, ip) == RecordOf(Allow(cfg, s2, q).0, ip)
    ensures q.op != ip ==> RecordOf(Allow(cfg, s1, q).0, ip) == RecordOf(s1, ip)
  {
    hide DropOld;
  }

  function Refusals(cfg: RateLimitConfig, calls: seq<Query>): nat {
    if calls == [] then 0
    else Refusals(cfg, Before(calls)) + if Allowed(cfg, Before(calls), Last(calls)) then 0 else 1
  }

  /** The total the limiter reports is the number of queries it refused. */
  lemma {:induction false} TotalIsRefusals(cfg: RateLimitConfig, calls: seq<Query>)
    ensures SumBy(Run(cfg, calls), Limited) == Refusals(cfg, calls)
  {
    hide SumBy, DropOld;
    if calls == [] {
      SumEmpty<Ip, ClientRecord>(map[], Limited);
    } else {
      var s, q := Run(cfg, Before(calls)), Last(calls);
      TotalIsRefusals(cfg, Before(calls));
      SumUpdate(s, Limited, q.op, Allow(cfg, s, q).0[q.op]);
    }
  }

  function RefusalsOf(cfg: RateLimitConfig, calls: seq<Query>, ip: Ip): nat {
    if calls == [] then 0
    else
      RefusalsOf(cfg, Before(calls), ip)
      + if Last(calls).op == ip && !Allowed(cfg, Before(calls), Last(calls)) then 1 else 0
  }

  /** A client's record counts its allowed and its refused queries, and keeps the time of the last of either. */
  lemma {:induction false} RecordCounts(cfg: RateLimitConfig, calls: seq<Query>, ip: Ip)
    ensures var r := RecordOf(Run(cfg, calls), ip);
      && r.totalQueries == |AllowedTimes(cfg, calls, ip)| && r.rateLimitedQueries == RefusalsOf(cfg, calls, ip)
      && r.lastInteracted == (if Own(calls, ip) == [] then 0 else Last(Own(calls, ip)).now)
  {
    hide DropOld;
    if calls != [] {
      RecordCounts(cfg, Before(calls), ip);
      assert Last(Own(Before(calls), ip) + [Last(calls)]) == Last(calls);
    }
  }
}

/** What the cache's counters count, over runs: the statistics by the answers given, and the hit counts of entries. */
module CacheCounters {
  import opened Bytes
  import opened DnsRecords
  import opened CacheModel
  import opened CacheKeys
  import opened CacheHistory
  import opened Runs

  datatype Counts = Counts(hits: nat, misses: nat, negHits: nat, nsHits: nat, nsMisses: nat,
    inserts: nat, negInserts: nat, nsInserts: nat, evictions: int)

  /** What one more call adds, by its answer and by the nodes that left the LRU list to make room. */
  ghost function NextCounts(cfg: Config, s: State, c: Call<Op>, n: Counts): Counts {
    var answer := Step(cfg, s, c).1;
    match c.op
    case Lookup(_, _) =>
      if answer.records == None then n.(misses := n.misses + 1)
      else if answer.records == Some([]) then n.(negHits := n.negHits + 1)
      else n.(hits := n.hits + 1)
    case LookupNS(_) =>
      if answer.address == None then n.(nsMisses := n.nsMisses + 1) else n.(nsHits := n.nsHits + 1)
    case Insert(_, _, records) =>
      if records == [] then n
      else
        n.(inserts := n.inserts + (if Stores(cfg, c, KeyOf(c.op)) then 1 else 0),
           evictions := n.evictions + |s.lruList| - |MakeRoom(s).lruList|)
    case InsertNegative(_, _, _, _) => n.(negInserts := n.negInserts + 1)
    case InsertNS(d, _, _) => if StoresAddress(cfg, s, c, d) then n.(nsInserts := n.nsInserts + 1) else n
    case Cleanup => n
  }

  ghost function CountsOf(cfg: Config, calls: seq<Call<Op>>): Counts {
    if calls == [] then Counts(0, 0, 0, 0, 0, 0, 0, 0, 0)
    else NextCounts(cfg, Run(cfg, Before(calls)), Last(calls), CountsOf(cfg, Before(calls)))
  }

  predicate Counted(stats: CacheStats, n: Counts) {
    && stats.hits == n.hits && stats.misses == n.misses && stats.negHits == n.negHits
    && stats.nsHits == n.nsHits && stats.nsMisses == n.nsMisses
    && stats.inserts == n.inserts && stats.negInserts == n.negInserts && stats.nsInserts == n.nsInserts
    && stats.evictions == n.evictions
  }

  /** Over every run each statistic is the number of calls that were answered, or did, what its name says. */
  lemma {:induction false} StatisticsCountAnswers(cfg: Config, calls: seq<Call<Op>>)
    ensures Counted(Run(cfg, calls).stats, CountsOf(cfg, calls))
  {
    hide Run, CountsOf, Step, NextCounts, Counted;
    if calls == [] {
      NothingCounted(cfg);
    } else {
      StatisticsCountAnswers(cfg, Before(calls));
      CountsUnfold(cfg, calls);
      StepCounted(cfg, Run(cfg, Before(calls)), Last(calls), CountsOf(cfg, Before(calls)));
    }
  }

  lemma CountsUnfold(cfg: Config, calls: seq<Call<Op>>)
    requires calls != []
    ensures Run(cfg, calls) == Step(cfg, Run(cfg, Before(calls)), Last(calls)).0
    ensures CountsOf(cfg, calls) == NextCounts(cfg, Run(cfg, Before(calls)), Last(calls), CountsOf(cfg, Before(calls)))
  {
    hide Step, NextCounts;
  }

  lemma NothingCounted(cfg: Config)
    ensures Counted(Run(cfg, []).stats, CountsOf(cfg, []))
  {
    assert Run(cfg, []) == EMPTY;
    hide Step, NextCounts, Run;
  }

  lemma StepCounted(cfg: Config, s: State, c: Call<Op>, n: Counts)
    requires Counted(s.stats, n)
    ensures Counted(Step(cfg, s, c).0.stats, NextCounts(cfg, s, c, n))
  {
    hide MakeCacheKey, LookupStep, InsertStep, CleanupStep, Kept, MakeRoom;
    KeptNothingStored(cfg, c);
    match c.op
    case Lookup(_, _) => LookupCounted(s, KeyOf(c.op), c.now);
    case Insert(_, _, records) => InsertCounted(cfg, s, KeyOf(c.op), records, c.now);
    case Cleanup => CleanupCounted(s, c.now);
    case InsertNegative(_, _, _, _) =>
    case LookupNS(_) =>
    case InsertNS(_, _, _) =>
  }

  lemma KeptNothingStored(cfg: Config, c: Call<Op>)
    ensures c.op.Insert? ==> (Stores(cfg, c, KeyOf(c.op)) <==> Kept(cfg, c.op.records, c.now) != [])
    ensures Kept(cfg, [], c.now) == []
  {
    hide MakeCacheKey;
  }

  lemma LookupCounted(s: State, key: Key, now: int)
    ensures var (s', r) := LookupStep(s, key, now);
      s'.stats == s.stats.(
        hits := s.stats.hits + (if r != None && r != Some([]) then 1 else 0),
        misses := s.stats.misses + (if r == None then 1 else 0),
        negHits := s.stats.negHits + (if r == Some([]) then 1 else 0),
        expirations := s'.stats.expirations, currentEntries := s'.stats.currentEntries)
  {
    hide Wrap, Live, Touched, EraseNode;
    if key in s.cache {
      var live := Live(s.cache[key], now);
      assert |Served(live, now)| == |live|;
      hide Served;
    }
  }

  lemma {:induction false} RoomCounted(s: State)
    ensures var s' := MakeRoom(s);
      s'.stats == s.stats.(evictions := s'.stats.evictions, currentEntries := s'.stats.currentEntries)
      && s'.stats.evictions == s.stats.evictions + |s.lruList| - |s'.lruList|
    decreases |s.lruList|
  {
    hide Wrap;
    if |s.cache| >= MAX_ENTRIES && |s.cache| > 0 && s.lruList != [] { RoomCounted(EvictLRU(s)); }
  }

  lemma InsertCounted(cfg: Config, s: State, key: Key, records: seq<DnsRecord>, now: int)
    ensures var s' := InsertStep(cfg, s, key, records, now);
      && s'.stats == s.stats.(
           inserts := s.stats.inserts + (if Kept(cfg, records, now) != [] then 1 else 0),
           evictions := s'.stats.evictions, currentEntries := s'.stats.currentEntries)
      && s'.stats.evictions == s.stats.evictions + if records == [] then 0 else |s.lruList| - |MakeRoom(s).lruList|
  {
    RoomCounted(s);
    KeptNothing(cfg, now);
    hide MakeRoom, Kept, EraseNode;
  }

  lemma CleanupCounted(s: State, now: int)
    ensures var s' := CleanupStep(s, now);
      s'.stats == s.stats.(expirations := s'.stats.expirations, currentEntries := s'.stats.currentEntries)
  {
    hide Wrap, Total, Cleaned, KeepNodes;
  }

  // ----- hit counts of entries -----

  /** Is the call a lookup of `k` that is answered with records? */
  ghost predicate Hits(cfg: Config, s: State, c: Call<Op>, k: Key) {
    c.op.Lookup? && KeyOf(c.op) == k && Step(cfg, s, c).1.records.Some? && Step(cfg, s, c).1.records.value != []
  }

  /** Hits on `k` since a bucket was last stored under it. */
  ghost function HitsSince(cfg: Config, calls: seq<Call<Op>>, k: Key): nat {
    if calls == [] || Stores(cfg, Last(calls), k) then 0
    else HitsSince(cfg, Before(calls), k) + if Hits(cfg, Run(cfg, Before(calls)), Last(calls), k) then 1 else 0
  }

  predicate HitCount(bucket: seq<CacheEntry>, n: nat) {
    forall e :: e in bucket ==> e.hitCount == n % 0x1_0000_0000
  }

  lemma {:induction false} LiveHitCount(bucket: seq<CacheEntry>, now: int, n: nat)
    requires HitCount(bucket, n)
    ensures HitCount(Live(bucket, now), n)
  {
    if bucket != [] {
      assert bucket[0] in bucket;
      LiveHitCount(bucket[1..], now, n);
    }
  }

  lemma {:induction false} TouchedHitCount(bucket: seq<CacheEntry>, n: nat)
    requires HitCount(bucket, n)
    ensures HitCount(Touched(bucket), n + 1)
  {
    if bucket != [] {
      assert bucket[0] in bucket;
      OneMore(n);
      TouchedHitCount(bucket[1..], n);
    }
  }

  lemma OneMore(n: nat)
    ensures (n % 0x1_0000_0000 + 1) % 0x1_0000_0000 == (n + 1) % 0x1_0000_0000
  {
  }

  lemma {:induction false} KeptHitCount(cfg: Config, records: seq<DnsRecord>, now: int)
    ensures HitCount(Kept(cfg, records, now), 0)
  {
    if records != [] { KeptHitCount(cfg, records[1..], now); }
  }

  /** In every reachable state an entry's hit count is the number of hits on its key since it was stored,
      modulo 2^32. */
  lemma {:induction false} HitCountsAreHits(cfg: Config, calls: seq<Call<Op>>, k: Key)
    requires k in Run(cfg, calls).cache
    ensures HitCount(Run(cfg, calls).cache[k], HitsSince(cfg, calls, k))
  {
    hide Step, Stores, Hits, HitCount;
    if calls != [] {
      var s, c := Run(cfg, Before(calls)), Last(calls);
      if k in s.cache { HitCountsAreHits(cfg, Before(calls), k); }
      StepHitCount(cfg, s, c, k, HitsSince(cfg, Before(calls), k));
    }
  }

  lemma StepHitCount(cfg: Config, s: State, c: Call<Op>, k: Key, n: nat)
    requires k in Step(cfg, s, c).0.cache && (k in s.cache ==> HitCount(s.cache[k], n))
    ensures HitCount(Step(cfg, s, c).0.cache[k],
      if Stores(cfg, c, k) then 0 else n + if Hits(cfg, s, c, k) then 1 else 0)
  {
    hide MakeCacheKey, LookupStep, InsertStep, CleanupStep, HitCount, InsertNegativeStep, LookupNSStep, InsertNSStep;
    match c.op
    case Lookup(_, _) => LookupHitCount(s, KeyOf(c.op), c.now, k, n);
    case Insert(_, _, records) => InsertHitCount(cfg, s, KeyOf(c.op), records, c.now, k, n);
    case Cleanup => CleanupHitCount(s, c.now, k, n);
    case InsertNegative(_, _, resCode, ttl) => InsertNegativeLeavesOthers(s, KeyOf(c.op), resCode, ttl, c.now);
    case LookupNS(d) => LookupNSLeavesOthers(s, d, c.now);
    case InsertNS(d, ip, ttl) => InsertNSLeavesOthers(cfg, s, d, ip, ttl, c.now);
  }

  lemma LookupHitCount(s: State, key: Key, now: int, k: Key, n: nat)
    requires k in LookupStep(s, key, now).0.cache && (k in s.cache ==> HitCount(s.cache[k], n))
    ensures var (s', r) := LookupStep(s, key, now);
      HitCount(s'.cache[k], n + if key == k && r.Some? && r.value != [] then 1 else 0)
  {
    hide EraseNode, HitCount, Live, Touched;
    if k in s.cache {
      var live := Live(s.cache[k], now);
      LiveHitCount(s.cache[k], now, n);
      TouchedHitCount(live, n);
      assert |Served(live, now)| == |live|;
    }
    hide Served;
  }

  lemma InsertHitCount(cfg: Config, s: State, key: Key, records: seq<DnsRecord>, now: int, k: Key, n: nat)
    requires k in InsertStep(cfg, s, key, records, now).cache && (k in s.cache ==> HitCount(s.cache[k], n))
    ensures HitCount(InsertStep(cfg, s, key, records, now).cache[k],
      if key == k && Kept(cfg, records, now) != [] then 0 else n)
  {
    MakeRoomKeepsBuckets(s);
    KeptHitCount(cfg, records, now);
    KeptNothing(cfg, now);
    hide MakeRoom, Kept, EraseNode, HitCount;
  }

  lemma CleanupHitCount(s: State, now: int, k: Key, n: nat)
    requires k in CleanupStep(s, now).cache && (k in s.cache ==> HitCount(s.cache[k], n))
    ensures HitCount(CleanupStep(s, now).cache[k], n)
  {
    if k in s.cache { LiveHitCount(s.cache[k], now, n); }
    hide Live, HitCount, KeepNodes, Total;
  }
}

/** The size of the LRU index: one node per bucket, plus one per key that a lookup left behind. */
module CacheIndex {
  import opened Bytes
  import opened QueryTypes
  import opened DnsRecords
  import opened CacheModel
  import opened CacheKeys
  import opened CacheHistory
  import opened Runs

  /** Keys that are listed but have no bucket. */
  function StaleKeys(s: State): set<Key> { s.lruMap.Keys - s.cache.Keys }

  /** The one branch that erases a bucket and not its key: a lookup that finds every entry of the bucket expired. */
  predicate Forgets(s: State, c: Call<Op>) {
    && c.op.Lookup? && !NegativeAt(s, KeyOf(c.op), c.now)
    && KeyOf(c.op) in s.cache && Live(s.cache[KeyOf(c.op)], c.now) == []
  }

  // ----- the size of the list -----

  predicate DistinctKeys(list: seq<LruNode>) { forall i, j :: 0 <= i < j < |list| ==> list[i].key != list[j].key }

  lemma {:induction false} KeysCounted(list: seq<LruNode>)
    requires DistinctKeys(list)
    ensures |set n | n in list :: n.key| == |list|
  {
    if list != [] {
      var rest := list[1..];
      KeysCounted(rest);
      var keys, others := set n | n in list :: n.key, set n | n in rest :: n.key;
      assert list == [list[0]] + rest;
      assert keys == others + {list[0].key};
      assert list[0].key !in others;
    }
  }

  lemma ListKeysDistinct(list: seq<LruNode>, ids: map<Key, nat>, nextId: nat)
    requires ListOk(list, ids, nextId)
    ensures DistinctKeys(list)
  {
    forall i, j | 0 <= i < j < |list| ensures list[i].key != list[j].key {
      assert list[i] in list && list[j] in list;
    }
  }

  lemma ListedOnce(list: seq<LruNode>, ids: map<Key, nat>, nextId: nat)
    requires ListOk(list, ids, nextId)
    ensures |list| == |ids.Keys|
  {
    ListKeysDistinct(list, ids, nextId);
    KeysCounted(list);
    hide NoDuplicateIds, DistinctKeys;
    var keys := set n | n in list :: n.key;
    forall k | k in ids ensures k in keys { assert LruNode(ids[k], k) in list; }
    assert keys == ids.Keys;
  }

  /** A sound list has one node for each bucket and one for each stale key. */
  lemma ListSize(s: State)
    requires LruOk(s)
    ensures |s.lruList| == |s.cache| + |StaleKeys(s)|
  {
    ListedOnce(s.lruList, s.lruMap, s.nextId);
    hide ListOk;
    KeysSplit(s.lruMap.Keys, s.cache.Keys);
    assert |s.cache| == |s.cache.Keys|;
  }

  lemma KeysSplit<T>(all: set<T>, some: set<T>)
    requires some <= all
    ensures |all| == |some| + |all - some|
  {
    assert all == some + (all - some);
  }

  // ----- when no key is stale -----

  lemma {:induction false} MakeRoomLeavesNoneStale(s: State)
    requires StaleKeys(s) == {}
    ensures StaleKeys(MakeRoom(s)) == {}
    decreases |s.lruList|
  {
    if |s.cache| >= MAX_ENTRIES && |s.cache| > 0 && s.lruList != [] {
      EvictLeavesNoneStale(s);
      MakeRoomLeavesNoneStale(EvictLRU(s));
    }
  }

  lemma EvictLeavesNoneStale(s: State)
    requires StaleKeys(s) == {}
    ensures StaleKeys(EvictLRU(s)) == {}
  {
    forall k | k in EvictLRU(s).lruMap ensures k in EvictLRU(s).cache { assert k !in StaleKeys(s); }
  }

  lemma LookupStale(s: State, key: Key, now: int)
    requires LruOk(s) && StaleKeys(s) == {}
    ensures StaleKeys(LookupStep(s, key, now).0) == {} <==>
      NegativeAt(s, key, now) || key !in s.cache || Live(s.cache[key], now) != []
  {
    hide Live, Touched, Served, EraseNode;
    var s' := LookupStep(s, key, now).0;
    forall k | k in s.lruMap ensures k in s.cache { assert k !in StaleKeys(s); }
    if !NegativeAt(s, key, now) && key in s.cache && Live(s.cache[key], now) == [] {
      assert key in s.lruMap.Keys;
      assert key in StaleKeys(s');
    } else {
      forall k | k in s'.lruMap ensures k in s'.cache { }
    }
  }

  lemma InsertStale(cfg: Config, s: State, key: Key, records: seq<DnsRecord>, now: int)
    requires StaleKeys(s) == {}
    ensures StaleKeys(InsertStep(cfg, s, key, records, now)) == {}
  {
    MakeRoomLeavesNoneStale(s);
    hide MakeRoom, Kept, EraseNode;
    var s1, s' := MakeRoom(s), InsertStep(cfg, s, key, records, now);
    forall k | k in s1.lruMap ensures k in s1.cache { assert k !in StaleKeys(s1); }
    forall k | k in s'.lruMap ensures k in s'.cache { assert k !in StaleKeys(s); }
  }

  lemma CleanupStale(s: State, now: int)
    requires StaleKeys(s) == {}
    ensures StaleKeys(CleanupStep(s, now)) == {}
  {
    hide Cleaned, KeepNodes, Total;
    forall k | k in CleanupStep(s, now).lruMap ensures k in CleanupStep(s, now).cache { assert k !in StaleKeys(s); }
  }

  /** From a state without stale keys, exactly the forgetting lookup leads to one with. */
  lemma StaleExactlyWhenForgotten(cfg: Config, s: State, c: Call<Op>)
    requires LruOk(s) && StaleKeys(s) == {}
    ensures StaleKeys(Step(cfg, s, c).0) == {} <==> !Forgets(s, c)
  {
    hide MakeCacheKey, LookupStep, InsertStep, CleanupStep, LookupNSStep, InsertNSStep, InsertNegativeStep, LruOk, Live;
    match c.op
    case Lookup(_, _) => LookupStale(s, KeyOf(c.op), c.now);
    case Insert(_, _, records) => InsertStale(cfg, s, KeyOf(c.op), records, c.now);
    case Cleanup => CleanupStale(s, c.now);
    case InsertNegative(_, _, resCode, ttl) => InsertNegativeLeavesOthers(s, KeyOf(c.op), resCode, ttl, c.now);
    case LookupNS(d) => LookupNSLeavesOthers(s, d, c.now);
    case InsertNS(d, ip, ttl) => InsertNSLeavesOthers(cfg, s, d, ip, ttl, c.now);
  }

  /** No call of the history forgets. */
  ghost predicate NeverForgets(cfg: Config, calls: seq<Call<Op>>) {
    calls == [] || (NeverForgets(cfg, Before(calls)) && !Forgets(Run(cfg, Before(calls)), Last(calls)))
  }

  /** No state along the history has a stale key. */
  ghost predicate NeverStale(cfg: Config, calls: seq<Call<Op>>) {
    StaleKeys(Run(cfg, calls)) == {} && (calls == [] || NeverStale(cfg, Before(calls)))
  }

  /** Over runs: the index is free of stale keys all along if and only if no lookup finds a bucket expired; and then it
      has one node per bucket, at most MAX_ENTRIES. */
  lemma {:induction false} IndexExactlyBounded(cfg: Config, calls: seq<Call<Op>>)
    ensures NeverStale(cfg, calls) <==> NeverForgets(cfg, calls)
    ensures |Run(cfg, calls).lruList| == |Run(cfg, calls).cache| + |StaleKeys(Run(cfg, calls))|
    ensures NeverForgets(cfg, calls) ==> |Run(cfg, calls).lruList| == |Run(cfg, calls).cache| <= MAX_ENTRIES
  {
    hide LruOk, Step, Forgets, StaleKeys;
    RunOk(cfg, calls);
    ListSize(Run(cfg, calls));
    if calls == [] {
      NothingStale();
    } else {
      IndexExactlyBounded(cfg, Before(calls));
      RunOk(cfg, Before(calls));
      if NeverStale(cfg, Before(calls)) {
        StaleExactlyWhenForgotten(cfg, Run(cfg, Before(calls)), Last(calls));
      }
    }
  }

  lemma NothingStale()
    ensures StaleKeys(EMPTY) == {}
  {
  }

  // ----- with such lookups the index has no bound -----

  /** A name of `n` letters. */
  function Letters(n: nat): seq<byte> { seq(n, _ => 97) }

  function OneA(n: nat, r: DnsRecord): Op { Insert(Letters(n), A, [r]) }

  /** Store one record, and ask for it at the very instant it expires. */
  function Round(cfg: Config, n: nat, r: DnsRecord): (calls: seq<Call<Op>>)
    requires n > 0
    ensures |calls| == 2
  {
    var life := EnforceTTLBounds(cfg, r.ttl) * SECOND;
    [Call(OneA(n, r), (n - 1) * life), Call(Lookup(Letters(n), A), n * life)]
  }

  /** Do so for `n` names, one after the other. */
  function StoreAndExpire(cfg: Config, r: DnsRecord, n: nat): (calls: seq<Call<Op>>)
    ensures |calls| == 2 * n
  {
    if n == 0 then [] else StoreAndExpire(cfg, r, n - 1) + Round(cfg, n, r)
  }

  /** Nothing cached, `n` keys listed, all of them shorter than the key of `n + 1` letters. */
  predicate Leftover(s: State, n: nat) {
    && s.cache == map[] && s.negativeCache == map[] && |s.lruList| == n
    && forall k :: k in s.lruMap ==> |k| < |MakeCacheKey(Letters(n + 1), A)|
  }

  lemma StoreOneExpireOne(cfg: Config, s: State, n: nat, r: DnsRecord, now: int)
    requires Leftover(s, n) && EnforceTTLBounds(cfg, r.ttl) != 0
    ensures var k := MakeCacheKey(Letters(n + 1), A);
      Leftover(LookupStep(InsertStep(cfg, s, k, [r], now), k, now + EnforceTTLBounds(cfg, r.ttl) * SECOND).0, n + 1)
  {
    var k, ttl := MakeCacheKey(Letters(n + 1), A), EnforceTTLBounds(cfg, r.ttl);
    var e := NewEntry(r, ttl, now);
    KeyLonger(n + 1);
    KeptOne(cfg, r, now);
    LiveOne(e, now + ttl * SECOND);
    assert MakeRoom(s) == s;
    hide MakeCacheKey, Kept, Live, Touched, Served, MakeRoom, EnforceTTLBounds, EraseNode;
    assert k !in s.lruMap;
    var s1 := InsertStep(cfg, s, k, [r], now);
    assert s1.cache == map[k := [e]];
    assert s1.cache - {k} == map[];
  }

  lemma KeyLonger(n: nat)
    ensures |MakeCacheKey(Letters(n + 1), A)| == |MakeCacheKey(Letters(n), A)| + 1
  {
  }

  lemma KeptOne(cfg: Config, r: DnsRecord, now: int)
    requires EnforceTTLBounds(cfg, r.ttl) != 0
    ensures Kept(cfg, [r], now) == [NewEntry(r, EnforceTTLBounds(cfg, r.ttl), now)]
  {
    hide EnforceTTLBounds;
    assert [r][1..] == [];
    KeptNothing(cfg, now);
  }

  lemma LiveOne(e: CacheEntry, now: int)
    requires e.IsExpired(now)
    ensures Live([e], now) == []
  {
    assert [e][1..] == [];
    LiveNothing(now);
  }

  lemma {:induction false} StoreAndExpireTimely(cfg: Config, r: DnsRecord, n: nat)
    ensures Timely(StoreAndExpire(cfg, r, n), n * EnforceTTLBounds(cfg, r.ttl) * SECOND)
  {
    hide EnforceTTLBounds;
    if n > 0 {
      var calls, less, round := StoreAndExpire(cfg, r, n), StoreAndExpire(cfg, r, n - 1), Round(cfg, n, r);
      StoreAndExpireTimely(cfg, r, n - 1);
      var life := EnforceTTLBounds(cfg, r.ttl) * SECOND;
      assert n * life == (n - 1) * life + life;
      assert Before(calls) == less + [round[0]] && Before(Before(calls)) == less;
    }
  }

  /** Expired buckets leave their keys in the LRU index for good: whatever the number, there is a timely history that
      empties the cache and leaves that many keys listed, and a cleanup does not remove one of them. Only eviction does,
      and it waits for a full cache. */
  lemma {:induction false} IndexHasNoBound(cfg: Config, r: DnsRecord, n: nat, now: int)
    requires EnforceTTLBounds(cfg, r.ttl) != 0
    ensures Leftover(Run(cfg, StoreAndExpire(cfg, r, n)), n)
    ensures CleanupStep(Run(cfg, StoreAndExpire(cfg, r, n)), now).lruList == Run(cfg, StoreAndExpire(cfg, r, n)).lruList
  {
    hide Leftover, EnforceTTLBounds, Step, Run, CleanupStep, StoreAndExpire;
    StoreAndExpireStep(cfg, r, n);
    if n == 0 {
      EmptyLeftover();
      RunNothing(cfg);
    } else {
      IndexHasNoBound(cfg, r, n - 1, now);
      RoundLeavesKey(cfg, StoreAndExpire(cfg, r, n - 1), n, r);
    }
    CleanupLeavesStaleKeys(Run(cfg, StoreAndExpire(cfg, r, n)), now, n);
  }

  lemma RunNothing(cfg: Config)
    ensures Run(cfg, []) == EMPTY
  {
  }

  lemma StoreAndExpireStep(cfg: Config, r: DnsRecord, n: nat)
    ensures StoreAndExpire(cfg, r, n) == if n == 0 then [] else StoreAndExpire(cfg, r, n - 1) + Round(cfg, n, r)
  {
    hide Round, EnforceTTLBounds;
  }

  lemma RoundLeavesKey(cfg: Config, calls: seq<Call<Op>>, n: nat, r: DnsRecord)
    requires n > 0 && Leftover(Run(cfg, calls), n - 1) && EnforceTTLBounds(cfg, r.ttl) != 0
    ensures Leftover(Run(cfg, calls + Round(cfg, n, r)), n)
  {
    hide Leftover, EnforceTTLBounds, Run, InsertStep, LookupStep, MakeCacheKey, Letters;
    var life, round := EnforceTTLBounds(cfg, r.ttl) * SECOND, Round(cfg, n, r);
    assert n * life == (n - 1) * life + life;
    StoreOneExpireOne(cfg, Run(cfg, calls), n - 1, r, (n - 1) * life);
    TwoMore(cfg, calls, round[0], round[1]);
    assert round == [round[0], round[1]];
  }

  lemma EmptyLeftover()
    ensures Leftover(EMPTY, 0)
  {
  }

  lemma TwoMore(cfg: Config, calls: seq<Call<Op>>, c: Call<Op>, d: Call<Op>)
    ensures Run(cfg, calls + [c, d]) == Step(cfg, Step(cfg, Run(cfg, calls), c).0, d).0
  {
    hide Step;
    assert Before(calls + [c, d]) == calls + [c] && Before(calls + [c]) == calls;
  }

  lemma CleanupLeavesStaleKeys(s: State, now: int, n: nat)
    requires Leftover(s, n)
    ensures CleanupStep(s, now).lruList == s.lruList
  {
    hide MakeCacheKey, Live, Total;
    assert s.cache.Keys - Cleaned(s.cache, now).Keys == {};
    KeepAll(s.lruList);
  }
}

/** lib/cache/DnsCache.hpp: the cache object. Each method performs in place the step `CacheModel` describes,
    at the instant `now` at which it reads the clock. */
module DnsCacheObject {
  import opened Bytes
  import opened QueryTypes
  import opened DnsRecords
  import opened CacheModel
  import opened CacheKeys
  import opened Runs

  class DnsCache {
    const cfg: Config
    var cache: map<Key, seq<CacheEntry>>
    var nsCache: map<Name, NSCacheEntry>
    var negativeCache: map<Key, NegativeCacheEntry>
    var lruList: seq<LruNode>
    var lruMap: map<Key, nat>
    var nextId: nat
    var stats: CacheStats

    ghost function Abs(): State
      reads this
    {
      State(cache, nsCache, negativeCache, lruList, lruMap, nextId, stats)
    }

    ghost predicate Valid()
      reads this
    {
      LruOk(Abs())
    }

    constructor (minTTL: u32, maxTTL: u32)
      ensures Valid() && Abs() == EMPTY && cfg == Config(minTTL, maxTTL)
    {
      cfg := Config(minTTL, maxTTL);
      cache, nsCache, negativeCache, lruList, lruMap, nextId := map[], map[], map[], [], map[], 0;
      stats := CacheStats(0, 0, 0, 0, 0, 0, 0, 0, 0, 0, 0);
    }

    // ----- LRU operations -----

    /** `list::erase` through an iterator: the node must be in the list. */
    method EraseListNode(id: nat)
      requires exists n :: n in lruList && n.id == id
      requires NoDuplicateIds(lruList)
      modifies this`lruList
      ensures lruList == EraseNode(old(lruList), id)
    {
      ghost var t :| 0 <= t < |lruList| && lruList[t].id == id;
      var i := 0;
      while lruList[i].id != id
        invariant i <= t
        decreases t - i
      {
        i := i + 1;
      }
      EraseAt(lruList, i, id);
      lruList := lruList[..i] + lruList[i + 1..];
    }

    method UpdateLRUInPlace(key: Key)
      requires key in lruMap ==> LruNode(lruMap[key], key) in lruList
      requires NoDuplicateIds(lruList)
      modifies this`lruList, this`lruMap, this`nextId
      ensures Abs() == UpdateLRU(old(Abs()), key)
    {
      hide EraseNode;
      if key in lruMap {
        EraseListNode(lruMap[key]);
      }
      lruList := [LruNode(nextId, key)] + lruList;
      lruMap := lruMap[key := nextId];
      nextId := nextId + 1;
    }

    method EvictLRUInPlace()
      requires Valid()
      modifies this`cache, this`lruList, this`lruMap, this`stats
      ensures Valid() && Abs() == EvictLRU(old(Abs()))
    {
      hide LruOk, Wrap;
      ghost var s := Abs();
      EvictLRUKeepsOk(s);
      if lruList == [] { return; }
      var node := lruList[|lruList| - 1].key;
      var numRecords := TakeBucket(node);
      lruList := lruList[..|lruList| - 1];
      lruMap := lruMap - {node};
      stats := stats.(evictions := stats.evictions + 1, currentEntries := Wrap(stats.currentEntries - numRecords));
      assert Abs() == EvictLRU(s);
      hide EvictLRU;
    }

    /** `cache[key].size()` followed by `cache.erase(key)`: a key without a bucket gets an empty one for a moment. */
    method TakeBucket(key: Key) returns (size: nat)
      modifies this`cache
      ensures cache == old(cache) - {key}
      ensures size == if key in old(cache) then |old(cache)[key]| else 0
    {
      if key !in cache { cache := cache[key := []]; }
      size := |cache[key]|;
      cache := cache - {key};
    }

    // ----- expiry -----

    /** Stable filtering of one bucket, counted in the statistics. */
    method RemoveExpiredEntries(entries: seq<CacheEntry>, now: int) returns (kept: seq<CacheEntry>)
      modifies this`stats
      ensures kept == Live(entries, now)
      ensures stats == CountExpired(old(stats), |entries| - |kept|)
    {
      hide Wrap;
      kept := [];
      assert entries[..0] == [];
      for i := 0 to |entries|
        invariant kept == Live(entries[..i], now) && stats == old(stats)
      {
        LiveSnoc(entries[..i], entries[i], now);
        assert entries[..i + 1] == entries[..i] + [entries[i]];
        if !entries[i].IsExpired(now) { kept := kept + [entries[i]]; }
      }
      assert entries[..|entries|] == entries;
      var removed := |entries| - |kept|;
      if removed > 0 {
        stats := stats.(expirations := stats.expirations + removed);
        stats := stats.(currentEntries := Wrap(stats.currentEntries - removed));
      } else {
        WrapSmall(stats.currentEntries);
      }
    }

    // ----- lookups -----

    method Lookup(qname: Name, qtype: QueryType, now: int) returns (r: Option<seq<DnsRecord>>)
      requires Valid()
      modifies this
      ensures Valid()
      ensures (Abs(), r) == LookupStep(old(Abs()), MakeCacheKey(qname, qtype), now)
    {
      var key := BuildCacheKey(qname, qtype);
      ghost var s := Abs();
      LookupKeepsOk(s, key, now);
      hide LruOk, LookupBucket, MakeCacheKey;
      if key in negativeCache {
        if !negativeCache[key].IsExpired(now) {
          stats := stats.(negHits := stats.negHits + 1);
          return Some([]);
        }
        negativeCache := negativeCache - {key};
      }
      assert negativeCache == s.negativeCache - {key};
      DropKeepsOk(s, Abs(), key);
      r := LookupBucketInPlace(key, now);
    }

    method LookupBucketInPlace(key: Key, now: int) returns (r: Option<seq<DnsRecord>>)
      requires Valid()
      modifies this
      ensures (Abs(), r) == LookupBucket(old(Abs()), key, now)
    {
      ghost var s := Abs();
      KeyListed(s, key);
      hide LruOk, Live, Touched, Served, EraseNode, CountExpired;
      if key !in cache {
        stats := stats.(misses := stats.misses + 1);
        return None;
      }
      var kept := RemoveExpiredEntries(cache[key], now);
      if kept == [] {
        cache := cache - {key};
        stats := stats.(misses := stats.misses + 1);
        return None;
      }
      var touched, records := ServeBucket(kept, now);
      cache := cache[key := touched];
      stats := stats.(hits := stats.hits + 1);
      UpdateLRUInPlace(key);
      r := Some(records);
    }

    /** The loop over a bucket that is hit: counts the hit in each entry and copies its record. */
    static method ServeBucket(bucket: seq<CacheEntry>, now: int)
      returns (touched: seq<CacheEntry>, records: seq<DnsRecord>)
      ensures touched == Touched(bucket) && records == Served(bucket, now)
    {
      touched, records := [], [];
      for i := 0 to |bucket|
        invariant touched == Touched(bucket[..i]) && records == Served(bucket[..i], now)
      {
        ServeSnoc(bucket[..i], bucket[i], now);
        assert bucket[..i + 1] == bucket[..i] + [bucket[i]];
        var entry := Touch(bucket[i]);
        touched := touched + [entry];
        records := records + [entry.record.(ttl := entry.RemainingTTL(now))];
      }
      assert bucket[..|bucket|] == bucket;
    }

    method LookupNS(domain: Name, now: int) returns (r: Option<IPv4>)
      requires Valid()
      modifies this`nsCache, this`stats
      ensures Valid()
      ensures (Abs(), r) == LookupNSStep(old(Abs()), domain, now)
    {
      if domain !in nsCache {
        stats := stats.(nsMisses := stats.nsMisses + 1);
        return None;
      }
      var entry := nsCache[domain];
      if entry.IsExpired(now) {
        nsCache := nsCache - {domain};
        stats := stats.(nsMisses := stats.nsMisses + 1);
        return None;
      }
      nsCache := nsCache[domain := entry.(hitCount := (entry.hitCount + 1) % 0x1_0000_0000)];
      stats := stats.(nsHits := stats.nsHits + 1);
      r := Some(entry.ip);
    }

    // ----- inserts -----

    method Insert(qname: Name, qtype: QueryType, records: seq<DnsRecord>, now: int)
      requires Valid()
      modifies this
      ensures Valid()
      ensures Abs() == InsertStep(cfg, old(Abs()), MakeCacheKey(qname, qtype), records, now)
      ensures records != [] ==> |cache| <= MAX_ENTRIES
    {
      hide LruOk, MakeCacheKey, UpdateLRU, Kept, MakeRoom;
      if records == [] { return; }
      var key := BuildCacheKey(qname, qtype);
      ghost var s := Abs();
      InsertKeepsOk(cfg, s, key, records, now);
      var entries := BuildEntries(records, now);
      MakeRoomInPlace();
      if entries != [] {
        KeyListed(Abs(), key);
        cache := cache[key := entries];
        stats := stats.(inserts := stats.inserts + 1);
        UpdateLRUInPlace(key);
      }
      assert Abs() == InsertStep(cfg, s, key, records, now);
      hide InsertStep;
    }

    method BuildEntries(records: seq<DnsRecord>, now: int) returns (entries: seq<CacheEntry>)
      ensures entries == Kept(cfg, records, now)
    {
      hide EnforceTTLBounds;
      entries := [];
      for i := 0 to |records|
        invariant entries == Kept(cfg, records[..i], now)
      {
        KeptSnoc(cfg, records[..i], records[i], now);
        assert records[..i + 1] == records[..i] + [records[i]];
        var enforcedTTL := EnforceTTLBounds(cfg, records[i].ttl);
        if enforcedTTL != 0 { entries := entries + [NewEntry(records[i], enforcedTTL, now)]; }
      }
      assert records[..|records|] == records;
    }

    /** The eviction loop of an insert. It ends because a full cache always has a listed key to evict. */
    method MakeRoomInPlace()
      requires Valid()
      modifies this`cache, this`lruList, this`lruMap, this`stats
      ensures Valid() && Abs() == MakeRoom(old(Abs()))
    {
      hide LruOk, EvictLRU;
      while |cache| >= MAX_ENTRIES && |cache| > 0
        invariant Valid() && MakeRoom(Abs()) == MakeRoom(old(Abs()))
        decreases |lruList|
      {
        ListedWhenFull(Abs());
        EvictShortens(Abs());
        EvictLRUInPlace();
      }
    }

    method InsertNS(domain: Name, ip: IPv4, ttl: u32, now: int)
      requires Valid()
      modifies this`nsCache, this`stats
      ensures Valid()
      ensures Abs() == InsertNSStep(cfg, old(Abs()), domain, ip, ttl, now)
    {
      var enforcedTTL := EnforceTTLBounds(cfg, ttl);
      if enforcedTTL == 0 { return; }
      var entry := NSCacheEntry(ip, now, now + enforcedTTL * SECOND, enforcedTTL, 0);
      if |nsCache| >= MAX_NS_ENTRIES { return; }
      nsCache := nsCache[domain := entry];
      stats := stats.(nsInserts := stats.nsInserts + 1);
    }

    method InsertNegative(qname: Name, qtype: QueryType, resCode: ResultCode, ttl: u32, now: int)
      requires Valid()
      modifies this`negativeCache, this`stats
      ensures Valid()
      ensures Abs() == InsertNegativeStep(old(Abs()), MakeCacheKey(qname, qtype), resCode, ttl, now)
    {
      var enforcedTTL := if ttl < 600 then ttl else 600;
      enforcedTTL := if enforcedTTL > 60 then enforcedTTL else 60;
      var key := BuildCacheKey(qname, qtype);
      var entry := NegativeCacheEntry(resCode, now, now + enforcedTTL * SECOND, enforcedTTL, 0);
      negativeCache := negativeCache[key := entry];
      stats := stats.(negInserts := stats.negInserts + 1);
    }

    // ----- cleanup -----

    /** Sweeps the three maps in whatever order their iterators take. */
    method CleanupExpired(now: int)
      requires Valid()
      modifies this
      ensures Valid() && Abs() == CleanupStep(old(Abs()), now)
    {
      hide LruOk, Live, Cleaned, KeepNodes, Total, CountExpired;
      ghost var s := Abs();
      CleanupKeepsOk(s, now);
      SweepBuckets(now);
      SweepNS(now);
      SweepNegative(now);
      assert Abs() == CleanupStep(s, now);
      hide CleanupStep;
    }

    method SweepBuckets(now: int)
      requires Valid()
      modifies this`cache, this`lruList, this`lruMap, this`stats
      ensures cache == Cleaned(old(cache), now)
      ensures lruList == KeepNodes(old(lruList), old(cache).Keys - cache.Keys)
      ensures lruMap == old(lruMap) - (old(cache).Keys - cache.Keys)
      ensures Total(cache) <= Total(old(cache)) && stats == CountExpired(old(stats), Total(old(cache)) - Total(cache))
    {
      hide LruOk, Live, Swept, KeepNodes, Total, CountExpired, Cleaned;
      ghost var s := Abs();
      var todo := cache.Keys;
      SweepStarts(s, now);
      while todo != {}
        invariant Swept(s, todo, now, Abs())
        decreases todo
      {
        var k :| k in todo;
        SweepOne(s, todo, k, now);
        todo := todo - {k};
      }
      SweepEnds(s, now, Abs());
    }

    /** One turn of the sweep. */
    method SweepOne(ghost s: State, ghost todo: set<Key>, k: Key, now: int)
      requires Swept(s, todo, now, Abs()) && k in todo
      modifies this`cache, this`lruList, this`lruMap, this`stats
      ensures Swept(s, todo - {k}, now, Abs())
    {
      hide LruOk, Live, Swept, KeepNodes, Total, EraseNode, CountExpired;
      ghost var before := Abs();
      SweptListed(s, todo, now, before, k);
      var kept := RemoveExpiredEntries(cache[k], now);
      if kept == [] {
        SweepDrops(s, todo, now, before, k);
        if k in lruMap {
          EraseListNode(lruMap[k]);
        }
        lruMap := lruMap - {k};
        cache := cache - {k};
      } else {
        SweepKeeps(s, todo, now, before, k);
        cache := cache[k := kept];
      }
    }

    method SweepNS(now: int)
      modifies this`nsCache
      ensures nsCache == map d | d in old(nsCache) && !old(nsCache)[d].IsExpired(now) :: old(nsCache)[d]
    {
      var todo := nsCache.Keys;
      while todo != {}
        invariant todo <= nsCache.Keys <= old(nsCache).Keys
        invariant forall d :: d in nsCache ==> nsCache[d] == old(nsCache)[d]
        invariant forall d :: d in old(nsCache) && d !in todo ==> (d in nsCache <==> !old(nsCache)[d].IsExpired(now))
        decreases todo
      {
        var d :| d in todo;
        todo := todo - {d};
        if nsCache[d].IsExpired(now) { nsCache := nsCache - {d}; }
      }
    }

    method SweepNegative(now: int)
      modifies this`negativeCache
      ensures negativeCache == map k | k in old(negativeCache) && !old(negativeCache)[k].IsExpired(now)
        :: old(negativeCache)[k]
    {
      var todo := negativeCache.Keys;
      while todo != {}
        invariant todo <= negativeCache.Keys <= old(negativeCache).Keys
        invariant forall k :: k in negativeCache ==> negativeCache[k] == old(negativeCache)[k]
        invariant forall k :: k in old(negativeCache) && k !in todo ==>
          (k in negativeCache <==> !old(negativeCache)[k].IsExpired(now))
        decreases todo
      {
        var k :| k in todo;
        todo := todo - {k};
        if negativeCache[k].IsExpired(now) { negativeCache := negativeCache - {k}; }
      }
    }
  }

  // ----- loop lemmas -----

  lemma {:induction false} EraseAt(list: seq<LruNode>, i: nat, id: nat)
    requires i < |list| && list[i].id == id && NoDuplicateIds(list)
    ensures EraseNode(list, id) == list[..i] + list[i + 1..]
    decreases |list|
  {
    NoDuplicateIdsCons(list);
    if i == 0 {
      EraseAbsent(list[1..], id);
    } else {
      EraseAt(list[1..], i - 1, id);
    }
  }

  lemma {:induction false} EraseAbsent(list: seq<LruNode>, id: nat)
    requires forall n :: n in list ==> n.id != id
    ensures EraseNode(list, id) == list
  {
    if list != [] {
      assert list[0] in list;
      EraseAbsent(list[1..], id);
    }
  }

  lemma {:induction false} LiveSnoc(bucket: seq<CacheEntry>, e: CacheEntry, now: int)
    ensures Live(bucket + [e], now) == Live(bucket, now) + if e.IsExpired(now) then [] else [e]
  {
    if bucket != [] {
      assert (bucket + [e])[1..] == bucket[1..] + [e];
      LiveSnoc(bucket[1..], e, now);
    }
  }

  lemma {:induction false} ServeSnoc(bucket: seq<CacheEntry>, e: CacheEntry, now: int)
    ensures Touched(bucket + [e]) == Touched(bucket) + [Touch(e)]
    ensures Served(bucket + [e], now) == Served(bucket, now) + [e.record.(ttl := e.RemainingTTL(now))]
  {
    if bucket != [] {
      assert (bucket + [e])[1..] == bucket[1..] + [e];
      ServeSnoc(bucket[1..], e, now);
    }
  }

  lemma {:induction false} KeptSnoc(cfg: Config, records: seq<DnsRecord>, r: DnsRecord, now: int)
    ensures Kept(cfg, records + [r], now) == Kept(cfg, records, now) +
      var ttl := EnforceTTLBounds(cfg, r.ttl);
      if ttl == 0 then [] else [NewEntry(r, ttl, now)]
  {
    hide EnforceTTLBounds;
    if records != [] {
      assert (records + [r])[1..] == records[1..] + [r];
      KeptSnoc(cfg, records[1..], r, now);
    }
  }

  lemma KeyListed(s: State, key: Key)
    requires LruOk(s)
    ensures key in s.lruMap ==> LruNode(s.lruMap[key], key) in s.lruList
    ensures NoDuplicateIds(s.lruList)
  {
  }

  lemma EvictShortens(s: State)
    requires s.lruList != []
    ensures |EvictLRU(s).lruList| < |s.lruList|
  {
  }

  /** The buckets half-way through a sweep: keys in `todo` are as they were, the others are cleaned. */
  function SweptCache(cache: map<Key, seq<CacheEntry>>, todo: set<Key>, now: int): map<Key, seq<CacheEntry>> {
    map k | k in cache && (k in todo || Live(cache[k], now) != [])
      :: if k in todo then cache[k] else Live(cache[k], now)
  }

  lemma SweptCacheStep(cache: map<Key, seq<CacheEntry>>, todo: set<Key>, now: int, k: Key)
    requires k in todo && k in cache
    ensures var mid, live := SweptCache(cache, todo, now), Live(cache[k], now);
      && k in mid && mid[k] == cache[k]
      && SweptCache(cache, todo - {k}, now) == if live == [] then mid - {k} else mid[k := live]
  {
    hide Live;
  }

  lemma SweptCacheEnds(cache: map<Key, seq<CacheEntry>>, now: int)
    ensures SweptCache(cache, cache.Keys, now) == cache
    ensures SweptCache(cache, {}, now) == Cleaned(cache, now)
  {
    hide Live;
  }

  ghost predicate Swept(s: State, todo: set<Key>, now: int, mid: State) {
    var gone := s.cache.Keys - mid.cache.Keys;
    && LruOk(s) && todo <= s.cache.Keys
    && mid.cache == SweptCache(s.cache, todo, now)
    && mid.lruList == KeepNodes(s.lruList, gone)
    && mid.lruMap == s.lruMap - gone
    && Total(mid.cache) <= Total(s.cache)
    && mid.stats == CountExpired(s.stats, Total(s.cache) - Total(mid.cache))
  }

  lemma SweepStarts(s: State, now: int)
    requires LruOk(s)
    ensures Swept(s, s.cache.Keys, now, s)
  {
    hide LruOk, Live, Total, SweptCache;
    KeepAll(s.lruList);
    CountTwice(s.stats, 0, 0);
    SweptCacheEnds(s.cache, now);
    hide CountExpired, KeepNodes;
    assert s.cache.Keys - s.cache.Keys == {};
    assert s.lruMap == s.lruMap - {};
  }

  lemma SweepEnds(s: State, now: int, mid: State)
    requires Swept(s, {}, now, mid)
    ensures mid.cache == Cleaned(s.cache, now)
    ensures mid.lruList == KeepNodes(s.lruList, s.cache.Keys - mid.cache.Keys)
    ensures mid.lruMap == s.lruMap - (s.cache.Keys - mid.cache.Keys)
    ensures Total(mid.cache) <= Total(s.cache) && mid.stats == CountExpired(s.stats, Total(s.cache) - Total(mid.cache))
  {
    SweptCacheEnds(s.cache, now);
    hide LruOk, Live, Total, KeepNodes, CountExpired, SweptCache, Cleaned;
  }

  /** Removing one more key from a swept list, given as a node erasure. */
  lemma {:induction false} EraseIsKeep(list: seq<LruNode>, gone: set<Key>, k: Key, id: nat)
    requires forall n :: n in list ==> (n.id == id <==> n.key == k)
    ensures EraseNode(KeepNodes(list, gone), id) == KeepNodes(list, gone + {k})
  {
    if list != [] {
      assert list[0] in list;
      assert forall n :: n in list[1..] ==> n in list;
      EraseIsKeep(list[1..], gone, k, id);
      if list[0].key !in gone { assert KeepNodes(list, gone)[1..] == KeepNodes(list[1..], gone); }
      else { assert KeepNodes(list, gone) == KeepNodes(list[1..], gone); }
    }
  }

  lemma IdsNameKeys(s: State, k: Key)
    requires LruOk(s) && k in s.lruMap
    ensures forall n :: n in s.lruList ==> (n.id == s.lruMap[k] <==> n.key == k)
    ensures LruNode(s.lruMap[k], k) in s.lruList
  {
    forall n | n in s.lruList && n.key != k ensures n.id != s.lruMap[k] {
      SameIdSameNode(s.lruList, s.lruMap, s.nextId, n.key, k);
    }
  }

  /** The bucket of `k` is as it was, and it is listed under its own node. */
  lemma SweptListed(s: State, todo: set<Key>, now: int, mid: State, k: Key)
    requires Swept(s, todo, now, mid) && k in todo
    ensures k in s.cache && k in mid.cache && mid.cache[k] == s.cache[k]
    ensures k in mid.lruMap && LruNode(mid.lruMap[k], k) in mid.lruList && NoDuplicateIds(mid.lruList)
    ensures EraseNode(mid.lruList, mid.lruMap[k]) == KeepNodes(s.lruList, s.cache.Keys - mid.cache.Keys + {k})
  {
    hide Live, Total, CountExpired, SweptCache;
    var gone := s.cache.Keys - mid.cache.Keys;
    SweptCacheStep(s.cache, todo, now, k);
    KeepNodesMembers(s.lruList, gone);
    IdsNameKeys(s, k);
    EraseIsKeep(s.lruList, gone, k, s.lruMap[k]);
    hide KeepNodes, EraseNode;
  }

  /** The sweep's state after `k`, from its parts. */
  lemma SweptNext(s: State, todo: set<Key>, now: int, mid: State, k: Key, next: State, removed: nat)
    requires Swept(s, todo, now, mid) && k in todo
    requires next.cache == SweptCache(s.cache, todo - {k}, now)
    requires next.lruList == KeepNodes(s.lruList, s.cache.Keys - next.cache.Keys)
    requires next.lruMap == s.lruMap - (s.cache.Keys - next.cache.Keys)
    requires next.stats == CountExpired(mid.stats, removed) && Total(next.cache) == Total(mid.cache) - removed
    ensures Swept(s, todo - {k}, now, next)
  {
    hide LruOk, Live, Total, KeepNodes, CountExpired, SweptCache;
    CountTwice(s.stats, Total(s.cache) - Total(mid.cache), removed);
  }

  lemma SweepDrops(s: State, todo: set<Key>, now: int, mid: State, k: Key)
    requires Swept(s, todo, now, mid) && k in todo && k in s.cache && Live(s.cache[k], now) == []
    requires k in mid.cache && k in mid.lruMap
    ensures Swept(s, todo - {k}, now,
      mid.(cache := mid.cache - {k}, lruList := EraseNode(mid.lruList, mid.lruMap[k]), lruMap := mid.lruMap - {k},
           stats := CountExpired(mid.stats, |s.cache[k]|)))
  {
    hide LruOk, Live, Total, KeepNodes, EraseNode, CountExpired, SweptCache;
    SweptListed(s, todo, now, mid, k);
    SweptCacheStep(s.cache, todo, now, k);
    GoneGrows(s.cache, mid.cache, k, s.lruMap, mid.lruMap);
    TotalUpdate(mid.cache, k, []);
    var next := mid.(cache := mid.cache - {k}, lruList := EraseNode(mid.lruList, mid.lruMap[k]),
      lruMap := mid.lruMap - {k}, stats := CountExpired(mid.stats, |s.cache[k]|));
    SweptNext(s, todo, now, mid, k, next, |s.cache[k]|);
    hide Swept;
  }

  lemma GoneGrows(cache: map<Key, seq<CacheEntry>>, mid: map<Key, seq<CacheEntry>>, k: Key, ids: map<Key, nat>,
    left: map<Key, nat>)
    requires k in cache && left == ids - (cache.Keys - mid.Keys)
    ensures cache.Keys - (mid - {k}).Keys == cache.Keys - mid.Keys + {k}
    ensures left - {k} == ids - (cache.Keys - mid.Keys + {k})
  {
  }

  lemma SweepKeeps(s: State, todo: set<Key>, now: int, mid: State, k: Key)
    requires Swept(s, todo, now, mid) && k in todo && k in s.cache && Live(s.cache[k], now) != []
    requires k in mid.cache && mid.cache[k] == s.cache[k]
    ensures Swept(s, todo - {k}, now,
      mid.(cache := mid.cache[k := Live(s.cache[k], now)],
           stats := CountExpired(mid.stats, |s.cache[k]| - |Live(s.cache[k], now)|)))
  {
    hide LruOk, Live, Total, KeepNodes, CountExpired, SweptCache;
    var live := Live(s.cache[k], now);
    SweptCacheStep(s.cache, todo, now, k);
    TotalUpdate(mid.cache, k, live);
    var next := mid.(cache := mid.cache[k := live], stats := CountExpired(mid.stats, |s.cache[k]| - |live|));
    assert next.cache.Keys == mid.cache.Keys;
    SweptNext(s, todo, now, mid, k, next, |s.cache[k]| - |live|);
    hide Swept;
  }
}

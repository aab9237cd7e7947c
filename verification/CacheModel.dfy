/** lib/cache/DnsCache.hpp and CacheEntry.hpp as values: the cache's state and what each operation does to it.
    The class `DnsCacheObject.DnsCache` performs these steps in place; the lemmas about runs speak of these
    functions. */
module CacheModel {
  import opened Bytes
  import opened QueryTypes
  import opened DnsRecords
  import opened MapSums
  import opened Runs

  const MAX_ENTRIES: nat := 10000
  const MAX_NS_ENTRIES: nat := 1000
  const SIZE_T: nat := 0x1_0000_0000_0000_0000

  type size_t = n: int | 0 <= n < SIZE_T

  /** `size_t` arithmetic. */
  function Wrap(x: int): size_t { x % SIZE_T }

  /** A bucket's key: lower-cased name, colon, decimal type number. */
  type Key = seq<byte>

  datatype CacheEntry = CacheEntry(record: DnsRecord, insertedAt: int, expiresAt: int, originalTTL: u32,
    hitCount: u32) {
    predicate IsExpired(now: int) { now >= expiresAt }

    function RemainingTTL(now: int): u32 {
      if now >= expiresAt then 0 else (expiresAt - now) / SECOND % 0x1_0000_0000
    }
  }

  datatype NSCacheEntry = NSCacheEntry(ip: IPv4, insertedAt: int, expiresAt: int, originalTTL: u32, hitCount: u32) {
    predicate IsExpired(now: int) { now >= expiresAt }
  }

  datatype NegativeCacheEntry =
    NegativeCacheEntry(resCode: ResultCode, insertedAt: int, expiresAt: int, originalTTL: u32, hitCount: u32)
  {
    predicate IsExpired(now: int) { now >= expiresAt }
  }

  /** `currentEntries` is a `size_t` and wraps; the other counters only grow. */
  datatype CacheStats = CacheStats(
    hits: nat, misses: nat, inserts: nat, evictions: nat, expirations: nat,
    nsHits: nat, nsMisses: nat, nsInserts: nat, negHits: nat, negInserts: nat, currentEntries: size_t)

  /** A node of the doubly linked LRU list; `id` is the identity a `std::list` iterator denotes. */
  datatype LruNode = LruNode(id: nat, key: Key)

  datatype State = State(
    cache: map<Key, seq<CacheEntry>>,
    nsCache: map<Name, NSCacheEntry>,
    negativeCache: map<Key, NegativeCacheEntry>,
    lruList: seq<LruNode>,
    lruMap: map<Key, nat>,
    nextId: nat,
    stats: CacheStats)

  const EMPTY: State := State(map[], map[], map[], [], map[], 0, CacheStats(0, 0, 0, 0, 0, 0, 0, 0, 0, 0, 0))

  datatype Config = Config(minTTL: u32, maxTTL: u32)

  // ----- buckets -----

  function EnforceTTLBounds(cfg: Config, ttl: u32): u32 {
    if ttl == 0 then 0
    else if ttl < cfg.minTTL then cfg.minTTL
    else if ttl > cfg.maxTTL then cfg.maxTTL
    else ttl
  }

  function NewEntry(record: DnsRecord, ttl: u32, now: int): CacheEntry {
    CacheEntry(record, now, now + ttl * SECOND, ttl, 0)
  }

  /** The entries an insert keeps: a record whose bounded TTL is zero is skipped. */
  function Kept(cfg: Config, records: seq<DnsRecord>, now: int): seq<CacheEntry> {
    if records == [] then []
    else
      var ttl := EnforceTTLBounds(cfg, records[0].ttl);
      (if ttl == 0 then [] else [NewEntry(records[0], ttl, now)]) + Kept(cfg, records[1..], now)
  }

  function Live(bucket: seq<CacheEntry>, now: int): (live: seq<CacheEntry>)
    ensures |live| <= |bucket|
  {
    if bucket == [] then []
    else if bucket[0].IsExpired(now) then Live(bucket[1..], now)
    else [bucket[0]] + Live(bucket[1..], now)
  }

  function Touch(e: CacheEntry): CacheEntry { e.(hitCount := (e.hitCount + 1) % 0x1_0000_0000) }

  function Touched(bucket: seq<CacheEntry>): seq<CacheEntry> {
    if bucket == [] then [] else [Touch(bucket[0])] + Touched(bucket[1..])
  }

  /** The records of a bucket with their TTLs rewritten to what remains. */
  function Served(bucket: seq<CacheEntry>, now: int): (rs: seq<DnsRecord>)
    ensures |rs| == |bucket|
  {
    if bucket == [] then []
    else [bucket[0].record.(ttl := bucket[0].RemainingTTL(now))] + Served(bucket[1..], now)
  }

  function Bucket(s: State, key: Key): seq<CacheEntry> { if key in s.cache then s.cache[key] else [] }

  function BucketSize(bucket: seq<CacheEntry>): nat { |bucket| }

  /** Records held in all buckets. */
  ghost function Total(cache: map<Key, seq<CacheEntry>>): nat { SumBy(cache, BucketSize) }

  // ----- LRU list -----

  function EraseNode(list: seq<LruNode>, id: nat): seq<LruNode> {
    if list == [] then []
    else (if list[0].id == id then [] else [list[0]]) + EraseNode(list[1..], id)
  }

  function KeepNodes(list: seq<LruNode>, gone: set<Key>): seq<LruNode> {
    if list == [] then []
    else (if list[0].key in gone then [] else [list[0]]) + KeepNodes(list[1..], gone)
  }

  function UpdateLRU(s: State, key: Key): State {
    var rest := if key in s.lruMap then EraseNode(s.lruList, s.lruMap[key]) else s.lruList;
    s.(lruList := [LruNode(s.nextId, key)] + rest, lruMap := s.lruMap[key := s.nextId], nextId := s.nextId + 1)
  }

  function EvictLRU(s: State): State {
    if s.lruList == [] then s
    else
      var key := s.lruList[|s.lruList| - 1].key;
      s.(cache := s.cache - {key}, lruList := s.lruList[..|s.lruList| - 1], lruMap := s.lruMap - {key},
         stats := s.stats.(evictions := s.stats.evictions + 1,
                           currentEntries := Wrap(s.stats.currentEntries - |Bucket(s, key)|)))
  }

  /** The eviction loop of an insert. With an empty list and a full cache the source would spin. */
  function MakeRoom(s: State): State
    decreases |s.lruList|
  {
    if |s.cache| >= MAX_ENTRIES && |s.cache| > 0 && s.lruList != [] then MakeRoom(EvictLRU(s)) else s
  }

  // ----- operations -----

  function CountExpired(stats: CacheStats, removed: nat): CacheStats {
    stats.(expirations := stats.expirations + removed, currentEntries := Wrap(stats.currentEntries - removed))
  }

  function LookupStep(s: State, key: Key, now: int): (State, Option<seq<DnsRecord>>) {
    if key in s.negativeCache && !s.negativeCache[key].IsExpired(now) then
      (s.(stats := s.stats.(negHits := s.stats.negHits + 1)), Some([]))
    else
      LookupBucket(s.(negativeCache := s.negativeCache - {key}), key, now)
  }

  /** The positive half of a lookup; an emptied bucket goes, but its key stays in the LRU structures. */
  function LookupBucket(s: State, key: Key, now: int): (State, Option<seq<DnsRecord>>) {
    if key !in s.cache then (s.(stats := s.stats.(misses := s.stats.misses + 1)), None)
    else
      var live := Live(s.cache[key], now);
      var stats := CountExpired(s.stats, |s.cache[key]| - |live|);
      if live == [] then
        (s.(cache := s.cache - {key}, stats := stats.(misses := stats.misses + 1)), None)
      else
        (UpdateLRU(s.(cache := s.cache[key := Touched(live)], stats := stats.(hits := stats.hits + 1)), key),
         Some(Served(live, now)))
  }

  function LookupNSStep(s: State, domain: Name, now: int): (State, Option<IPv4>) {
    if domain !in s.nsCache then (s.(stats := s.stats.(nsMisses := s.stats.nsMisses + 1)), None)
    else
      var e := s.nsCache[domain];
      if e.IsExpired(now) then
        (s.(nsCache := s.nsCache - {domain}, stats := s.stats.(nsMisses := s.stats.nsMisses + 1)), None)
      else
        (s.(nsCache := s.nsCache[domain := e.(hitCount := (e.hitCount + 1) % 0x1_0000_0000)],
            stats := s.stats.(nsHits := s.stats.nsHits + 1)), Some(e.ip))
  }

  /** The bucket is overwritten, not merged, and `currentEntries` grows by the size of a moved-from vector: zero. */
  function InsertStep(cfg: Config, s: State, key: Key, records: seq<DnsRecord>, now: int): State {
    if records == [] then s
    else
      var kept, s1 := Kept(cfg, records, now), MakeRoom(s);
      if kept == [] then s1
      else UpdateLRU(Store(s1, key, kept), key)
  }

  function Store(s: State, key: Key, bucket: seq<CacheEntry>): State {
    s.(cache := s.cache[key := bucket], stats := s.stats.(inserts := s.stats.inserts + 1))
  }

  function InsertNSStep(cfg: Config, s: State, domain: Name, ip: IPv4, ttl: u32, now: int): State {
    var bounded := EnforceTTLBounds(cfg, ttl);
    if bounded == 0 || |s.nsCache| >= MAX_NS_ENTRIES then s
    else s.(nsCache := s.nsCache[domain := NSCacheEntry(ip, now, now + bounded * SECOND, bounded, 0)],
            stats := s.stats.(nsInserts := s.stats.nsInserts + 1))
  }

  /** Negative answers live between one and ten minutes. */
  function NegativeTTL(ttl: u32): u32 {
    var capped := if ttl < 600 then ttl else 600;
    if capped > 60 then capped else 60
  }

  function InsertNegativeStep(s: State, key: Key, resCode: ResultCode, ttl: u32, now: int): State {
    var bounded := NegativeTTL(ttl);
    s.(negativeCache := s.negativeCache[key := NegativeCacheEntry(resCode, now, now + bounded * SECOND, bounded, 0)],
       stats := s.stats.(negInserts := s.stats.negInserts + 1))
  }

  function Cleaned(cache: map<Key, seq<CacheEntry>>, now: int): map<Key, seq<CacheEntry>> {
    map k | k in cache && Live(cache[k], now) != [] :: Live(cache[k], now)
  }

  ghost function CleanupStep(s: State, now: int): State {
    var cleaned := Cleaned(s.cache, now);
    var gone := s.cache.Keys - cleaned.Keys;
    CleanedTotal(s.cache, now);
    s.(cache := cleaned, lruList := KeepNodes(s.lruList, gone), lruMap := s.lruMap - gone,
       stats := CountExpired(s.stats, Total(s.cache) - Total(cleaned)),
       nsCache := map d | d in s.nsCache && !s.nsCache[d].IsExpired(now) :: s.nsCache[d],
       negativeCache := map k | k in s.negativeCache && !s.negativeCache[k].IsExpired(now) :: s.negativeCache[k])
  }

  // ----- the structural invariant -----

  predicate NoDuplicateIds(list: seq<LruNode>) {
    forall i, j :: 0 <= i < j < |list| ==> list[i].id != list[j].id
  }

  /** Every listed key is mapped to its own node, and every mapped key is listed once. */
  predicate ListOk(list: seq<LruNode>, ids: map<Key, nat>, nextId: nat) {
    && (forall n :: n in list ==> n.key in ids && ids[n.key] == n.id && n.id < nextId)
    && (forall k :: k in ids ==> LruNode(ids[k], k) in list)
    && NoDuplicateIds(list)
  }

  /** Besides, every bucket is listed and none is empty. Keys of buckets dropped by a lookup may stay listed. */
  predicate LruOk(s: State) {
    && ListOk(s.lruList, s.lruMap, s.nextId)
    && s.cache.Keys <= s.lruMap.Keys
    && (forall k :: k in s.cache ==> s.cache[k] != [])
  }

  // ----- counter and bucket lemmas -----

  lemma WrapSub(x: int, n: int)
    ensures Wrap(Wrap(x) - n) == Wrap(x - n)
  {
    assert x % SIZE_T == x - x / SIZE_T * SIZE_T;
    WrapShift(x - n, 0 - x / SIZE_T);
  }

  lemma WrapShift(y: int, q: int)
    ensures Wrap(y + q * SIZE_T) == Wrap(y)
  {
    var z := y + q * SIZE_T;
    assert z == (y / SIZE_T + q) * SIZE_T + y % SIZE_T;
    WrapUnique(z, y / SIZE_T + q, y % SIZE_T);
  }

  lemma WrapUnique(z: int, q: int, r: int)
    requires z == q * SIZE_T + r && 0 <= r < SIZE_T
    ensures Wrap(z) == r
  {
  }

  lemma WrapSmall(n: size_t)
    ensures Wrap(n) == n
  {
  }

  lemma CountTwice(stats: CacheStats, m: nat, n: nat)
    ensures CountExpired(CountExpired(stats, m), n) == CountExpired(stats, m + n)
    ensures CountExpired(stats, 0) == stats
  {
    WrapSub(stats.currentEntries - m, n);
    WrapSmall(stats.currentEntries);
    hide Wrap;
  }

  lemma TotalUpdate(cache: map<Key, seq<CacheEntry>>, k: Key, bucket: seq<CacheEntry>)
    ensures Total(cache[k := bucket]) == Total(cache - {k}) + |bucket|
    ensures Total(cache - {k}) == Total(cache) - if k in cache then |cache[k]| else 0
  {
    SumUpdate(cache, BucketSize, k, bucket);
  }

  /** Filtering early changes nothing later. */
  lemma {:induction false} LiveTwice(bucket: seq<CacheEntry>, now: int, later: int)
    requires now <= later
    ensures Live(Live(bucket, now), later) == Live(bucket, later)
  {
    if bucket != [] {
      LiveTwice(bucket[1..], now, later);
      if !bucket[0].IsExpired(now) {
        assert Live(bucket, now)[1..] == Live(bucket[1..], now);
      }
    }
  }

  lemma {:induction false} CleanedTotal(cache: map<Key, seq<CacheEntry>>, now: int)
    ensures Total(Cleaned(cache, now)) <= Total(cache)
    decreases |cache|
  {
    if k :| k in cache {
      hide Total, Live;
      var less := cache - {k};
      assert less.Keys == cache.Keys - {k} && |less| < |cache|;
      CleanedTotal(less, now);
      TotalUpdate(cache, k, []);
      assert Cleaned(cache, now) - {k} == Cleaned(less, now);
      TotalUpdate(Cleaned(cache, now), k, []);
    } else {
      assert Cleaned(cache, now) == cache;
    }
  }

  lemma {:induction false} LiveTouched(bucket: seq<CacheEntry>, now: int)
    ensures |Touched(bucket)| == |bucket|
    ensures Live(Touched(bucket), now) == Touched(Live(bucket, now))
    ensures Served(Touched(bucket), now) == Served(bucket, now)
  {
    if bucket != [] {
      LiveTouched(bucket[1..], now);
      assert Touched(bucket)[1..] == Touched(bucket[1..]);
      if !bucket[0].IsExpired(now) { assert Live(bucket, now)[1..] == Live(bucket[1..], now); }
    }
  }

  // ----- every step keeps the invariant -----

  lemma {:induction false} EraseNodeMembers(list: seq<LruNode>, id: nat)
    ensures forall n :: n in EraseNode(list, id) <==> n in list && n.id != id
    ensures NoDuplicateIds(list) ==> NoDuplicateIds(EraseNode(list, id))
  {
    if list != [] {
      EraseNodeMembers(list[1..], id);
      NoDuplicateIdsCons(list);
      if list[0].id != id {
        NoDuplicateIdsCons(EraseNode(list, id));
        assert EraseNode(list, id)[1..] == EraseNode(list[1..], id);
      }
    }
  }

  lemma {:induction false} KeepNodesMembers(list: seq<LruNode>, gone: set<Key>)
    ensures forall n :: n in KeepNodes(list, gone) <==> n in list && n.key !in gone
    ensures NoDuplicateIds(list) ==> NoDuplicateIds(KeepNodes(list, gone))
  {
    if list != [] {
      KeepNodesMembers(list[1..], gone);
      NoDuplicateIdsCons(list);
      if list[0].key !in gone {
        NoDuplicateIdsCons(KeepNodes(list, gone));
        assert KeepNodes(list, gone)[1..] == KeepNodes(list[1..], gone);
      }
    }
  }

  lemma {:induction false} KeepAll(list: seq<LruNode>)
    ensures KeepNodes(list, {}) == list
  {
    if list != [] { KeepAll(list[1..]); }
  }

  lemma NoDuplicateIdsCons(list: seq<LruNode>)
    requires list != []
    ensures NoDuplicateIds(list) <==> NoDuplicateIds(list[1..]) && forall n :: n in list[1..] ==> n.id != list[0].id
  {
    if NoDuplicateIds(list[1..]) && forall n :: n in list[1..] ==> n.id != list[0].id {
      forall i, j | 0 <= i < j < |list| ensures list[i].id != list[j].id {
        if i > 0 { assert list[i] == list[1..][i - 1]; }
        assert list[j] == list[1..][j - 1];
      }
    }
  }

  lemma UpdateLRUKeepsOk(s: State, key: Key)
    requires LruOk(s.(cache := s.cache - {key}))
    requires forall k :: k in s.cache ==> s.cache[k] != []
    ensures LruOk(UpdateLRU(s, key))
  {
    FrontKeepsListOk(s.lruList, s.lruMap, s.nextId, key);
    hide ListOk, EraseNode;
    forall k | k in s.cache ensures k in s.lruMap[key := s.nextId] {
      if k != key { assert k in (s.cache - {key}).Keys; }
    }
  }

  lemma FrontKeepsListOk(list: seq<LruNode>, ids: map<Key, nat>, nextId: nat, key: Key)
    requires ListOk(list, ids, nextId)
    ensures var rest := if key in ids then EraseNode(list, ids[key]) else list;
      ListOk([LruNode(nextId, key)] + rest, ids[key := nextId], nextId + 1)
  {
    var rest := if key in ids then EraseNode(list, ids[key]) else list;
    OthersListed(list, ids, nextId, key);
    hide ListOk, EraseNode;
    NewFront(rest, ids, nextId, key);
  }

  /** Without its own node, a key leaves all others listed. */
  lemma OthersListed(list: seq<LruNode>, ids: map<Key, nat>, nextId: nat, key: Key)
    requires ListOk(list, ids, nextId)
    ensures var rest := if key in ids then EraseNode(list, ids[key]) else list;
      && (forall n :: n in rest ==> n.key != key && n.key in ids && ids[n.key] == n.id && n.id < nextId)
      && (forall k :: k in ids && k != key ==> LruNode(ids[k], k) in rest)
      && NoDuplicateIds(rest)
  {
    if key in ids { EraseNodeMembers(list, ids[key]); }
    hide EraseNode, NoDuplicateIds;
    forall k | k in ids && k != key ensures key in ids ==> ids[k] != ids[key] {
      SameIdSameNode(list, ids, nextId, k, key);
    }
  }

  lemma NewFront(rest: seq<LruNode>, ids: map<Key, nat>, nextId: nat, key: Key)
    requires forall n :: n in rest ==> n.key != key && n.key in ids && ids[n.key] == n.id && n.id < nextId
    requires forall k :: k in ids && k != key ==> LruNode(ids[k], k) in rest
    requires NoDuplicateIds(rest)
    ensures ListOk([LruNode(nextId, key)] + rest, ids[key := nextId], nextId + 1)
  {
    var list := [LruNode(nextId, key)] + rest;
    assert list[1..] == rest && list[0] == LruNode(nextId, key);
    NoDuplicateIdsCons(list);
    hide NoDuplicateIds;
  }

  lemma SameIdSameNode(list: seq<LruNode>, ids: map<Key, nat>, nextId: nat, j: Key, k: Key)
    requires ListOk(list, ids, nextId) && j in ids && j != k
    ensures k in ids ==> ids[j] != ids[k]
  {
    if k in ids {
      var a :| 0 <= a < |list| && list[a] == LruNode(ids[j], j);
      var b :| 0 <= b < |list| && list[b] == LruNode(ids[k], k);
    }
  }

  lemma EvictLRUKeepsOk(s: State)
    requires LruOk(s)
    ensures LruOk(EvictLRU(s))
  {
    if s.lruList != [] {
      var s', last := EvictLRU(s), s.lruList[|s.lruList| - 1];
      assert last in s.lruList;
      forall n | n in s'.lruList ensures n.key != last.key && n in s.lruList {
        var i :| 0 <= i < |s'.lruList| && s'.lruList[i] == n;
        assert s.lruList[i] == n;
      }
      forall k | k in s'.lruMap ensures LruNode(s'.lruMap[k], k) in s'.lruList {
        var i :| 0 <= i < |s.lruList| && s.lruList[i] == LruNode(s.lruMap[k], k);
        assert s'.lruList[i] == s.lruList[i];
      }
    }
  }

  /** The loop ends with room for one more bucket, because a non-empty cache has a non-empty list. */
  lemma {:induction false} MakeRoomKeepsOk(s: State)
    requires LruOk(s)
    ensures LruOk(MakeRoom(s)) && |MakeRoom(s).cache| < MAX_ENTRIES
    decreases |s.lruList|
  {
    if |s.cache| >= MAX_ENTRIES {
      ListedWhenFull(s);
      EvictLRUKeepsOk(s);
      MakeRoomKeepsOk(EvictLRU(s));
    }
  }

  lemma ListedWhenFull(s: State)
    requires LruOk(s) && |s.cache| > 0
    ensures s.lruList != []
  {
    assert |s.cache.Keys| > 0;
    var k :| k in s.cache.Keys;
    assert k in s.lruMap;
  }

  lemma LookupKeepsOk(s: State, key: Key, now: int)
    requires LruOk(s)
    ensures LruOk(LookupStep(s, key, now).0)
  {
    hide LruOk, UpdateLRU, Live, Touched, Served, CountExpired;
    if key in s.cache && Live(s.cache[key], now) != []
      && !(key in s.negativeCache && !s.negativeCache[key].IsExpired(now)) {
      var live := Live(s.cache[key], now);
      LiveTouched(live, now);
      var stats := CountExpired(s.stats, |s.cache[key]| - |live|);
      var s' := s.(negativeCache := s.negativeCache - {key}, cache := s.cache[key := Touched(live)],
        stats := stats.(hits := stats.hits + 1));
      assert s'.cache - {key} == s.cache - {key};
      StoreKeepsOk(s, s', key);
      UpdateLRUKeepsOk(s', key);
    } else {
      DropKeepsOk(s, LookupStep(s, key, now).0, key);
    }
  }

  lemma DropKeepsOk(s: State, s': State, key: Key)
    requires LruOk(s) && (s'.cache == s.cache || s'.cache == s.cache - {key})
    requires s'.lruList == s.lruList && s'.lruMap == s.lruMap && s'.nextId == s.nextId
    ensures LruOk(s')
  {
  }

  lemma InsertKeepsOk(cfg: Config, s: State, key: Key, records: seq<DnsRecord>, now: int)
    requires LruOk(s)
    ensures LruOk(InsertStep(cfg, s, key, records, now))
    ensures records != [] ==> |InsertStep(cfg, s, key, records, now).cache| <= MAX_ENTRIES
  {
    hide LruOk, MakeRoom, UpdateLRU, Store, Kept;
    MakeRoomKeepsOk(s);
    var kept := Kept(cfg, records, now);
    if records != [] && kept != [] {
      StoreAndListKeepsOk(MakeRoom(s), key, kept);
    }
  }

  lemma StoreAndListKeepsOk(s: State, key: Key, bucket: seq<CacheEntry>)
    requires LruOk(s) && bucket != []
    ensures LruOk(UpdateLRU(Store(s, key, bucket), key))
    ensures |UpdateLRU(Store(s, key, bucket), key).cache| <= |s.cache| + 1
  {
    hide LruOk, UpdateLRU;
    var s' := Store(s, key, bucket);
    UpdateLRUCache(s', key);
    MapGrows(s.cache, key, bucket);
    assert s'.cache - {key} == s.cache - {key};
    StoreKeepsOk(s, s', key);
    UpdateLRUKeepsOk(s', key);
  }

  lemma MapGrows<K, V>(m: map<K, V>, k: K, v: V)
    ensures |m| <= |m[k := v]| <= |m| + 1
  {
    var m' := m[k := v];
    assert m'.Keys == m.Keys + {k};
  }

  lemma UpdateLRUCache(s: State, key: Key)
    ensures UpdateLRU(s, key).cache == s.cache
  {
  }

  lemma StoreKeepsOk(s: State, s': State, key: Key)
    requires LruOk(s) && key in s'.cache && s'.cache[key] != [] && s'.cache - {key} == s.cache - {key}
    requires s'.lruList == s.lruList && s'.lruMap == s.lruMap && s'.nextId == s.nextId
    ensures LruOk(s'.(cache := s'.cache - {key}))
    ensures forall k :: k in s'.cache ==> s'.cache[k] != []
  {
    forall k | k in s'.cache && k != key ensures k in s.cache && s'.cache[k] == s.cache[k] {
      assert k in s'.cache - {key} && (s'.cache - {key})[k] == s'.cache[k];
    }
  }

  lemma CleanupKeepsOk(s: State, now: int)
    requires LruOk(s)
    ensures LruOk(CleanupStep(s, now))
  {
    KeepNodesMembers(s.lruList, s.cache.Keys - Cleaned(s.cache, now).Keys);
  }
}

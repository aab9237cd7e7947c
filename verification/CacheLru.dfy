/** The LRU list of a run: it is ordered by recency, and eviction takes the least recently touched bucket. */
module CacheLru {
  import opened CacheModel
  import opened CacheKeys
  import opened CacheHistory
  import opened Runs

  /** Does the call, made in state `s`, store or hit the bucket of `k`? */
  predicate Touches(cfg: Config, s: State, c: Call<Op>, k: Key) {
    || Stores(cfg, c, k)
    || (c.op.Lookup? && KeyOf(c.op) == k && !NegativeAt(s, k, c.now) && RecordsLive(s, k, c.now) != [])
  }

  /** The number of the last call that stored or hit `k`; calls are numbered from one. */
  ghost function LastTouch(cfg: Config, calls: seq<Call<Op>>, k: Key): (n: nat)
    ensures n <= |calls|
  {
    if calls == [] then 0
    else if Touches(cfg, Run(cfg, Before(calls)), Last(calls), k) then |calls|
    else LastTouch(cfg, Before(calls), k)
  }

  /** Strictly decreasing last touches from the head of the list on. */
  ghost predicate ByRecency(cfg: Config, calls: seq<Call<Op>>, list: seq<LruNode>) {
    list == [] || (
      && (forall n :: n in list[1..] ==> LastTouch(cfg, calls, list[0].key) > LastTouch(cfg, calls, n.key))
      && ByRecency(cfg, calls, list[1..]))
  }

  lemma {:induction false} EraseKeepsOrder(cfg: Config, calls: seq<Call<Op>>, list: seq<LruNode>, id: nat)
    requires ByRecency(cfg, calls, list)
    ensures ByRecency(cfg, calls, EraseNode(list, id))
  {
    hide LastTouch;
    if list != [] {
      EraseKeepsOrder(cfg, calls, list[1..], id);
      EraseNodeMembers(list[1..], id);
      if list[0].id != id { assert EraseNode(list, id)[1..] == EraseNode(list[1..], id); }
      else { assert EraseNode(list, id) == EraseNode(list[1..], id); }
    }
  }

  lemma {:induction false} SweepKeepsOrder(cfg: Config, calls: seq<Call<Op>>, list: seq<LruNode>, gone: set<Key>)
    requires ByRecency(cfg, calls, list)
    ensures ByRecency(cfg, calls, KeepNodes(list, gone))
  {
    hide LastTouch;
    if list != [] {
      SweepKeepsOrder(cfg, calls, list[1..], gone);
      KeepNodesMembers(list[1..], gone);
      if list[0].key !in gone { assert KeepNodes(list, gone)[1..] == KeepNodes(list[1..], gone); }
      else { assert KeepNodes(list, gone) == KeepNodes(list[1..], gone); }
    }
  }

  lemma {:induction false} PrefixKeepsOrder(cfg: Config, calls: seq<Call<Op>>, list: seq<LruNode>, m: nat)
    requires ByRecency(cfg, calls, list) && m <= |list|
    ensures ByRecency(cfg, calls, list[..m])
    decreases m
  {
    hide LastTouch;
    if m > 0 {
      PrefixKeepsOrder(cfg, calls, list[1..], m - 1);
      assert list[..m][1..] == list[1..][..m - 1];
      assert forall n :: n in list[1..][..m - 1] ==> n in list[1..];
    }
  }

  lemma {:induction false} OrderAt(cfg: Config, calls: seq<Call<Op>>, list: seq<LruNode>, i: nat, j: nat)
    requires ByRecency(cfg, calls, list) && i < j < |list|
    ensures LastTouch(cfg, calls, list[i].key) > LastTouch(cfg, calls, list[j].key)
  {
    hide LastTouch;
    if i == 0 {
      assert list[j] == list[1..][j - 1];
    } else {
      OrderAt(cfg, calls, list[1..], i - 1, j - 1);
    }
  }

  /** A call that touches none of the listed keys leaves their order. */
  lemma {:induction false} UntouchedKeepsOrder(cfg: Config, calls: seq<Call<Op>>, list: seq<LruNode>)
    requires calls != [] && ByRecency(cfg, Before(calls), list)
    requires forall n :: n in list ==> !Touches(cfg, Run(cfg, Before(calls)), Last(calls), n.key)
    ensures ByRecency(cfg, calls, list)
  {
    hide Touches;
    if list != [] {
      assert list[0] in list;
      assert forall n :: n in list[1..] ==> n in list;
      UntouchedKeepsOrder(cfg, calls, list[1..]);
    }
  }

  /** The eviction loop drops a suffix of the list, and stops as soon as one bucket fits. */
  lemma {:induction false} MakeRoomDropsSuffix(s: State)
    requires LruOk(s)
    ensures MakeRoom(s).lruList <= s.lruList
    ensures |MakeRoom(s).cache| == if |s.cache| < MAX_ENTRIES then |s.cache| else MAX_ENTRIES - 1
    decreases |s.lruList|
  {
    if |s.cache| >= MAX_ENTRIES {
      ListedWhenFull(s);
      EvictLRUKeepsOk(s);
      EvictDropsAtMostOne(s);
      MakeRoomDropsSuffix(EvictLRU(s));
      hide LruOk;
      assert EvictLRU(s).lruList <= s.lruList;
    }
  }

  /** A dropped bucket was listed in the dropped suffix. */
  lemma {:induction false} VictimListed(s: State, k: Key) returns (j: nat)
    requires k in s.cache && k !in MakeRoom(s).cache
    ensures |MakeRoom(s).lruList| <= j < |s.lruList| && s.lruList[j].key == k
    decreases |s.lruList|
  {
    var s1 := EvictLRU(s);
    if k in s1.cache {
      j := VictimListed(s1, k);
    } else {
      j := |s.lruList| - 1;
      MakeRoomShortens(s1);
    }
  }

  lemma {:induction false} MakeRoomShortens(s: State)
    ensures |MakeRoom(s).lruList| <= |s.lruList|
    decreases |s.lruList|
  {
    if |s.cache| >= MAX_ENTRIES && s.lruList != [] { MakeRoomShortens(EvictLRU(s)); }
  }

  lemma BucketListed(s: State, k: Key) returns (i: nat)
    requires LruOk(s) && k in s.cache
    ensures i < |s.lruList| && s.lruList[i].key == k
  {
    assert LruNode(s.lruMap[k], k) in s.lruList;
    i :| i < |s.lruList| && s.lruList[i] == LruNode(s.lruMap[k], k);
  }

  lemma EvictDropsAtMostOne(s: State)
    ensures |s.cache| - 1 <= |EvictLRU(s).cache| <= |s.cache|
  {
    if s.lruList != [] {
      var key := s.lruList[|s.lruList| - 1].key;
      assert EvictLRU(s).cache.Keys == s.cache.Keys - {key};
      if key !in s.cache { assert s.cache.Keys - {key} == s.cache.Keys; }
    }
  }

  /** Moving `k` to the front after the call that touched it. */
  lemma TouchKeepsOrder(cfg: Config, calls: seq<Call<Op>>, s: State, k: Key)
    requires calls != [] && LruOk(s) && ByRecency(cfg, Before(calls), s.lruList)
    requires Touches(cfg, Run(cfg, Before(calls)), Last(calls), k)
    ensures ByRecency(cfg, calls, UpdateLRU(s, k).lruList)
  {
    var list := UpdateLRU(s, k).lruList;
    var rest := if k in s.lruMap then EraseNode(s.lruList, s.lruMap[k]) else s.lruList;
    assert list == [LruNode(s.nextId, k)] + rest && list[1..] == rest;
    if k in s.lruMap {
      EraseNodeMembers(s.lruList, s.lruMap[k]);
      EraseKeepsOrder(cfg, Before(calls), s.lruList, s.lruMap[k]);
    }
    hide EraseNode, Run;
    forall n | n in rest ensures n.key != k && !Touches(cfg, Run(cfg, Before(calls)), Last(calls), n.key) {
      OnlyOneTouched(cfg, Run(cfg, Before(calls)), Last(calls), k, n.key);
    }
    hide Touches;
    UntouchedKeepsOrder(cfg, calls, rest);
  }

  lemma OnlyOneTouched(cfg: Config, s: State, c: Call<Op>, j: Key, k: Key)
    requires Touches(cfg, s, c, j) && j != k
    ensures !Touches(cfg, s, c, k)
  {
    hide MakeCacheKey;
  }

  /** In every reachable state the list is ordered by recency, stale keys included. */
  lemma {:induction false} ListIsByRecency(cfg: Config, calls: seq<Call<Op>>)
    ensures ByRecency(cfg, calls, Run(cfg, calls).lruList)
  {
    hide LruOk, Step, Touches, LastTouch, ByRecency;
    if calls == [] {
      EmptyByRecency(cfg);
    } else {
      RunOk(cfg, Before(calls));
      ListIsByRecency(cfg, Before(calls));
      StepKeepsOrder(cfg, calls, Run(cfg, Before(calls)));
    }
  }

  lemma EmptyByRecency(cfg: Config)
    ensures ByRecency(cfg, [], EMPTY.lruList)
  {
  }

  lemma StepKeepsOrder(cfg: Config, calls: seq<Call<Op>>, s: State)
    requires calls != [] && s == Run(cfg, Before(calls)) && LruOk(s) && ByRecency(cfg, Before(calls), s.lruList)
    ensures ByRecency(cfg, calls, Step(cfg, s, Last(calls)).0.lruList)
  {
    hide LruOk, Touches, ByRecency, Run, LookupStep, InsertStep, CleanupStep, LookupNSStep, InsertNSStep,
      InsertNegativeStep, MakeCacheKey;
    var c := Last(calls);
    match c.op
    case Lookup(_, _) => LookupKeepsOrder(cfg, calls, s);
    case Insert(_, _, _) => InsertKeepsOrder(cfg, calls, s);
    case Cleanup => CleanupKeepsOrder(cfg, calls, s);
    case InsertNegative(_, _, resCode, ttl) =>
      InsertNegativeLeavesOthers(s, KeyOf(c.op), resCode, ttl, c.now);
      QuietKeepsOrder(cfg, calls, s);
    case LookupNS(d) =>
      LookupNSLeavesOthers(s, d, c.now);
      QuietKeepsOrder(cfg, calls, s);
    case InsertNS(d, ip, ttl) =>
      InsertNSLeavesOthers(cfg, s, d, ip, ttl, c.now);
      QuietKeepsOrder(cfg, calls, s);
  }

  lemma QuietKeepsOrder(cfg: Config, calls: seq<Call<Op>>, s: State)
    requires calls != [] && s == Run(cfg, Before(calls)) && ByRecency(cfg, Before(calls), s.lruList)
    requires !Last(calls).op.Lookup? && !Last(calls).op.Insert?
    ensures ByRecency(cfg, calls, s.lruList)
  {
    hide Run, ByRecency;
    UntouchedKeepsOrder(cfg, calls, s.lruList);
  }

  lemma CleanupKeepsOrder(cfg: Config, calls: seq<Call<Op>>, s: State)
    requires calls != [] && s == Run(cfg, Before(calls)) && ByRecency(cfg, Before(calls), s.lruList)
    requires Last(calls).op.Cleanup?
    ensures ByRecency(cfg, calls, CleanupStep(s, Last(calls).now).lruList)
  {
    hide Run, ByRecency, Cleaned, Total, KeepNodes;
    QuietKeepsOrder(cfg, calls, s);
    SweepKeepsOrder(cfg, calls, s.lruList, s.cache.Keys - Cleaned(s.cache, Last(calls).now).Keys);
  }

  lemma LookupKeepsOrder(cfg: Config, calls: seq<Call<Op>>, s: State)
    requires calls != [] && s == Run(cfg, Before(calls)) && LruOk(s) && ByRecency(cfg, Before(calls), s.lruList)
    requires Last(calls).op.Lookup?
    ensures ByRecency(cfg, calls, LookupStep(s, KeyOf(Last(calls).op), Last(calls).now).0.lruList)
  {
    hide Run, ByRecency, LruOk, MakeCacheKey;
    var c, k := Last(calls), KeyOf(Last(calls).op);
    LookupAnswer(s, k, c.now);
    if Touches(cfg, s, c, k) {
      TouchKeepsOrder(cfg, calls, s, k);
      HitMovesToFront(s, k, c.now);
    } else {
      forall n | n in s.lruList ensures !Touches(cfg, s, c, n.key) { }
      UntouchedKeepsOrder(cfg, calls, s.lruList);
      MissLeavesList(s, k, c.now);
    }
  }

  lemma HitMovesToFront(s: State, k: Key, now: int)
    requires !NegativeAt(s, k, now) && RecordsLive(s, k, now) != []
    ensures LookupStep(s, k, now).0.lruList == UpdateLRU(s, k).lruList
  {
    LiveNothing(now);
    hide Touched, EraseNode;
  }

  lemma MissLeavesList(s: State, k: Key, now: int)
    requires NegativeAt(s, k, now) || RecordsLive(s, k, now) == []
    ensures LookupStep(s, k, now).0.lruList == s.lruList
  {
    hide Touched, EraseNode;
  }

  lemma InsertKeepsOrder(cfg: Config, calls: seq<Call<Op>>, s: State)
    requires calls != [] && s == Run(cfg, Before(calls)) && LruOk(s) && ByRecency(cfg, Before(calls), s.lruList)
    requires Last(calls).op.Insert?
    ensures var c := Last(calls);
      ByRecency(cfg, calls, InsertStep(cfg, s, KeyOf(c.op), c.op.records, c.now).lruList)
  {
    hide Run, ByRecency, LruOk, MakeCacheKey, MakeRoom, Kept, EraseNode;
    var c, k := Last(calls), KeyOf(Last(calls).op);
    MakeRoomDropsSuffix(s);
    MakeRoomKeepsOk(s);
    PrefixKeepsOrder(cfg, Before(calls), s.lruList, |MakeRoom(s).lruList|);
    assert MakeRoom(s).lruList == s.lruList[..|MakeRoom(s).lruList|];
    KeptNothing(cfg, c.now);
    if Stores(cfg, c, k) {
      TouchKeepsOrder(cfg, calls, MakeRoom(s), k);
      UpdateLRUDependsOnList(cfg, s, k, c.op.records, c.now);
    } else if c.op.records == [] {
      UntouchedKeepsOrder(cfg, calls, s.lruList);
    } else {
      UntouchedKeepsOrder(cfg, calls, MakeRoom(s).lruList);
    }
  }

  lemma UpdateLRUDependsOnList(cfg: Config, s: State, k: Key, records: seq<DnsRecords.DnsRecord>, now: int)
    requires Kept(cfg, records, now) != []
    ensures InsertStep(cfg, s, k, records, now).lruList == UpdateLRU(MakeRoom(s), k).lruList
  {
    KeptNothing(cfg, now);
    hide Kept, MakeRoom, EraseNode;
  }

  /** The right victims: when an insert evicts, every bucket it drops was stored and last hit before every bucket it
      keeps, and it drops no more than it must. */
  lemma EvictionTakesLeastRecent(cfg: Config, calls: seq<Call<Op>>, victim: Key, survivor: Key)
    requires var s := Run(cfg, calls);
      victim in s.cache && victim !in MakeRoom(s).cache && survivor in MakeRoom(s).cache
    ensures LastTouch(cfg, calls, victim) < LastTouch(cfg, calls, survivor)
    ensures |MakeRoom(Run(cfg, calls)).cache| == MAX_ENTRIES - 1
  {
    var s := Run(cfg, calls);
    RunOk(cfg, calls);
    ListIsByRecency(cfg, calls);
    hide Run, LastTouch, ByRecency, LruOk, MakeRoom;
    MakeRoomDropsSuffix(s);
    MakeRoomKeepsOk(s);
    var j := VictimListed(s, victim);
    var i := BucketListed(MakeRoom(s), survivor);
    SmallerMeansFull(s, victim);
    OrderAt(cfg, calls, s.lruList, i, j);
  }

  lemma SmallerMeansFull(s: State, victim: Key)
    requires victim in s.cache && victim !in MakeRoom(s).cache
    ensures |s.cache| >= MAX_ENTRIES
  {
  }
}

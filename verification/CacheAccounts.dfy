/** Bookkeeping over runs of the cache: where records go and what the counters say. */
module CacheAccounts {
  import MapSums
  import opened Bytes
  import opened QueryTypes
  import opened DnsRecords
  import opened CacheModel
  import opened CacheKeys
  import opened CacheHistory
  import opened Runs

  /** Records and lookups counted from the history, not from the cache's own statistics. */
  datatype Tally = Tally(stored: nat, overwritten: nat, evicted: int, lookups: nat, nsLookups: nat)

  /** The tally after call `c`, made in state `s`. */
  ghost function NextTally(cfg: Config, s: State, c: Call<Op>, t: Tally): Tally {
    match c.op
    case Lookup(_, _) => t.(lookups := t.lookups + 1)
    case LookupNS(_) => t.(nsLookups := t.nsLookups + 1)
    case Insert(_, _, records) =>
      if records == [] then t
      else
        var room, kept := MakeRoom(s), Kept(cfg, records, c.now);
        t.(stored := t.stored + |kept|,
           overwritten := t.overwritten + (if kept == [] then 0 else |Bucket(room, KeyOf(c.op))|),
           evicted := t.evicted + (Total(s.cache) - Total(room.cache)))
    case InsertNegative(_, _, _, _) => t
    case InsertNS(_, _, _) => t
    case Cleanup => t
  }

  ghost function TallyOf(cfg: Config, calls: seq<Call<Op>>): Tally {
    if calls == [] then Tally(0, 0, 0, 0, 0)
    else NextTally(cfg, Run(cfg, Before(calls)), Last(calls), TallyOf(cfg, Before(calls)))
  }

  /** The accounts of a state: records in the cache, and the record counters of its statistics. */
  ghost predicate Balanced(s: State, t: Tally) {
    && t.stored == Total(s.cache) + s.stats.expirations + t.evicted + t.overwritten
    && t.lookups == s.stats.hits + s.stats.misses + s.stats.negHits
    && t.nsLookups == s.stats.nsHits + s.stats.nsMisses
    && s.stats.currentEntries == Wrap(0 - s.stats.expirations - t.evicted)
  }

  lemma EvictAccounts(s: State, base: int)
    requires s.stats.currentEntries == Wrap(base) && s.lruList != []
    ensures var s', n := EvictLRU(s), |Bucket(s, s.lruList[|s.lruList| - 1].key)|;
      && Total(s'.cache) == Total(s.cache) - n
      && s'.stats.currentEntries == Wrap(base - n)
      && s'.stats == s.stats.(evictions := s'.stats.evictions, currentEntries := s'.stats.currentEntries)
  {
    hide Wrap, Total;
    var key := s.lruList[|s.lruList| - 1].key;
    TotalUpdate(s.cache, key, []);
    WrapSub(base, |Bucket(s, key)|);
  }

  /** What an eviction loop does to the counters. */
  lemma {:induction false} MakeRoomAccounts(s: State, base: int)
    requires s.stats.currentEntries == Wrap(base)
    ensures var s' := MakeRoom(s);
      && Total(s'.cache) <= Total(s.cache)
      && s'.stats.currentEntries == Wrap(base - (Total(s.cache) - Total(s'.cache)))
      && s'.stats == s.stats.(evictions := s'.stats.evictions, currentEntries := s'.stats.currentEntries)
    decreases |s.lruList|
  {
    hide Wrap, Total, Bucket;
    if |s.cache| >= MAX_ENTRIES && |s.cache| > 0 && s.lruList != [] {
      EvictAccounts(s, base);
      MakeRoomAccounts(EvictLRU(s), base - |Bucket(s, s.lruList[|s.lruList| - 1].key)|);
    } else {
      assert MakeRoom(s) == s;
    }
  }

  /** Dropping `removed` records from one bucket, by either branch of a lookup. */
  lemma LookupAccounts(s: State, key: Key, now: int, base: int)
    requires s.stats.currentEntries == Wrap(base)
    ensures var s' := LookupStep(s, key, now).0;
      var gone := s'.stats.expirations - s.stats.expirations;
      && gone >= 0 && Total(s'.cache) == Total(s.cache) - gone
      && s'.stats.currentEntries == Wrap(base - gone)
      && s'.stats.hits + s'.stats.misses + s'.stats.negHits == s.stats.hits + s.stats.misses + s.stats.negHits + 1
      && s'.stats.nsHits + s'.stats.nsMisses == s.stats.nsHits + s.stats.nsMisses
  {
    hide Wrap, Live, Touched, Served, EraseNode, Total;
    if key in s.cache && !NegativeAt(s, key, now) {
      var live := Live(s.cache[key], now);
      TotalUpdate(s.cache, key, Touched(live));
      LiveTouched(live, now);
      WrapSub(base, |s.cache[key]| - |live|);
      if live == [] {
        assert LookupStep(s, key, now).0.cache == s.cache - {key};
      } else {
        assert LookupStep(s, key, now).0.cache == s.cache[key := Touched(live)];
      }
    }
  }

  lemma InsertAccounts(cfg: Config, s: State, key: Key, records: seq<DnsRecord>, now: int, base: int)
    requires s.stats.currentEntries == Wrap(base)
    ensures var s', room, kept := InsertStep(cfg, s, key, records, now), MakeRoom(s), Kept(cfg, records, now);
      var evicted := if records == [] then 0 else Total(s.cache) - Total(room.cache);
      && Total(s'.cache) == Total(s.cache) - evicted + |kept| - (if kept == [] then 0 else |Bucket(room, key)|)
      && s'.stats.currentEntries == Wrap(base - evicted)
      && s'.stats == s.stats.(evictions := s'.stats.evictions, inserts := s'.stats.inserts,
        currentEntries := s'.stats.currentEntries)
  {
    hide Wrap, MakeRoom, Kept, EraseNode, Total;
    var room, kept := MakeRoom(s), Kept(cfg, records, now);
    KeptNothing(cfg, now);
    if records != [] {
      MakeRoomAccounts(s, base);
      TotalUpdate(room.cache, key, kept);
    }
  }

  lemma CleanupAccounts(s: State, now: int, base: int)
    requires s.stats.currentEntries == Wrap(base)
    ensures var s' := CleanupStep(s, now);
      var gone := s'.stats.expirations - s.stats.expirations;
      && gone >= 0 && Total(s'.cache) == Total(s.cache) - gone
      && s'.stats == s.stats.(expirations := s'.stats.expirations, currentEntries := Wrap(base - gone))
  {
    hide Wrap, Total, Cleaned, KeepNodes;
    CleanedTotal(s.cache, now);
    WrapSub(base, Total(s.cache) - Total(Cleaned(s.cache, now)));
  }

  /** Over every run: each record ever stored is in a bucket, expired, evicted or overwritten; each lookup was a hit,
      a miss or a negative hit; and `currentEntries` counts departures only, downwards from zero modulo 2^64. */
  lemma {:induction false} RunBalanced(cfg: Config, calls: seq<Call<Op>>)
    ensures Balanced(Run(cfg, calls), TallyOf(cfg, calls)) && TallyOf(cfg, calls).evicted >= 0
  {
    hide Run, TallyOf, Step, Total, Balanced;
    if calls == [] {
      EmptyBalanced(cfg);
    } else {
      RunBalanced(cfg, Before(calls));
      RunStep(cfg, calls);
      StepBalanced(cfg, Run(cfg, Before(calls)), Last(calls), TallyOf(cfg, Before(calls)));
    }
  }

  lemma RunStep(cfg: Config, calls: seq<Call<Op>>)
    requires calls != []
    ensures Run(cfg, calls) == Step(cfg, Run(cfg, Before(calls)), Last(calls)).0
    ensures TallyOf(cfg, calls) == NextTally(cfg, Run(cfg, Before(calls)), Last(calls), TallyOf(cfg, Before(calls)))
  {
  }

  lemma EmptyBalanced(cfg: Config)
    ensures Balanced(Run(cfg, []), TallyOf(cfg, [])) && TallyOf(cfg, []).evicted >= 0
  {
    hide Balanced, Run, TallyOf;
    RunEmpty(cfg);
    NothingBalanced(EMPTY);
  }

  lemma NothingBalanced(s: State)
    requires |s.cache| == 0
    requires s.stats.hits == s.stats.misses == s.stats.negHits == s.stats.nsHits == s.stats.nsMisses == 0
    requires s.stats.expirations == s.stats.currentEntries == 0
    ensures Balanced(s, Tally(0, 0, 0, 0, 0))
  {
    hide Wrap;
    TotalEmpty(s.cache);
    hide Total;
    WrapUnique(0, 0, 0);
  }

  lemma TotalEmpty(cache: map<Key, seq<CacheEntry>>)
    requires |cache| == 0
    ensures Total(cache) == 0
  {
    MapSums.SumEmpty(cache, BucketSize);
  }

  lemma RunEmpty(cfg: Config)
    ensures Run(cfg, []) == EMPTY && TallyOf(cfg, []) == Tally(0, 0, 0, 0, 0)
  {
    hide Step, NextTally;
  }

  lemma StepBalanced(cfg: Config, s: State, c: Call<Op>, t: Tally)
    requires Balanced(s, t) && t.evicted >= 0
    ensures Balanced(Step(cfg, s, c).0, NextTally(cfg, s, c, t)) && NextTally(cfg, s, c, t).evicted >= 0
  {
    hide Wrap, Total, MakeCacheKey, LookupStep, InsertStep, CleanupStep, LookupNSStep, InsertNSStep,
      InsertNegativeStep, Kept, MakeRoom, Bucket;
    var base := 0 - s.stats.expirations - t.evicted;
    match c.op
    case Lookup(_, _) => LookupAccounts(s, KeyOf(c.op), c.now, base);
    case Insert(_, _, records) => InsertBalanced(cfg, s, c, t);
    case Cleanup => CleanupAccounts(s, c.now, base);
    case InsertNegative(_, _, resCode, ttl) => NegativeAccounts(s, KeyOf(c.op), resCode, ttl, c.now);
    case LookupNS(d) => LookupNSAccounts(s, d, c.now);
    case InsertNS(d, ip, ttl) => InsertNSAccounts(cfg, s, d, ip, ttl, c.now);
  }

  lemma InsertBalanced(cfg: Config, s: State, c: Call<Op>, t: Tally)
    requires c.op.Insert? && Balanced(s, t) && t.evicted >= 0
    ensures Balanced(Step(cfg, s, c).0, NextTally(cfg, s, c, t)) && NextTally(cfg, s, c, t).evicted >= 0
  {
    hide Wrap, Total, MakeCacheKey, InsertStep, Kept, MakeRoom, Bucket;
    var base := 0 - s.stats.expirations - t.evicted;
    InsertAccounts(cfg, s, KeyOf(c.op), c.op.records, c.now, base);
    MakeRoomAccounts(s, base);
    KeptNothing(cfg, c.now);
  }

  lemma NegativeAccounts(s: State, key: Key, resCode: ResultCode, ttl: u32, now: int)
    ensures var s' := InsertNegativeStep(s, key, resCode, ttl, now);
      s'.cache == s.cache && s'.stats == s.stats.(negInserts := s.stats.negInserts + 1)
  {
  }

  lemma LookupNSAccounts(s: State, d: Name, now: int)
    ensures var s' := LookupNSStep(s, d, now).0;
      && s'.cache == s.cache
      && s'.stats.nsHits + s'.stats.nsMisses == s.stats.nsHits + s.stats.nsMisses + 1
      && s'.stats == s.stats.(nsHits := s'.stats.nsHits, nsMisses := s'.stats.nsMisses)
  {
  }

  lemma InsertNSAccounts(cfg: Config, s: State, d: Name, ip: IPv4, ttl: u32, now: int)
    ensures var s' := InsertNSStep(cfg, s, d, ip, ttl, now);
      s'.cache == s.cache && s'.stats == s.stats.(nsInserts := s'.stats.nsInserts)
  {
  }

  /** Records that the inserts of a history kept: those offered with a bounded TTL other than zero. */
  function RecordsKept(cfg: Config, calls: seq<Call<Op>>): nat {
    if calls == [] then 0
    else
      RecordsKept(cfg, Before(calls))
      + if Last(calls).op.Insert? then |Kept(cfg, Last(calls).op.records, Last(calls).now)| else 0
  }

  /** What was stored is never all overwritten: the bucket stored last is still there, expired or evicted. */
  lemma {:induction false} SomethingRemains(cfg: Config, calls: seq<Call<Op>>)
    ensures TallyOf(cfg, calls).stored == RecordsKept(cfg, calls)
    ensures TallyOf(cfg, calls).overwritten <= TallyOf(cfg, calls).stored
    ensures RecordsKept(cfg, calls) > 0 ==> TallyOf(cfg, calls).overwritten < TallyOf(cfg, calls).stored
  {
    hide Run, TallyOf, Step, Total, NextTally, RecordsKept;
    KeptStep(cfg, calls);
    if calls == [] {
      RunEmpty(cfg);
    } else {
      SomethingRemains(cfg, Before(calls));
      RunBalanced(cfg, calls);
      RunStep(cfg, calls);
      TallyStored(cfg, Run(cfg, Before(calls)), Last(calls), TallyOf(cfg, Before(calls)));
      if Last(calls).op.Insert? && Kept(cfg, Last(calls).op.records, Last(calls).now) != [] {
        StoredIsHeld(cfg, Run(cfg, Before(calls)), Last(calls));
      }
      hide Kept;
    }
  }

  lemma KeptStep(cfg: Config, calls: seq<Call<Op>>)
    ensures RecordsKept(cfg, calls) ==
      if calls == [] then 0
      else
        RecordsKept(cfg, Before(calls))
        + if Last(calls).op.Insert? then |Kept(cfg, Last(calls).op.records, Last(calls).now)| else 0
  {
    hide Kept;
  }

  lemma TallyStored(cfg: Config, s: State, c: Call<Op>, t: Tally)
    ensures var t' := NextTally(cfg, s, c, t);
      var kept := if c.op.Insert? then |Kept(cfg, c.op.records, c.now)| else 0;
      t'.stored == t.stored + kept && (kept == 0 ==> t'.overwritten == t.overwritten)
  {
    KeptNothing(cfg, c.now);
    hide Kept, Total, MakeRoom;
  }

  lemma StoredIsHeld(cfg: Config, s: State, c: Call<Op>)
    requires c.op.Insert? && Kept(cfg, c.op.records, c.now) != []
    ensures Total(Step(cfg, s, c).0.cache) > 0
  {
    var s', k, kept := Step(cfg, s, c).0, KeyOf(c.op), Kept(cfg, c.op.records, c.now);
    KeptNothing(cfg, c.now);
    hide Kept, MakeRoom, EraseNode, MakeCacheKey, Total;
    assert s'.cache == MakeRoom(s).cache[k := kept];
    TotalUpdate(MakeRoom(s).cache, k, kept);
  }

  /** While fewer than 2^64 records have been kept, `currentEntries` is the number of records held exactly when no
      insert ever kept one. In any case it is so exactly when what was stored and not overwritten is nothing modulo
      2^64; adding what each insert stores and taking off what it overwrites would repair it. */
  lemma CurrentEntriesDrift(cfg: Config, calls: seq<Call<Op>>)
    ensures var s, t := Run(cfg, calls), TallyOf(cfg, calls);
      && (RecordsKept(cfg, calls) < SIZE_T ==>
            (s.stats.currentEntries == Wrap(Total(s.cache)) <==> RecordsKept(cfg, calls) == 0))
      && (s.stats.currentEntries == Wrap(Total(s.cache)) <==> Wrap(t.stored - t.overwritten) == 0)
      && Wrap(s.stats.currentEntries + t.stored - t.overwritten) == Wrap(Total(s.cache))
  {
    RunBalanced(cfg, calls);
    SomethingRemains(cfg, calls);
    hide Run, TallyOf, Total, RecordsKept;
    var s, t := Run(cfg, calls), TallyOf(cfg, calls);
    var base, net := 0 - s.stats.expirations - t.evicted, t.stored - t.overwritten;
    assert Total(s.cache) == base + net;
    WrapSub(base, 0 - net);
    WrapSame(base, net);
    if net < SIZE_T { WrapSmall(net); }
  }

  lemma WrapSame(x: int, n: int)
    ensures Wrap(x + n) == Wrap(x) <==> Wrap(n) == 0
  {
    if Wrap(n) == 0 {
      WrapShift(x, n / SIZE_T);
    }
    if Wrap(x + n) == Wrap(x) {
      assert n == ((x + n) / SIZE_T - x / SIZE_T) * SIZE_T;
      WrapUnique(n, (x + n) / SIZE_T - x / SIZE_T, 0);
    }
  }

  /** One stored record is enough for the counter to be wrong. */
  lemma CurrentEntriesMissesInserts(cfg: Config, r: DnsRecord)
    requires EnforceTTLBounds(cfg, r.ttl) != 0
    ensures var calls := [Call(Insert([], A, [r]), 0)];
      Total(Run(cfg, calls).cache) == 1 && Run(cfg, calls).stats.currentEntries == 0
  {
    var c := Call(Insert([], A, [r]), 0);
    assert Before([c]) == [] && Last([c]) == c;
    var kept := Kept(cfg, [r], 0);
    KeptNothing(cfg, 0);
    assert |kept| == 1 by { assert [r][1..] == []; }
    InsertAccounts(cfg, EMPTY, KeyOf(c.op), [r], 0, 0);
    TotalEmpty(EMPTY.cache);
    assert MakeRoom(EMPTY) == EMPTY;
    hide MakeCacheKey, InsertStep, Total, MakeRoom, Kept;
  }
}

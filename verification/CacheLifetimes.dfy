/** How long records live, over runs of the cache: TTLs stored, shown, and shown again. */
module CacheLifetimes {
  import opened Bytes
  import opened QueryTypes
  import opened DnsRecords
  import opened CacheModel
  import opened CacheKeys
  import opened CacheHistory
  import opened Places
  import opened Runs

  /** `stored` is what a TTL becomes: itself between the bounds, the lower one below them, the upper one above. */
  predicate MovedInto(cfg: Config, ttl: u32, stored: u32) {
    && ttl > 0 && stored > 0
    && (ttl < cfg.minTTL ==> stored == cfg.minTTL)
    && (cfg.minTTL <= ttl <= cfg.maxTTL ==> stored == ttl)
    && (cfg.minTTL <= ttl && cfg.maxTTL < ttl ==> stored == cfg.maxTTL)
  }

  /** A record is not cached at all if its TTL is zero, or if it would be moved down to an upper bound of zero. */
  predicate Storable(cfg: Config, ttl: u32) { ttl > 0 && (ttl < cfg.minTTL || cfg.maxTTL > 0) }

  lemma EnforcedExactly(cfg: Config, ttl: u32)
    ensures Storable(cfg, ttl) <==> EnforceTTLBounds(cfg, ttl) != 0
    ensures forall stored: u32 :: MovedInto(cfg, ttl, stored) <==>
      Storable(cfg, ttl) && stored == EnforceTTLBounds(cfg, ttl)
  {
  }

  lemma NegativeExactly(ttl: u32)
    ensures NegativeTTL(ttl) == if ttl < 60 then 60 else if ttl > 600 then 600 else ttl
  {
  }

  /** Stored as asked: with the record's own TTL moved into the bounds, and expiring exactly that long after. */
  predicate WellTimed(cfg: Config, e: CacheEntry, now: int) {
    && MovedInto(cfg, e.record.ttl, e.originalTTL)
    && e.insertedAt == now && e.expiresAt == now + e.originalTTL * SECOND
  }

  lemma {:induction false} KeptWellTimed(cfg: Config, records: seq<DnsRecord>, now: int, e: CacheEntry)
    requires e in Kept(cfg, records, now)
    ensures WellTimed(cfg, e, now) && e.record in records
    ensures cfg.minTTL <= cfg.maxTTL ==> cfg.minTTL <= e.originalTTL <= cfg.maxTTL
  {
    EnforcedExactly(cfg, records[0].ttl);
    if e in Kept(cfg, records[1..], now) {
      KeptWellTimed(cfg, records[1..], now, e);
    }
  }

  /** The TTL shown at `t`: never cut short by its 32 bits, down by at least the whole seconds elapsed since the store
      and since any earlier showing. */
  lemma RemainingShrinks(cfg: Config, e: CacheEntry, stored: int, t: int, later: int)
    requires WellTimed(cfg, e, stored) && stored <= t <= later
    ensures !e.IsExpired(t) ==> e.RemainingTTL(t) == (e.expiresAt - t) / SECOND
    ensures !e.IsExpired(t) ==> e.RemainingTTL(t) + (t - stored) / SECOND <= e.originalTTL
    ensures !e.IsExpired(later) ==> e.RemainingTTL(later) + (later - t) / SECOND <= e.RemainingTTL(t)
    ensures e.RemainingTTL(later) <= e.RemainingTTL(t) <= e.originalTTL
  {
    if !e.IsExpired(t) {
      assert e.expiresAt - t <= e.originalTTL * SECOND;
      DivMonotone(e.expiresAt - t, e.originalTTL * SECOND);
      assert (e.expiresAt - t) / SECOND <= e.originalTTL;
      SecondsAddUp(e.expiresAt - t, t - stored);
      if !e.IsExpired(later) {
        DivMonotone(e.expiresAt - later, e.expiresAt - t);
        SecondsAddUp(e.expiresAt - later, later - t);
      }
    }
  }

  lemma SecondsAddUp(a: nat, b: nat)
    ensures a / SECOND + b / SECOND <= (a + b) / SECOND
  {
  }

  lemma DivMonotone(a: int, b: int)
    requires 0 <= a <= b
    ensures a / SECOND <= b / SECOND
  {
  }

  /** The entries a lookup can serve come from one insert call, made no later than the lookup. */
  lemma {:induction false} LastStoredCall(cfg: Config, calls: seq<Call<Op>>, k: Key, t: int) returns (i: nat)
    requires Timely(calls, t) && LastStored(cfg, calls, k) != []
    ensures i < |calls| && Stores(cfg, calls[i], k) && calls[i].now <= t
    ensures LastStored(cfg, calls, k) == Kept(cfg, calls[i].op.records, calls[i].now)
  {
    hide Stores, Kept;
    if Stores(cfg, Last(calls), k) {
      i := |calls| - 1;
    } else {
      i := LastStoredCall(cfg, Before(calls), k, Last(calls).now);
    }
  }

  lemma {:induction false} LiveMembers(bucket: seq<CacheEntry>, now: int, i: nat)
    requires i < |Live(bucket, now)|
    ensures Live(bucket, now)[i] in bucket && !Live(bucket, now)[i].IsExpired(now)
  {
    if bucket[0].IsExpired(now) {
      LiveMembers(bucket[1..], now, i);
    } else if i > 0 {
      LiveMembers(bucket[1..], now, i - 1);
    }
  }

  /** Every record of a hit is one that some earlier insert under this key offered. Its TTL and the whole seconds since
      then together are at most the TTL it was offered with, moved into the configured bounds if it was outside. */
  lemma HitsAreFresh(cfg: Config, calls: seq<Call<Op>>, qname: Name, qtype: QueryType, t: int, j: nat)
    returns (i: nat, offered: DnsRecord, stored: u32)
    requires Timely(calls, t)
    requires var answer := Step(cfg, Run(cfg, calls), Call(Lookup(qname, qtype), t)).1.records;
      answer.Some? && j < |answer.value|
    ensures i < |calls| && calls[i].op.Insert? && KeyOf(calls[i].op) == MakeCacheKey(qname, qtype) && calls[i].now <= t
    ensures offered in calls[i].op.records
    ensures var served := Step(cfg, Run(cfg, calls), Call(Lookup(qname, qtype), t)).1.records.value[j];
      && served == offered.(ttl := served.ttl)
      && MovedInto(cfg, offered.ttl, stored) && served.ttl + (t - calls[i].now) / SECOND <= stored
      && (cfg.minTTL <= offered.ttl <= cfg.maxTTL ==> served.ttl + (t - calls[i].now) / SECOND <= offered.ttl)
  {
    var k := MakeCacheKey(qname, qtype);
    LookupFromHistory(cfg, calls, qname, qtype, t);
    hide Run, Step, MakeCacheKey, NegativeStands, Evicted;
    var bucket := LastStored(cfg, calls, k);
    var live := Live(bucket, t);
    var answer := Step(cfg, Run(cfg, calls), Call(Lookup(qname, qtype), t)).1.records;
    assert answer.value == Served(live, t);
    LiveMembers(bucket, t, j);
    ServedRecords(live, t, j);
    i := LastStoredCall(cfg, calls, k, t);
    hide LastStored, Live, Served;
    var e := live[j];
    KeptWellTimed(cfg, calls[i].op.records, calls[i].now, e);
    RemainingShrinks(cfg, e, calls[i].now, t, t);
    offered, stored := e.record, e.originalTTL;
  }

  lemma {:induction false} LastStoredStays(cfg: Config, calls: seq<Call<Op>>, more: seq<Call<Op>>, k: Key)
    requires forall c :: c in more ==> !Stores(cfg, c, k)
    ensures LastStored(cfg, calls + more, k) == LastStored(cfg, calls, k)
    decreases |more|
  {
    hide Stores, Kept;
    if more == [] {
      assert calls + more == calls;
    } else {
      assert Before(calls + more) == calls + Before(more) && Last(calls + more) == Last(more);
      assert Last(more) in more;
      LastStoredStays(cfg, calls, Before(more), k);
    }
  }

  /** Where a surviving entry stood before: no earlier than it stands now. */
  lemma {:induction false} LivePlace(bucket: seq<CacheEntry>, now: int, j: nat) returns (i: nat)
    requires j < |Live(bucket, now)|
    ensures j <= i < |bucket| && Live(bucket, now)[j] == bucket[i] && !bucket[i].IsExpired(now)
  {
    if bucket[0].IsExpired(now) {
      i := LivePlace(bucket[1..], now, j);
      i := i + 1;
    } else if j == 0 {
      i := 0;
    } else {
      i := LivePlace(bucket[1..], now, j - 1);
      i := i + 1;
    }
  }

  /** Two hits on one key with no store under it in between: every record of the second was in the first, no earlier in
      the answer, and its TTL has fallen by at least the whole seconds between them. */
  lemma SuccessiveHits(cfg: Config, calls: seq<Call<Op>>, more: seq<Call<Op>>, qname: Name, qtype: QueryType,
    t: int, later: int, j: nat) returns (i: nat)
    requires Timely(calls, t) && Timely(calls + more, later) && t <= later
    requires forall c :: c in more ==> !Stores(cfg, c, MakeCacheKey(qname, qtype))
    requires var first := Step(cfg, Run(cfg, calls), Call(Lookup(qname, qtype), t)).1.records;
      first.Some? && first.value != []
    requires var second := Step(cfg, Run(cfg, calls + more), Call(Lookup(qname, qtype), later)).1.records;
      second.Some? && j < |second.value|
    ensures var first := Step(cfg, Run(cfg, calls), Call(Lookup(qname, qtype), t)).1.records;
      var second := Step(cfg, Run(cfg, calls + more), Call(Lookup(qname, qtype), later)).1.records;
      && j <= i < |first.value|
      && second.value[j] == first.value[i].(ttl := second.value[j].ttl)
      && second.value[j].ttl + (later - t) / SECOND <= first.value[i].ttl
  {
    var k := MakeCacheKey(qname, qtype);
    LookupFromHistory(cfg, calls, qname, qtype, t);
    LookupFromHistory(cfg, calls + more, qname, qtype, later);
    LastStoredStays(cfg, calls, more, k);
    hide Run, Step, MakeCacheKey, NegativeStands, Evicted, Stores;
    var stored := LastStored(cfg, calls, k);
    LiveTwice(stored, t, later);
    i := LivePlace(Live(stored, t), later, j);
    LiveMembers(stored, t, i);
    ServedRecords(Live(stored, t), t, i);
    ServedRecords(Live(stored, later), later, j);
    var c: nat := LastStoredCall(cfg, calls, k, t);
    hide LastStored, Live, Served;
    var e := Live(stored, t)[i];
    KeptWellTimed(cfg, calls[c].op.records, calls[c].now, e);
    RemainingShrinks(cfg, e, calls[c].now, t, later);
  }

  // ----- what survives of an insert -----

  /** A record stored at `stored` with this TTL is still served at `now`, with `left` seconds to live. */
  ghost predicate Survives(cfg: Config, ttl: u32, stored: int, now: int, left: u32) {
    exists s: u32 :: MovedInto(cfg, ttl, s) && now < stored + s * SECOND && left == (stored + s * SECOND - now) / SECOND
  }

  /** `answer` holds those of `records` that survive, from the places `at`, in order and with the seconds left. */
  ghost predicate Survivors(cfg: Config, records: seq<DnsRecord>, stored: int, now: int, answer: seq<DnsRecord>,
    at: seq<nat>)
  {
    && Ordered(at, |records|) && |answer| == |at|
    && (forall k :: 0 <= k < |at| ==>
          && answer[k] == records[at[k]].(ttl := answer[k].ttl)
          && Survives(cfg, records[at[k]].ttl, stored, now, answer[k].ttl))
    && (forall i, left :: 0 <= i < |records| && Survives(cfg, records[i].ttl, stored, now, left) ==> i in at)
  }

  lemma NewEntryLive(cfg: Config, r: DnsRecord, stored: int, now: int)
    requires stored <= now
    ensures var ttl := EnforceTTLBounds(cfg, r.ttl);
      var e := NewEntry(r, ttl, stored);
      && ((ttl != 0 && !e.IsExpired(now)) <==> exists left: u32 :: Survives(cfg, r.ttl, stored, now, left))
      && (ttl != 0 && !e.IsExpired(now) ==> Survives(cfg, r.ttl, stored, now, e.RemainingTTL(now)))
  {
    EnforcedExactly(cfg, r.ttl);
    var ttl := EnforceTTLBounds(cfg, r.ttl);
    var e := NewEntry(r, ttl, stored);
    if ttl != 0 && !e.IsExpired(now) {
      RemainingShrinks(cfg, e, stored, now, now);
      assert MovedInto(cfg, r.ttl, ttl);
      assert Survives(cfg, r.ttl, stored, now, e.RemainingTTL(now));
    }
    hide EnforceTTLBounds, MovedInto;
    forall left: u32 | Survives(cfg, r.ttl, stored, now, left) ensures ttl != 0 && !e.IsExpired(now) {
      var s: u32 :| MovedInto(cfg, r.ttl, s) && now < stored + s * SECOND;
    }
  }

  /** The served entries of one more record in front. */
  lemma ServedStep(cfg: Config, records: seq<DnsRecord>, stored: int, now: int)
    requires records != []
    ensures var ttl := EnforceTTLBounds(cfg, records[0].ttl);
      var e := NewEntry(records[0], ttl, stored);
      var rest := Served(Live(Kept(cfg, records[1..], stored), now), now);
      Served(Live(Kept(cfg, records, stored), now), now) ==
        if ttl == 0 || e.IsExpired(now) then rest else [records[0].(ttl := e.RemainingTTL(now))] + rest
  {
    hide EnforceTTLBounds;
    var ttl, kept := EnforceTTLBounds(cfg, records[0].ttl), Kept(cfg, records[1..], stored);
    var e := NewEntry(records[0], ttl, stored);
    if ttl == 0 {
      assert Kept(cfg, records, stored) == [] + kept == kept;
    } else {
      assert ([e] + kept)[1..] == kept;
      assert ([e] + Live(kept, now))[1..] == Live(kept, now);
    }
  }

  lemma SurvivorsStep(cfg: Config, records: seq<DnsRecord>, stored: int, now: int, answer: seq<DnsRecord>, at: seq<nat>)
    requires records != [] && Survivors(cfg, records[1..], stored, now, answer, at)
    requires forall left :: !Survives(cfg, records[0].ttl, stored, now, left)
    ensures Survivors(cfg, records, stored, now, answer, Shifted(at))
  {
    hide Survives, Shifted, Ordered;
    ShiftedPlaces(at, |records| - 1);
    var rest, all := records[1..], Shifted(at);
    forall k | 0 <= k < |all| ensures at[k] < |rest| && records[all[k]] == rest[at[k]] {
      OrderedInside(at, |rest|, k);
    }
    forall i, left | 0 <= i < |records| && Survives(cfg, records[i].ttl, stored, now, left) ensures i in all {
      if i > 0 { assert rest[i - 1] == records[i]; }
    }
  }

  lemma OrderedInside(at: seq<nat>, n: nat, k: nat)
    requires Ordered(at, n) && k < |at|
    ensures at[k] < n
  {
  }

  lemma SurvivorsCons(cfg: Config, records: seq<DnsRecord>, stored: int, now: int, answer: seq<DnsRecord>,
    at: seq<nat>, left: u32)
    requires records != [] && Survivors(cfg, records[1..], stored, now, answer, at)
    requires Survives(cfg, records[0].ttl, stored, now, left)
    ensures Survivors(cfg, records, stored, now, [records[0].(ttl := left)] + answer, [0] + Shifted(at))
  {
    hide Survives, Shifted, Ordered;
    ShiftedPlaces(at, |records| - 1);
    var rest, all, answer' := records[1..], [0] + Shifted(at), [records[0].(ttl := left)] + answer;
    forall k | 0 <= k < |all|
      ensures all[k] < |records| && answer'[k] == records[all[k]].(ttl := answer'[k].ttl)
      ensures Survives(cfg, records[all[k]].ttl, stored, now, answer'[k].ttl)
    {
      if k > 0 {
        OrderedInside(at, |rest|, k - 1);
        assert records[all[k]] == rest[at[k - 1]] && answer'[k] == answer[k - 1];
      }
    }
    forall i, l | 0 <= i < |records| && Survives(cfg, records[i].ttl, stored, now, l) ensures i in all {
      if i > 0 {
        assert rest[i - 1] == records[i];
        assert i in Shifted(at);
      } else {
        assert all[0] == 0;
      }
    }
  }

  /** Of the records offered by an insert a later hit serves exactly the survivors, in order. */
  lemma {:induction false} ServedAreSurvivors(cfg: Config, records: seq<DnsRecord>, stored: int, now: int)
    returns (at: seq<nat>)
    requires stored <= now
    ensures Survivors(cfg, records, stored, now, Served(Live(Kept(cfg, records, stored), now), now), at)
  {
    hide Survivors, Survives, Live, Kept, Served, EnforceTTLBounds;
    if records == [] {
      at := [];
      NoSurvivors(cfg, stored, now);
    } else {
      var before := ServedAreSurvivors(cfg, records[1..], stored, now);
      var answer := Served(Live(Kept(cfg, records[1..], stored), now), now);
      ServedStep(cfg, records, stored, now);
      NewEntryLive(cfg, records[0], stored, now);
      var e := NewEntry(records[0], EnforceTTLBounds(cfg, records[0].ttl), stored);
      if EnforceTTLBounds(cfg, records[0].ttl) == 0 || e.IsExpired(now) {
        SurvivorsStep(cfg, records, stored, now, answer, before);
        at := Shifted(before);
      } else {
        SurvivorsCons(cfg, records, stored, now, answer, before, e.RemainingTTL(now));
        at := [0] + Shifted(before);
      }
    }
  }

  lemma NoSurvivors(cfg: Config, stored: int, now: int)
    ensures Survivors(cfg, [], stored, now, Served(Live(Kept(cfg, [], stored), now), now), [])
  {
    hide Survives;
  }

  /** An NS lookup that answers gives the address of some earlier NS insert for the domain, within its TTL moved into
      the bounds. */
  lemma {:induction false} NsHitsAreFresh(cfg: Config, calls: seq<Call<Op>>, d: Name, t: int)
    returns (i: nat, stored: u32)
    requires Timely(calls, t) && LookupNSStep(Run(cfg, calls), d, t).1.Some?
    ensures i < |calls| && calls[i].op.InsertNS? && calls[i].op.domain == d
    ensures LookupNSStep(Run(cfg, calls), d, t).1 == Some(calls[i].op.ip)
    ensures MovedInto(cfg, calls[i].op.ttl, stored) && calls[i].now <= t < calls[i].now + stored * SECOND
  {
    LookupNSFromHistory(cfg, calls, d, t);
    hide LookupNSStep, MovedInto, EnforceTTLBounds;
    i, stored := LastAddress(cfg, calls, d, t);
  }

  lemma {:induction false} LastAddress(cfg: Config, calls: seq<Call<Op>>, d: Name, t: int) returns (i: nat, stored: u32)
    requires Timely(calls, t) && AddressStands(cfg, calls, d, t).Some?
    ensures i < |calls| && calls[i].op.InsertNS? && calls[i].op.domain == d
    ensures AddressStands(cfg, calls, d, t) == Some(calls[i].op.ip)
    ensures MovedInto(cfg, calls[i].op.ttl, stored) && calls[i].now <= t < calls[i].now + stored * SECOND
  {
    hide MovedInto, EnforceTTLBounds, Run;
    if StoresAddress(cfg, Run(cfg, Before(calls)), Last(calls), d) {
      i, stored := |calls| - 1, EnforceTTLBounds(cfg, Last(calls).op.ttl);
      EnforcedExactly(cfg, Last(calls).op.ttl);
    } else {
      TimelyLater(Before(calls), Last(calls).now, t);
      i, stored := LastAddress(cfg, Before(calls), d, t);
    }
  }

  // ----- what is removed -----

  lemma {:induction false} LiveExactly(bucket: seq<CacheEntry>, now: int, e: CacheEntry)
    ensures e in Live(bucket, now) <==> e in bucket && now < e.expiresAt
  {
    if bucket != [] {
      LiveExactly(bucket[1..], now, e);
      assert bucket == [bucket[0]] + bucket[1..];
    }
  }

  /** A cleanup removes what has expired, and that alone, from all three maps. */
  lemma CleanupRemovesExpired(s: State, now: int, k: Key, e: CacheEntry, d: Name)
    ensures var s' := CleanupStep(s, now);
      && (k in s'.cache && e in s'.cache[k] <==> k in s.cache && e in s.cache[k] && now < e.expiresAt)
      && (k in s'.cache ==> s'.cache[k] != [])
      && (d in s'.nsCache <==> d in s.nsCache && now < s.nsCache[d].expiresAt)
      && (d in s'.nsCache ==> s'.nsCache[d] == s.nsCache[d])
      && (k in s'.negativeCache <==> k in s.negativeCache && now < s.negativeCache[k].expiresAt)
      && (k in s'.negativeCache ==> s'.negativeCache[k] == s.negativeCache[k])
  {
    if k in s.cache { LiveExactly(s.cache[k], now, e); }
    hide Live, KeepNodes, Total;
  }

  /** A lookup that no negative entry answers leaves nothing expired under its key; all other keys keep what they
      had. */
  lemma LookupRemovesExpired(s: State, key: Key, now: int, k: Key)
    requires !NegativeAt(s, key, now)
    ensures var s' := LookupStep(s, key, now).0;
      && key !in s'.negativeCache && (key in s'.cache ==> s'.cache[key] != [])
      && (key in s'.cache ==> forall e :: e in s'.cache[key] ==> now < e.expiresAt)
      && (k != key ==> (k in s'.cache <==> k in s.cache) && (k in s.cache ==> s'.cache[k] == s.cache[k]))
  {
    hide Live, Touched, Served, EraseNode;
    if key in s.cache {
      var live := Live(s.cache[key], now);
      TouchedNothing();
      forall e | e in Touched(live) ensures now < e.expiresAt {
        var i := TouchedPlace(live, e);
        LiveMembers(s.cache[key], now, i);
      }
      LiveTouched(live, now);
    }
  }

  lemma TouchedNothing()
    ensures Touched([]) == []
  {
  }

  lemma {:induction false} TouchedPlace(bucket: seq<CacheEntry>, e: CacheEntry) returns (i: nat)
    requires e in Touched(bucket)
    ensures i < |bucket| && e == Touch(bucket[i])
  {
    if e == Touch(bucket[0]) {
      i := 0;
    } else {
      i := TouchedPlace(bucket[1..], e);
      i := i + 1;
    }
  }

  // ----- entries of reachable states -----

  predicate Seasoned(cfg: Config, bucket: seq<CacheEntry>, t: int) {
    forall e :: e in bucket ==> WellTimed(cfg, e, e.insertedAt) && e.insertedAt <= t
  }

  predicate WithinBounds(cfg: Config, ttl: u32) {
    ttl > 0 && (cfg.minTTL <= cfg.maxTTL ==> cfg.minTTL <= ttl <= cfg.maxTTL)
  }

  /** Every entry holds the lifetime it was given when it was stored, no later than `t`. */
  predicate AllTimed(cfg: Config, s: State, t: int) {
    && (forall k :: k in s.cache ==> Seasoned(cfg, s.cache[k], t))
    && (forall d :: d in s.nsCache ==>
          var e := s.nsCache[d];
          WithinBounds(cfg, e.originalTTL) && e.insertedAt <= t && e.expiresAt == e.insertedAt + e.originalTTL * SECOND)
    && (forall k :: k in s.negativeCache ==>
          var e := s.negativeCache[k];
          60 <= e.originalTTL <= 600 && e.insertedAt <= t && e.expiresAt == e.insertedAt + e.originalTTL * SECOND)
  }

  lemma {:induction false} LiveSeasoned(cfg: Config, bucket: seq<CacheEntry>, now: int, t: int)
    requires Seasoned(cfg, bucket, t)
    ensures Seasoned(cfg, Live(bucket, now), t)
  {
    hide WellTimed;
    if bucket != [] {
      assert bucket[0] in bucket;
      LiveSeasoned(cfg, bucket[1..], now, t);
    }
  }

  lemma {:induction false} TouchedSeasoned(cfg: Config, bucket: seq<CacheEntry>, t: int)
    requires Seasoned(cfg, bucket, t)
    ensures Seasoned(cfg, Touched(bucket), t)
  {
    if bucket != [] {
      assert bucket[0] in bucket;
      assert WellTimed(cfg, Touch(bucket[0]), bucket[0].insertedAt);
      hide WellTimed;
      TouchedSeasoned(cfg, bucket[1..], t);
    }
  }

  lemma KeptSeasoned(cfg: Config, records: seq<DnsRecord>, now: int)
    ensures Seasoned(cfg, Kept(cfg, records, now), now)
  {
    forall e | e in Kept(cfg, records, now) ensures WellTimed(cfg, e, e.insertedAt) && e.insertedAt <= now {
      KeptWellTimed(cfg, records, now, e);
    }
    hide Kept;
  }

  lemma TimedLater(cfg: Config, s: State, t: int, t': int)
    requires AllTimed(cfg, s, t) && t <= t'
    ensures AllTimed(cfg, s, t')
  {
    hide WellTimed, WithinBounds;
  }

  /** In every reachable state a cached entry's TTL is its record's own, moved into the configured bounds; an NS entry's
      is inside them, and a negative entry's lies between one and ten minutes. */
  lemma {:induction false} RunTimed(cfg: Config, calls: seq<Call<Op>>, t: int)
    requires Timely(calls, t)
    ensures AllTimed(cfg, Run(cfg, calls), t)
  {
    hide AllTimed, Step;
    if calls == [] {
      NothingTimed(cfg, t);
    } else {
      RunTimed(cfg, Before(calls), Last(calls).now);
      StepTimed(cfg, Run(cfg, Before(calls)), Last(calls));
      TimedLater(cfg, Run(cfg, calls), Last(calls).now, t);
    }
  }

  /** Whatever is in the cache has a TTL inside the bounds, and expires that long after it was stored. */
  lemma CachedTTLsInBounds(cfg: Config, calls: seq<Call<Op>>, t: int, k: Key, e: CacheEntry)
    requires Timely(calls, t) && k in Run(cfg, calls).cache && e in Run(cfg, calls).cache[k]
    ensures WithinBounds(cfg, e.originalTTL)
    ensures e.expiresAt == e.insertedAt + e.originalTTL * SECOND && e.insertedAt <= t
  {
    RunTimed(cfg, calls, t);
    hide Run;
  }

  lemma NothingTimed(cfg: Config, t: int)
    ensures AllTimed(cfg, EMPTY, t)
  {
  }

  lemma StepTimed(cfg: Config, s: State, c: Call<Op>)
    requires AllTimed(cfg, s, c.now)
    ensures AllTimed(cfg, Step(cfg, s, c).0, c.now)
  {
    hide MakeCacheKey, AllTimed, LookupStep, InsertStep, CleanupStep, InsertNegativeStep, LookupNSStep, InsertNSStep;
    match c.op
    case Lookup(_, _) => LookupTimed(cfg, s, KeyOf(c.op), c.now);
    case Insert(_, _, records) => InsertTimed(cfg, s, KeyOf(c.op), records, c.now);
    case Cleanup => CleanupTimed(cfg, s, c.now);
    case InsertNegative(_, _, resCode, ttl) => InsertNegativeTimed(cfg, s, KeyOf(c.op), resCode, ttl, c.now);
    case LookupNS(d) => LookupNSTimed(cfg, s, d, c.now);
    case InsertNS(d, ip, ttl) => InsertNSTimed(cfg, s, d, ip, ttl, c.now);
  }

  lemma InsertNegativeTimed(cfg: Config, s: State, key: Key, resCode: ResultCode, ttl: u32, now: int)
    requires AllTimed(cfg, s, now)
    ensures AllTimed(cfg, InsertNegativeStep(s, key, resCode, ttl, now), now)
  {
    hide Seasoned, WithinBounds;
  }

  lemma LookupNSTimed(cfg: Config, s: State, d: Name, now: int)
    requires AllTimed(cfg, s, now)
    ensures AllTimed(cfg, LookupNSStep(s, d, now).0, now)
  {
    hide Seasoned, WithinBounds;
  }

  lemma InsertNSTimed(cfg: Config, s: State, d: Name, ip: IPv4, ttl: u32, now: int)
    requires AllTimed(cfg, s, now)
    ensures AllTimed(cfg, InsertNSStep(cfg, s, d, ip, ttl, now), now)
  {
    EnforcedBounds(cfg, ttl);
    hide Seasoned, WithinBounds, EnforceTTLBounds;
  }

  lemma EnforcedBounds(cfg: Config, ttl: u32)
    ensures EnforceTTLBounds(cfg, ttl) != 0 ==> WithinBounds(cfg, EnforceTTLBounds(cfg, ttl))
  {
  }

  lemma LookupTimed(cfg: Config, s: State, key: Key, now: int)
    requires AllTimed(cfg, s, now)
    ensures AllTimed(cfg, LookupStep(s, key, now).0, now)
  {
    hide Seasoned, WithinBounds, Live, Touched, Served, EraseNode;
    if key in s.cache {
      LiveSeasoned(cfg, s.cache[key], now, now);
      TouchedSeasoned(cfg, Live(s.cache[key], now), now);
    }
  }

  lemma InsertTimed(cfg: Config, s: State, key: Key, records: seq<DnsRecord>, now: int)
    requires AllTimed(cfg, s, now)
    ensures AllTimed(cfg, InsertStep(cfg, s, key, records, now), now)
  {
    hide Seasoned, WithinBounds, Kept, MakeRoom, EraseNode;
    KeptSeasoned(cfg, records, now);
    MakeRoomKeepsBuckets(s);
  }

  lemma CleanupTimed(cfg: Config, s: State, now: int)
    requires AllTimed(cfg, s, now)
    ensures AllTimed(cfg, CleanupStep(s, now), now)
  {
    forall k | k in s.cache ensures Seasoned(cfg, Live(s.cache[k], now), now) {
      LiveSeasoned(cfg, s.cache[k], now, now);
    }
    hide Seasoned, WithinBounds, Live, KeepNodes, Total;
  }
}

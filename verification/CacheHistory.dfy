/** Runs of the cache: what a lookup answers is determined by the history of calls, not by when buckets were cleaned. */
module CacheHistory {
  import opened Bytes
  import opened QueryTypes
  import opened DnsRecords
  import opened CacheModel
  import opened CacheKeys
  import opened Runs

  datatype Op =
    | Lookup(qname: Name, qtype: QueryType)
    | Insert(qname: Name, qtype: QueryType, records: seq<DnsRecord>)
    | InsertNegative(qname: Name, qtype: QueryType, resCode: ResultCode, ttl: u32)
    | LookupNS(domain: Name)
    | InsertNS(domain: Name, ip: IPv4, ttl: u32)
    | Cleanup

  datatype Answer = Records(records: Option<seq<DnsRecord>>) | Address(address: Option<IPv4>) | Nothing

  ghost function Step(cfg: Config, s: State, c: Call<Op>): (State, Answer) {
    match c.op
    case Lookup(qname, qtype) =>
      var (s', r) := LookupStep(s, MakeCacheKey(qname, qtype), c.now);
      (s', Records(r))
    case Insert(qname, qtype, records) => (InsertStep(cfg, s, MakeCacheKey(qname, qtype), records, c.now), Nothing)
    case InsertNegative(qname, qtype, resCode, ttl) =>
      (InsertNegativeStep(s, MakeCacheKey(qname, qtype), resCode, ttl, c.now), Nothing)
    case LookupNS(domain) =>
      var (s', r) := LookupNSStep(s, domain, c.now);
      (s', Address(r))
    case InsertNS(domain, ip, ttl) => (InsertNSStep(cfg, s, domain, ip, ttl, c.now), Nothing)
    case Cleanup => (CleanupStep(s, c.now), Nothing)
  }

  /** The state after a sequence of calls on a new cache. */
  ghost function Run(cfg: Config, calls: seq<Call<Op>>): State {
    if calls == [] then EMPTY else Step(cfg, Run(cfg, Before(calls)), Last(calls)).0
  }

  /** Every reachable state is structurally sound and holds at most ten thousand buckets and a thousand NS entries. */
  lemma {:induction false} RunOk(cfg: Config, calls: seq<Call<Op>>)
    ensures LruOk(Run(cfg, calls)) && |Run(cfg, calls).cache| <= 10000
    ensures |Run(cfg, calls).nsCache| <= 1000
  {
    if calls != [] {
      RunOk(cfg, Before(calls));
      StepKeepsOk(cfg, Run(cfg, Before(calls)), Last(calls));
      StepKeepsNsCap(cfg, Run(cfg, Before(calls)), Last(calls));
    }
    hide Step;
  }

  lemma StepKeepsNsCap(cfg: Config, s: State, c: Call<Op>)
    requires |s.nsCache| <= MAX_NS_ENTRIES
    ensures |Step(cfg, s, c).0.nsCache| <= MAX_NS_ENTRIES
  {
    hide MakeCacheKey, InsertStep, LookupStep, InsertNegativeStep, LookupNSStep, CleanupStep;
    match c.op
    case Lookup(_, _) => NegativeAfterLookup(s, KeyOf(c.op), c.now, [], c.now);
    case Insert(_, _, records) => InsertLeavesOthers(cfg, s, KeyOf(c.op), records, c.now);
    case Cleanup => CleanupShrinksNs(s, c.now);
    case InsertNegative(_, _, resCode, ttl) => InsertNegativeLeavesOthers(s, KeyOf(c.op), resCode, ttl, c.now);
    case LookupNS(d) => LookupNSShrinksNs(s, d, c.now);
    case InsertNS(d, ip, ttl) =>
      MapGrows(s.nsCache, d,
        NSCacheEntry(ip, c.now, c.now + EnforceTTLBounds(cfg, ttl) * SECOND, EnforceTTLBounds(cfg, ttl), 0));
  }

  lemma CleanupShrinksNs(s: State, now: int)
    ensures |CleanupStep(s, now).nsCache| <= |s.nsCache|
  {
    hide Cleaned, KeepNodes, Total;
    SubsetSize(CleanupStep(s, now).nsCache.Keys, s.nsCache.Keys);
  }

  lemma LookupNSShrinksNs(s: State, d: Name, now: int)
    ensures |LookupNSStep(s, d, now).0.nsCache| <= |s.nsCache|
  {
    SubsetSize(LookupNSStep(s, d, now).0.nsCache.Keys, s.nsCache.Keys);
  }

  lemma StepKeepsOk(cfg: Config, s: State, c: Call<Op>)
    requires LruOk(s) && |s.cache| <= MAX_ENTRIES
    ensures LruOk(Step(cfg, s, c).0) && |Step(cfg, s, c).0.cache| <= MAX_ENTRIES
  {
    hide LruOk, MakeCacheKey, InsertStep, LookupStep, CleanupStep, LookupNSStep, InsertNSStep, InsertNegativeStep;
    match c.op
    case Lookup(qname, qtype) =>
      LookupKeepsOk(s, MakeCacheKey(qname, qtype), c.now);
      LookupShrinks(s, MakeCacheKey(qname, qtype), c.now);
    case Insert(qname, qtype, records) =>
      InsertKeepsOk(cfg, s, MakeCacheKey(qname, qtype), records, c.now);
      if records == [] { InsertNoRecords(cfg, s, MakeCacheKey(qname, qtype), c.now); }
    case Cleanup =>
      CleanupKeepsOk(s, c.now);
      CleanupShrinks(s, c.now);
    case InsertNegative(_, _, resCode, ttl) =>
      InsertNegativeLeavesOthers(s, KeyOf(c.op), resCode, ttl, c.now);
      DropKeepsOk(s, Step(cfg, s, c).0, []);
    case LookupNS(d) =>
      LookupNSLeavesOthers(s, d, c.now);
      DropKeepsOk(s, Step(cfg, s, c).0, []);
    case InsertNS(d, ip, ttl) =>
      InsertNSLeavesOthers(cfg, s, d, ip, ttl, c.now);
      DropKeepsOk(s, Step(cfg, s, c).0, []);
  }

  lemma InsertNoRecords(cfg: Config, s: State, key: Key, now: int)
    ensures InsertStep(cfg, s, key, [], now) == s
  {
  }

  lemma CleanupShrinks(s: State, now: int)
    ensures |CleanupStep(s, now).cache| <= |s.cache|
  {
    hide Live, Total;
    SubsetSize(Cleaned(s.cache, now).Keys, s.cache.Keys);
  }

  lemma LookupShrinks(s: State, key: Key, now: int)
    ensures |LookupStep(s, key, now).0.cache| <= |s.cache|
  {
    hide Live, Touched, Served;
    var s' := LookupStep(s, key, now).0;
    assert s'.cache.Keys <= s.cache.Keys;
    SubsetSize(s'.cache.Keys, s.cache.Keys);
  }

  lemma {:induction false} SubsetSize<T>(a: set<T>, b: set<T>)
    requires a <= b
    ensures |a| <= |b|
  {
    assert b == a + (b - a);
  }

  // ----- what can be observed of a state -----

  predicate NegativeAt(s: State, k: Key, t: int) {
    k in s.negativeCache && !s.negativeCache[k].IsExpired(t)
  }

  function RecordsLive(s: State, k: Key, t: int): seq<DnsRecord> {
    Served(Live(Bucket(s, k), t), t)
  }

  function AddressAt(s: State, d: Name, t: int): Option<IPv4> {
    if d in s.nsCache && !s.nsCache[d].IsExpired(t) then Some(s.nsCache[d].ip) else None
  }

  /** A live negative entry wins; otherwise the live records, if any. */
  lemma LookupAnswer(s: State, k: Key, t: int)
    ensures LookupStep(s, k, t).1 ==
      if NegativeAt(s, k, t) then Some([])
      else if RecordsLive(s, k, t) == [] then None
      else Some(RecordsLive(s, k, t))
  {
  }

  lemma LookupNSAnswer(s: State, d: Name, t: int)
    ensures LookupNSStep(s, d, t).1 == AddressAt(s, d, t)
  {
  }

  // ----- what each call does to the observations -----

  function KeyOf(op: Op): Key
    requires op.Lookup? || op.Insert? || op.InsertNegative?
  {
    MakeCacheKey(op.qname, op.qtype)
  }

  /** Does the call put a new bucket under `k`? */
  predicate Stores(cfg: Config, c: Call<Op>, k: Key) {
    c.op.Insert? && KeyOf(c.op) == k && Kept(cfg, c.op.records, c.now) != []
  }

  /** Does the call, made in state `s`, drop the bucket of `k` to make room? */
  predicate Evicts(s: State, c: Call<Op>, k: Key) {
    c.op.Insert? && c.op.records != [] && k in s.cache && k !in MakeRoom(s).cache
  }

  predicate StoresNegative(c: Call<Op>, k: Key) { c.op.InsertNegative? && KeyOf(c.op) == k }

  predicate StoresAddress(cfg: Config, s: State, c: Call<Op>, d: Name) {
    c.op.InsertNS? && c.op.domain == d && EnforceTTLBounds(cfg, c.op.ttl) != 0 && |s.nsCache| < MAX_NS_ENTRIES
  }

  lemma {:induction false} MakeRoomKeepsBuckets(s: State)
    ensures var s' := MakeRoom(s);
      && (forall k :: k in s'.cache ==> k in s.cache && s'.cache[k] == s.cache[k])
      && s'.nsCache == s.nsCache && s'.negativeCache == s.negativeCache
    decreases |s.lruList|
  {
    if |s.cache| >= MAX_ENTRIES && |s.cache| > 0 && s.lruList != [] {
      MakeRoomKeepsBuckets(EvictLRU(s));
    }
  }

  lemma RecordsAfterInsert(cfg: Config, s: State, c: Call<Op>, k: Key, t: int)
    requires c.op.Insert? && c.now <= t
    ensures RecordsLive(Step(cfg, s, c).0, k, t) ==
      if Stores(cfg, c, k) then Served(Live(Kept(cfg, c.op.records, c.now), t), t)
      else if Evicts(s, c, k) then []
      else RecordsLive(s, k, t)
  {
    hide Served, Live, MakeRoom, Kept, EraseNode, MakeCacheKey;
    MakeRoomKeepsBuckets(s);
    KeptNothing(cfg, c.now);
    LiveNothing(t);
  }

  lemma KeptNothing(cfg: Config, now: int)
    ensures Kept(cfg, [], now) == []
  {
  }

  lemma LiveNothing(t: int)
    ensures Live([], t) == [] && Served([], t) == []
  {
  }

  lemma BucketAfterLookup(s: State, key: Key, now: int, k: Key, t: int)
    requires now <= t
    ensures RecordsLive(LookupStep(s, key, now).0, k, t) == RecordsLive(s, k, t)
  {
    if k == key && key in s.cache {
      var live := Live(s.cache[key], now);
      LiveTwice(s.cache[key], now, t);
      LiveTouched(live, t);
      LiveTouched(Live(live, t), t);
    }
    LiveNothing(t);
    hide Live, Served, Touched, EraseNode;
  }

  lemma BucketAfterCleanup(s: State, now: int, k: Key, t: int)
    requires now <= t
    ensures RecordsLive(CleanupStep(s, now), k, t) == RecordsLive(s, k, t)
  {
    if k in s.cache { LiveTwice(s.cache[k], now, t); }
    LiveNothing(t);
    hide Live, Served;
  }

  /** The live records at any later instant, call by call. */
  lemma RecordsAfterStep(cfg: Config, s: State, c: Call<Op>, k: Key, t: int)
    requires c.now <= t
    ensures RecordsLive(Step(cfg, s, c).0, k, t) ==
      if Stores(cfg, c, k) then Served(Live(Kept(cfg, c.op.records, c.now), t), t)
      else if Evicts(s, c, k) then []
      else RecordsLive(s, k, t)
  {
    hide RecordsLive, MakeCacheKey, Kept, Live, Served, MakeRoom, InsertStep, LookupStep, CleanupStep,
      LookupNSStep, InsertNSStep, InsertNegativeStep;
    match c.op
    case Lookup(qname, qtype) => BucketAfterLookup(s, MakeCacheKey(qname, qtype), c.now, k, t);
    case Insert(_, _, _) => RecordsAfterInsert(cfg, s, c, k, t);
    case Cleanup => BucketAfterCleanup(s, c.now, k, t);
    case InsertNegative(_, _, resCode, ttl) =>
      InsertNegativeLeavesOthers(s, KeyOf(c.op), resCode, ttl, c.now);
      SameBuckets(s, Step(cfg, s, c).0, k, t);
    case LookupNS(d) =>
      LookupNSLeavesOthers(s, d, c.now);
      SameBuckets(s, Step(cfg, s, c).0, k, t);
    case InsertNS(d, ip, ttl) =>
      InsertNSLeavesOthers(cfg, s, d, ip, ttl, c.now);
      SameBuckets(s, Step(cfg, s, c).0, k, t);
  }

  lemma NegativeAfterStep(cfg: Config, s: State, c: Call<Op>, k: Key, t: int)
    requires c.now <= t
    ensures NegativeAt(Step(cfg, s, c).0, k, t) ==
      if StoresNegative(c, k) then t < c.now + NegativeTTL(c.op.ttl) * SECOND else NegativeAt(s, k, t)
  {
    hide MakeCacheKey, InsertStep, LookupStep, LookupNSStep, InsertNSStep, CleanupStep, NegativeTTL;
    match c.op
    case Lookup(_, _) => NegativeAfterLookup(s, KeyOf(c.op), c.now, k, t);
    case Insert(_, _, records) => InsertLeavesOthers(cfg, s, KeyOf(c.op), records, c.now);
    case Cleanup => NegativeAfterCleanup(s, c.now, k, t);
    case InsertNegative(_, _, _, _) =>
    case LookupNS(d) => LookupNSLeavesOthers(s, d, c.now);
    case InsertNS(d, ip, ttl) => InsertNSLeavesOthers(cfg, s, d, ip, ttl, c.now);
  }

  lemma NegativeAfterLookup(s: State, key: Key, now: int, k: Key, t: int)
    requires now <= t
    ensures NegativeAt(LookupStep(s, key, now).0, k, t) == NegativeAt(s, k, t)
    ensures LookupStep(s, key, now).0.nsCache == s.nsCache
  {
    hide Live, Served, Touched, EraseNode;
  }

  lemma NegativeAfterCleanup(s: State, now: int, k: Key, t: int)
    requires now <= t
    ensures NegativeAt(CleanupStep(s, now), k, t) == NegativeAt(s, k, t)
  {
    hide Cleaned, KeepNodes, Total;
  }

  lemma LookupNSLeavesOthers(s: State, d: Name, now: int)
    ensures var s' := LookupNSStep(s, d, now).0;
      s'.cache == s.cache && s'.negativeCache == s.negativeCache
      && s'.lruList == s.lruList && s'.lruMap == s.lruMap && s'.nextId == s.nextId
  {
  }

  lemma InsertNSLeavesOthers(cfg: Config, s: State, d: Name, ip: IPv4, ttl: u32, now: int)
    ensures var s' := InsertNSStep(cfg, s, d, ip, ttl, now);
      s'.cache == s.cache && s'.negativeCache == s.negativeCache
      && s'.lruList == s.lruList && s'.lruMap == s.lruMap && s'.nextId == s.nextId
  {
  }

  lemma InsertNegativeLeavesOthers(s: State, key: Key, resCode: ResultCode, ttl: u32, now: int)
    ensures var s' := InsertNegativeStep(s, key, resCode, ttl, now);
      s'.cache == s.cache && s'.nsCache == s.nsCache
      && s'.lruList == s.lruList && s'.lruMap == s.lruMap && s'.nextId == s.nextId
  {
  }

  lemma AddressAfterStep(cfg: Config, s: State, c: Call<Op>, d: Name, t: int)
    requires c.now <= t
    ensures AddressAt(Step(cfg, s, c).0, d, t) ==
      if StoresAddress(cfg, s, c, d) then
        (if t < c.now + EnforceTTLBounds(cfg, c.op.ttl) * SECOND then Some(c.op.ip) else None)
      else AddressAt(s, d, t)
  {
    hide MakeCacheKey, InsertStep, LookupStep, LookupNSStep, InsertNSStep, InsertNegativeStep, CleanupStep,
      EnforceTTLBounds;
    match c.op
    case Lookup(_, _) => NegativeAfterLookup(s, KeyOf(c.op), c.now, [], t);
    case Insert(_, _, records) => InsertLeavesOthers(cfg, s, KeyOf(c.op), records, c.now);
    case Cleanup => AddressAfterCleanup(s, c.now, d, t);
    case InsertNegative(_, _, resCode, ttl) => InsertNegativeLeavesOthers(s, KeyOf(c.op), resCode, ttl, c.now);
    case LookupNS(domain) => AddressAfterLookupNS(s, domain, c.now, d, t);
    case InsertNS(domain, ip, ttl) => AddressAfterInsertNS(cfg, s, domain, ip, ttl, c.now, d, t);
  }

  lemma AddressAfterCleanup(s: State, now: int, d: Name, t: int)
    requires now <= t
    ensures AddressAt(CleanupStep(s, now), d, t) == AddressAt(s, d, t)
  {
    hide Cleaned, KeepNodes, Total;
  }

  lemma AddressAfterLookupNS(s: State, domain: Name, now: int, d: Name, t: int)
    requires now <= t
    ensures AddressAt(LookupNSStep(s, domain, now).0, d, t) == AddressAt(s, d, t)
  {
  }

  lemma AddressAfterInsertNS(cfg: Config, s: State, domain: Name, ip: IPv4, ttl: u32, now: int, d: Name, t: int)
    ensures AddressAt(InsertNSStep(cfg, s, domain, ip, ttl, now), d, t) ==
      if d == domain && EnforceTTLBounds(cfg, ttl) != 0 && |s.nsCache| < MAX_NS_ENTRIES
      then (if t < now + EnforceTTLBounds(cfg, ttl) * SECOND then Some(ip) else None)
      else AddressAt(s, d, t)
  {
    hide EnforceTTLBounds;
  }

  lemma SameBuckets(s: State, s': State, k: Key, t: int)
    requires s.cache == s'.cache
    ensures RecordsLive(s, k, t) == RecordsLive(s', k, t)
  {
  }

  lemma InsertLeavesOthers(cfg: Config, s: State, key: Key, records: seq<DnsRecord>, now: int)
    ensures InsertStep(cfg, s, key, records, now).nsCache == s.nsCache
    ensures InsertStep(cfg, s, key, records, now).negativeCache == s.negativeCache
  {
    hide MakeRoom, Kept;
    MakeRoomKeepsBuckets(s);
  }

  // ----- the history decides -----

  /** Entries of the latest insert under `k` that kept a record. */
  function LastStored(cfg: Config, calls: seq<Call<Op>>, k: Key): seq<CacheEntry> {
    if calls == [] then []
    else if Stores(cfg, Last(calls), k) then Kept(cfg, Last(calls).op.records, Last(calls).now)
    else LastStored(cfg, Before(calls), k)
  }

  /** Was the bucket of `k` evicted after that insert? */
  ghost predicate Evicted(cfg: Config, calls: seq<Call<Op>>, k: Key) {
    calls != [] && !Stores(cfg, Last(calls), k) &&
    (Evicts(Run(cfg, Before(calls)), Last(calls), k) || Evicted(cfg, Before(calls), k))
  }

  /** Is the latest negative answer for `k` still good at `t`? */
  predicate NegativeStands(calls: seq<Call<Op>>, k: Key, t: int) {
    calls != [] &&
    if StoresNegative(Last(calls), k) then t < Last(calls).now + NegativeTTL(Last(calls).op.ttl) * SECOND
    else NegativeStands(Before(calls), k, t)
  }

  lemma {:induction false} ObservedFromHistory(cfg: Config, calls: seq<Call<Op>>, k: Key, t: int)
    requires Timely(calls, t)
    ensures NegativeAt(Run(cfg, calls), k, t) == NegativeStands(calls, k, t)
    ensures RecordsLive(Run(cfg, calls), k, t) ==
      if Evicted(cfg, calls, k) then [] else Served(Live(LastStored(cfg, calls, k), t), t)
  {
    hide NegativeAt, RecordsLive, Stores, StoresNegative, Evicts, Served, Live, Kept, Step;
    if calls == [] {
      EmptyObserved(k, t);
    } else {
      TimelyLater(Before(calls), Last(calls).now, t);
      ObservedFromHistory(cfg, Before(calls), k, t);
      RecordsAfterStep(cfg, Run(cfg, Before(calls)), Last(calls), k, t);
      NegativeAfterStep(cfg, Run(cfg, Before(calls)), Last(calls), k, t);
    }
  }

  /** The address of the latest effective NS insert for `d`, while it lasts. */
  ghost function AddressStands(cfg: Config, calls: seq<Call<Op>>, d: Name, t: int): Option<IPv4> {
    if calls == [] then None
    else if StoresAddress(cfg, Run(cfg, Before(calls)), Last(calls), d) then
      if t < Last(calls).now + EnforceTTLBounds(cfg, Last(calls).op.ttl) * SECOND then Some(Last(calls).op.ip) else None
    else AddressStands(cfg, Before(calls), d, t)
  }

  lemma {:induction false} LookupNSFromHistory(cfg: Config, calls: seq<Call<Op>>, d: Name, t: int)
    requires Timely(calls, t)
    ensures LookupNSStep(Run(cfg, calls), d, t).1 == AddressStands(cfg, calls, d, t)
  {
    hide AddressAt, StoresAddress, Step, LookupNSStep, EnforceTTLBounds;
    LookupNSAnswer(Run(cfg, calls), d, t);
    if calls == [] {
      EmptyAddress(d, t);
    } else {
      TimelyLater(Before(calls), Last(calls).now, t);
      LookupNSFromHistory(cfg, Before(calls), d, t);
      LookupNSAnswer(Run(cfg, Before(calls)), d, t);
      AddressAfterStep(cfg, Run(cfg, Before(calls)), Last(calls), d, t);
    }
  }

  lemma EmptyAddress(d: Name, t: int)
    ensures AddressAt(EMPTY, d, t) == None
  {
  }

  lemma EmptyObserved(k: Key, t: int)
    ensures !NegativeAt(EMPTY, k, t) && RecordsLive(EMPTY, k, t) == [] && Served(Live([], t), t) == []
  {
  }

  /** The lookup contract over whole runs. An empty answer means a standing negative entry, and nothing else;
      a non-empty answer is the live part of the latest stored insert, in order, with remaining TTLs;
      a miss means that nothing of it is live or that its bucket was evicted. */
  lemma LookupFromHistory(cfg: Config, calls: seq<Call<Op>>, qname: Name, qtype: QueryType, t: int)
    requires Timely(calls, t)
    ensures var k := MakeCacheKey(qname, qtype);
      var answer := Step(cfg, Run(cfg, calls), Call(Lookup(qname, qtype), t)).1.records;
      var live := Served(Live(LastStored(cfg, calls, k), t), t);
      && (answer == Some([]) <==> NegativeStands(calls, k, t))
      && (answer.Some? && answer.value != [] ==> answer.value == live)
      && (answer == None <==> !NegativeStands(calls, k, t) && (live == [] || Evicted(cfg, calls, k)))
  {
    var k := MakeCacheKey(qname, qtype);
    ObservedFromHistory(cfg, calls, k, t);
    LookupAnswer(Run(cfg, calls), k, t);
    hide Run, LookupStep, NegativeAt, RecordsLive, Live, Served, MakeCacheKey;
  }

  /** Position by position: a served record is a live stored one, only its TTL replaced. */
  lemma {:induction false} ServedRecords(bucket: seq<CacheEntry>, now: int, i: nat)
    requires i < |Served(bucket, now)|
    ensures Served(bucket, now)[i] == bucket[i].record.(ttl := bucket[i].RemainingTTL(now))
  {
    if i > 0 { ServedRecords(bucket[1..], now, i - 1); }
  }

  // ----- cleaning is invisible -----

  /** `s2` looks like `s1` from `t` on, and holds no more keys. */
  ghost predicate Shadows(s1: State, s2: State, t: int) {
    && (forall k, u :: t <= u ==> RecordsLive(s1, k, u) == RecordsLive(s2, k, u))
    && (forall k, u :: t <= u ==> NegativeAt(s1, k, u) == NegativeAt(s2, k, u))
    && (forall d, u :: t <= u ==> AddressAt(s1, d, u) == AddressAt(s2, d, u))
    && s2.cache.Keys <= s1.cache.Keys && s2.nsCache.Keys <= s1.nsCache.Keys
  }

  ghost function Answers(cfg: Config, s: State, calls: seq<Call<Op>>): seq<Answer>
    decreases |calls|
  {
    if calls == [] then []
    else
      var (s', a) := Step(cfg, s, calls[0]);
      [a] + Answers(cfg, s', calls[1..])
  }

  predicate TimelyFrom(t: int, calls: seq<Call<Op>>)
    decreases |calls|
  {
    calls == [] || (t <= calls[0].now && TimelyFrom(calls[0].now, calls[1..]))
  }

  /** No insert finds the cache full, and no NS insert finds the NS cache full. */
  predicate HasRoom(s: State, c: Call<Op>) {
    && (c.op.Insert? && c.op.records != [] ==> |s.cache| < MAX_ENTRIES)
    && (c.op.InsertNS? ==> |s.nsCache| < MAX_NS_ENTRIES)
  }

  ghost predicate AlwaysRoom(cfg: Config, s: State, calls: seq<Call<Op>>)
    decreases |calls|
  {
    calls == [] || (HasRoom(s, calls[0]) && AlwaysRoom(cfg, Step(cfg, s, calls[0]).0, calls[1..]))
  }

  lemma RoomMeansNoEviction(s: State, c: Call<Op>, k: Key)
    requires HasRoom(s, c)
    ensures !Evicts(s, c, k)
  {
  }

  lemma ShadowStep(cfg: Config, s1: State, s2: State, c: Call<Op>, t: int)
    requires Shadows(s1, s2, t) && t <= c.now && HasRoom(s1, c)
    ensures Step(cfg, s1, c).1 == Step(cfg, s2, c).1
    ensures Shadows(Step(cfg, s1, c).0, Step(cfg, s2, c).0, c.now)
  {
    hide RecordsLive, NegativeAt, AddressAt, Stores, Evicts, Step, Live, Served, Kept;
    SubsetSize(s2.cache.Keys, s1.cache.Keys);
    SubsetSize(s2.nsCache.Keys, s1.nsCache.Keys);
    forall k, u | c.now <= u ensures RecordsLive(Step(cfg, s1, c).0, k, u) == RecordsLive(Step(cfg, s2, c).0, k, u) {
      RecordsAfterStep(cfg, s1, c, k, u);
      RecordsAfterStep(cfg, s2, c, k, u);
      RoomMeansNoEviction(s1, c, k);
      RoomMeansNoEviction(s2, c, k);
    }
    forall k, u | c.now <= u ensures NegativeAt(Step(cfg, s1, c).0, k, u) == NegativeAt(Step(cfg, s2, c).0, k, u) {
      NegativeAfterStep(cfg, s1, c, k, u);
      NegativeAfterStep(cfg, s2, c, k, u);
    }
    forall d, u | c.now <= u ensures AddressAt(Step(cfg, s1, c).0, d, u) == AddressAt(Step(cfg, s2, c).0, d, u) {
      AddressAfterStep(cfg, s1, c, d, u);
      AddressAfterStep(cfg, s2, c, d, u);
    }
    ShadowsLater(s1, s2, t, c.now);
    ShadowAnswers(cfg, s1, s2, c);
    ShadowKeys(cfg, s1, s2, c);
  }

  lemma ShadowAnswers(cfg: Config, s1: State, s2: State, c: Call<Op>)
    requires Shadows(s1, s2, c.now)
    ensures Step(cfg, s1, c).1 == Step(cfg, s2, c).1
  {
    hide RecordsLive, NegativeAt, AddressAt, LookupStep, LookupNSStep, MakeCacheKey;
    if c.op.Lookup? {
      LookupAnswer(s1, KeyOf(c.op), c.now);
      LookupAnswer(s2, KeyOf(c.op), c.now);
    }
    if c.op.LookupNS? {
      LookupNSAnswer(s1, c.op.domain, c.now);
      LookupNSAnswer(s2, c.op.domain, c.now);
    }
  }

  /** Which buckets a call can remove for want of live records. */
  predicate Sweeps(s: State, c: Call<Op>, k: Key) {
    c.op.Cleanup? || (c.op.Lookup? && KeyOf(c.op) == k && !NegativeAt(s, k, c.now))
  }

  /** The keys left after a call, where no insert evicts. */
  lemma KeysAfter(cfg: Config, s: State, c: Call<Op>, k: Key)
    requires HasRoom(s, c)
    ensures k in Step(cfg, s, c).0.cache <==>
      Stores(cfg, c, k) || (k in s.cache && (Sweeps(s, c, k) ==> RecordsLive(s, k, c.now) != []))
  {
    hide MakeCacheKey, Live, Served, Touched, Kept, EraseNode, KeepNodes, Total;
    KeptNothing(cfg, c.now);
    match c.op
    case Lookup(_, _) =>
    case Insert(_, _, _) => KeysAfterInsert(cfg, s, c, k);
    case Cleanup =>
    case InsertNegative(_, _, _, _) =>
    case LookupNS(_) =>
    case InsertNS(_, _, _) =>
  }

  lemma KeysAfterInsert(cfg: Config, s: State, c: Call<Op>, k: Key)
    requires c.op.Insert? && HasRoom(s, c)
    ensures k in Step(cfg, s, c).0.cache <==> Stores(cfg, c, k) || k in s.cache
  {
    hide MakeCacheKey, Kept, EraseNode;
    KeptNothing(cfg, c.now);
  }

  lemma NsKeysAfter(cfg: Config, s: State, c: Call<Op>, d: Name)
    requires HasRoom(s, c)
    ensures d in Step(cfg, s, c).0.nsCache <==>
      || StoresAddress(cfg, s, c, d)
      || (d in s.nsCache && (c.op.Cleanup? || (c.op.LookupNS? && c.op.domain == d) ==> AddressAt(s, d, c.now) != None))
  {
    hide MakeCacheKey, InsertStep, LookupStep, InsertNegativeStep, Cleaned, KeepNodes, Total;
    match c.op
    case Lookup(_, _) => NegativeAfterLookup(s, KeyOf(c.op), c.now, [], c.now);
    case Insert(_, _, records) => InsertLeavesOthers(cfg, s, KeyOf(c.op), records, c.now);
    case InsertNegative(_, _, resCode, ttl) => InsertNegativeLeavesOthers(s, KeyOf(c.op), resCode, ttl, c.now);
    case Cleanup =>
    case LookupNS(_) =>
    case InsertNS(_, _, _) =>
  }

  lemma ShadowKeys(cfg: Config, s1: State, s2: State, c: Call<Op>)
    requires Shadows(s1, s2, c.now) && HasRoom(s1, c) && HasRoom(s2, c)
    ensures Step(cfg, s2, c).0.cache.Keys <= Step(cfg, s1, c).0.cache.Keys
    ensures Step(cfg, s2, c).0.nsCache.Keys <= Step(cfg, s1, c).0.nsCache.Keys
  {
    hide RecordsLive, NegativeAt, AddressAt, Step, MakeCacheKey, Kept;
    forall k | k in Step(cfg, s2, c).0.cache ensures k in Step(cfg, s1, c).0.cache {
      KeysAfter(cfg, s1, c, k);
      KeysAfter(cfg, s2, c, k);
    }
    forall d | d in Step(cfg, s2, c).0.nsCache ensures d in Step(cfg, s1, c).0.nsCache {
      NsKeysAfter(cfg, s1, c, d);
      NsKeysAfter(cfg, s2, c, d);
    }
  }

  lemma ShadowsLater(s1: State, s2: State, t: int, t': int)
    requires Shadows(s1, s2, t) && t <= t'
    ensures Shadows(s1, s2, t')
  {
    hide RecordsLive, NegativeAt, AddressAt;
  }

  /** A shadow answers every later call alike for as long as the fuller state has room. */
  lemma {:induction false} ShadowRun(cfg: Config, s1: State, s2: State, t: int, calls: seq<Call<Op>>)
    requires Shadows(s1, s2, t) && TimelyFrom(t, calls) && AlwaysRoom(cfg, s1, calls)
    ensures Answers(cfg, s1, calls) == Answers(cfg, s2, calls)
    decreases |calls|
  {
    hide Shadows, Step, HasRoom;
    if calls != [] {
      ShadowStep(cfg, s1, s2, calls[0], t);
      ShadowRun(cfg, Step(cfg, s1, calls[0]).0, Step(cfg, s2, calls[0]).0, calls[0].now, calls[1..]);
    }
  }

  /** A call that only removes dead entries leaves a shadow of the state it found. */
  lemma SweepShadows(cfg: Config, s: State, c: Call<Op>)
    requires c.op.Cleanup? || c.op.Lookup?
    ensures Shadows(s, Step(cfg, s, c).0, c.now)
  {
    hide RecordsLive, NegativeAt, AddressAt, Step, HasRoom;
    var s' := Step(cfg, s, c).0;
    forall k, u | c.now <= u ensures RecordsLive(s, k, u) == RecordsLive(s', k, u) {
      RecordsAfterStep(cfg, s, c, k, u);
    }
    forall k, u | c.now <= u ensures NegativeAt(s, k, u) == NegativeAt(s', k, u) { NegativeAfterStep(cfg, s, c, k, u); }
    forall d, u | c.now <= u ensures AddressAt(s, d, u) == AddressAt(s', d, u) { AddressAfterStep(cfg, s, c, d, u); }
    SweepHasRoom(s, c);
    forall k | k in s'.cache ensures k in s.cache { KeysAfter(cfg, s, c, k); }
    forall d | d in s'.nsCache ensures d in s.nsCache { NsKeysAfter(cfg, s, c, d); }
  }

  lemma SweepHasRoom(s: State, c: Call<Op>)
    requires c.op.Cleanup? || c.op.Lookup?
    ensures HasRoom(s, c)
  {
  }

  /** Running the cleanup, or letting a lookup erase lazily, changes no later answer until an insert evicts
      or an NS insert meets its cap. */
  lemma CleaningIsInvisible(cfg: Config, s: State, t: int, qname: Name, qtype: QueryType, calls: seq<Call<Op>>)
    requires TimelyFrom(t, calls) && AlwaysRoom(cfg, s, calls)
    ensures Answers(cfg, s, calls) == Answers(cfg, CleanupStep(s, t), calls)
    ensures Answers(cfg, s, calls) == Answers(cfg, LookupStep(s, MakeCacheKey(qname, qtype), t).0, calls)
  {
    hide Shadows, HasRoom, CleanupStep, LookupStep, MakeCacheKey;
    SweepShadows(cfg, s, Call(Cleanup, t));
    ShadowRun(cfg, s, CleanupStep(s, t), t, calls);
    SweepShadows(cfg, s, Call(Lookup(qname, qtype), t));
    ShadowRun(cfg, s, LookupStep(s, MakeCacheKey(qname, qtype), t).0, t, calls);
  }
}

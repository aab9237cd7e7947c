# DnsPup verification

A Dafny model of DnsPup, a recursive DNS resolver, and proofs about it. `dafny verify dfyconfig.toml` checks the whole
project. It covers five parts of the resolver.

- **Wire format.** `BytePacketBuffer` is a class over a 512-byte array and a cursor; `DnsHeader` and `DnsPacket` are
  classes that read and write it in place, as are the question and record routines. Each method is proved against a
  value-level encoding or decoding (`NameWire`, `DnsHeaders`, `DnsQuestions`, `DnsRecords`, `PacketWire`), and the
  theorems say when decoding undoes encoding. `PacketLayouts` says byte by byte where the parts of a written packet stand;
  compressed names are compared with a relation written from section 4.1.4 of RFC 1035.
- **Cache.** `DnsCacheObject.DnsCache` performs each operation in place on its maps and its LRU list; `CacheModel` says
  what one operation does to the state; `CacheHistory`, `CacheLru`, `CacheIndex`, `CacheAccounts`, `CacheCounters` and
  `CacheLifetimes` speak about sequences of calls: what a lookup may answer, which bucket an eviction takes, how long
  the LRU index grows, where every record went, what the statistics count and how long a record lives.
- **Work queue and thread pool.** The critical sections of the queue are methods of a class, proved against the history
  of what was pushed and popped; `ThreadPools` interleaves the same sections with waiting, waking, notifying and
  shutting down, one atomic action at a time.
- **Resolution.** `ResolverObject.Resolver` carries the loops of `recursiveLookup` and `executeWithRetry` with their
  shared visited set and cache; the network and the clock are parameters. The loops are as unbounded as the source's;
  `ResolverModel` describes them turn by turn. `ResolverTrace` says, event by event, which query comes next or how the
  search ends; `ResolverRepeats` and `ResolverGlue` say what a search leaves in the cache for the next one; and
  `ResolverEnds`, `ResolverChains` and `ResolverWire` say exactly on which networks searches end.
- **Rate limiter.** `RateLimiting.RateLimiter` and the bound on every window of every history.

Where the source throws, a method returns `None` or `ok == false`. Bytes are integers from 0 to 255; shifts, masks and
wrap-around are written as quotients and remainders.

## What the proofs found

- A packet comes back from the wire exactly when its opcode is below 16, its types and names are canonical and it holds
  no unknown record (`PacketRoundTrip`). A packet with an unknown record *and* a non-canonical name is the one exception:
  it may come back by coincidence of its bytes, and `UnfaithfulYetReturning` exhibits one that does.
- `write` counts an unknown record in the header but writes nothing for it, so the reader takes the next known record
  in its place (`UnknownIsMisread`).
- `currentEntries` never counts an insert, because the vector was moved away before its size is read: it is the negated
  number of departures modulo 2^64 (`RunBalanced`). Until 2^64 records have been kept it is the number of records held
  exactly when no insert ever kept one (`CurrentEntriesDrift`).
- A lookup that finds a bucket all expired drops the bucket but leaves its key in the LRU list. Eviction is right all the
  same (`EvictionTakesLeastRecent`), and the loop that makes room always ends (`MakeRoomKeepsOk`). All along a
  history the list has one node per bucket and no more if and only if no such lookup happens (`IndexExactlyBounded`);
  with such lookups it has no bound, and a cleanup does not shorten it (`IndexHasNoBound`).
- The referral loop has no bound of its own, so a search may go on forever. Every search ends if and only if no chain of
  referrals with glue is endless (`SearchesEndExactly`): hops to servers by name, the loop over the root servers and the
  retries never prevent it, since a packet can name only finitely many hosts. One response of 43 bytes makes such a chain
  (`SelfReferralNeverEnds`).
- A search that ended with answers is repeated from the cache, record by record, for as long as they live
  (`AnswersAreRepeated`), and one that ended with NXDOMAIN or SERVFAIL is repeated as NXDOMAIN for 300 seconds
  (`DenialIsRepeated`). There is one exception, because storing answers leaves a negative entry in place and keys ignore
  case: where on the way to the answers a host whose name is a case variant of the question was denied, the second search
  may say NXDOMAIN while the answers are cached and live (`DenialHidesAnswers` has the input). Without such a denial it
  never does.
- The reader ignores RDLENGTH for the types it knows (`ReaderIgnoresRdlength`), where the protocol guide
  (DNS_PROTOCOL_GUIDE.md:920) has it give the length of RDATA: for such a record the two agree on its end exactly when
  RDLENGTH is what its kind takes (`EndAgreesWithRdlength`).

Length bytes 0x40 to 0xBF are read as plain labels, where the guide (DNS_PROTOCOL_GUIDE.md:959) knows of pointers and
labels up to 63 bytes only. The model follows the code.

## Model

| member | source | states |
|---|---|---|
| StringUtils.SplitString | lib/StringUtils.hpp:10-20 | repeated `getline` yields the split at every delimiter, a trailing empty token dropped |
| StringUtils.JoinSplit | lib/StringUtils.hpp:10-20 | joining the tokens gives the string back, less exactly one trailing delimiter if there is one |
| StringUtils.SplitJoin | lib/StringUtils.hpp:10-20 | splitting undoes joining for non-empty, delimiter-free tokens |
| StringUtils.TokensAreWhole | lib/StringUtils.hpp:10-20 | no token holds a delimiter, which with joining leaves one way to split |
| Ipv4Text.ParseIpv4 | lib/StringUtils.hpp:27-53 | an address comes out exactly when there are four tokens and `stoi` makes an octet of each |
| Ipv4Text.Ipv4RoundTrip | lib/StringUtils.hpp:22-53 | a printed address parses back to itself, also with one dot too many at its end |
| Ipv4Text.PrintedPlainly | lib/StringUtils.hpp:22-25 | a printed address is four numbers without signs, spaces or leading zeros, with dots between them |
| Decimals.StoiOfDecimal | lib/StringUtils.hpp:22-45 | `stoi` undoes `to_string` for every number an `int` holds and fails beyond |
| Decimals.StoiTolerates | lib/StringUtils.hpp:27-53 | leading spaces, one sign and trailing text are tolerated around a number, which must fit an `int` |
| Decimals.StoiNeedsDigit | lib/StringUtils.hpp:27-53 | text without a digit behind its spaces and its sign is refused |
| NameWire.DecodingIsResolution | lib/BytePacketBuffer.hpp:192-241 | decoding succeeds with given labels if and only if the name resolves to them through at most five pointers, by a relation that knows no cursor |
| NameWire.DecodedNameBounds | lib/BytePacketBuffer.hpp:192-241 | a decoded name is shorter than six packets and the cursor ends inside the packet, past its start |
| NameWire.NameRoundTrip | lib/BytePacketBuffer.hpp:167-241 | a written name reads back as itself if and only if it has no empty label and no trailing dot, with the cursor behind it |
| NameWire.NameBytes | lib/BytePacketBuffer.hpp:167-190 | a written name has a length byte in front and one in place of each dot, its other bytes unchanged, and a zero at the end; one trailing dot is dropped first |
| PacketBuffer.BytePacketBuffer.constructor | lib/BytePacketBuffer.hpp:20 | 512 zero bytes, cursor at 0 |
| PacketBuffer.BytePacketBuffer.ReadQName | lib/BytePacketBuffer.hpp:192-241 | the pointer-chasing loop ends, succeeds exactly when the name resolves, appends the dotted name and leaves the cursor past the terminator or first pointer |
| PacketBuffer.BytePacketBuffer.FollowPointer | lib/BytePacketBuffer.hpp:208-219 | the 14-bit target, None past the packet; only the first pointer places the cursor |
| PacketBuffer.BytePacketBuffer.WriteQName | lib/BytePacketBuffer.hpp:167-190 | fails exactly when a label exceeds 63 bytes or the encoding does not fit; otherwise lays the encoding at the cursor and changes nothing else |
| PacketBuffer.BytePacketBuffer.WriteLabels | lib/BytePacketBuffer.hpp:171-186 | the label loop writes all labels with their length bytes, or fails as `WriteQName` does |
| PacketBuffer.BytePacketBuffer.WriteLabel | lib/BytePacketBuffer.hpp:172-185 | one label with its length byte, refused above 63 bytes |
| PacketBuffer.BytePacketBuffer.Read | lib/BytePacketBuffer.hpp:90-95 | the byte at the cursor, or an error exactly at or past 512 with the cursor kept |
| PacketBuffer.BytePacketBuffer.Write | lib/BytePacketBuffer.hpp:97-104 | one byte changed and the cursor moved, or an error exactly at or past 512 with nothing changed |
| PacketBuffer.BytePacketBuffer.Get | lib/BytePacketBuffer.hpp:108-114 | bounded read without moving the cursor |
| PacketBuffer.BytePacketBuffer.GetRange | lib/BytePacketBuffer.hpp:116-123 | bounded slice, error exactly when it would pass 512 |
| PacketBuffer.BytePacketBuffer.ReadU16 | lib/BytePacketBuffer.hpp:130-142 | big-endian value of two bytes in the packet, else an error |
| PacketBuffer.BytePacketBuffer.ReadU32 | lib/BytePacketBuffer.hpp:151-165 | big-endian value of four bytes in the packet, else an error |
| PacketBuffer.BytePacketBuffer.WriteU16 | lib/BytePacketBuffer.hpp:125-128 | two bytes laid at the cursor, nothing else changed, exactly when they fit |
| PacketBuffer.BytePacketBuffer.WriteU32 | lib/BytePacketBuffer.hpp:144-149 | four bytes laid at the cursor, nothing else changed, exactly when they fit |
| PacketBuffer.BytePacketBuffer.SetU16 | lib/BytePacketBuffer.hpp:81-88 | the backpatch changes its two bytes only |
| QueryTypes.TypeRoundTrip | lib/QueryType.hpp:30-88 | number to type to number is the identity; type to number to type is so exactly for canonical types |
| QueryTypes.TypeNumbers | lib/QueryType.hpp:30-88 | A is 1, NS 2, CNAME 5, MX 15, AAAA 28, and every other number is unknown and kept |
| QueryTypes.ResultCodeToNum | lib/ResultCode.hpp:9-56 | each code's number reads back as that code |
| QueryTypes.CodeNumbers | lib/ResultCode.hpp:9-56 | the codes in order from 0 to 5; every other number reads as NOERROR |
| DnsHeaders.HeaderRoundTrip | lib/DnsHeader.hpp:68-119 | a written header reads back as itself if and only if its opcode is below 16; its counts always do |
| DnsHeaders.FlagsHighBits | lib/DnsHeader.hpp:102-106 | each field's bits are found in the first flag byte; the opcode's fifth bit falls on the response bit |
| DnsHeaders.FlagsLowBits | lib/DnsHeader.hpp:108-112 | each field's bits are found in the second flag byte |
| DnsHeaders.DnsHeader.Read | lib/DnsHeader.hpp:68-95 | the fifteen fields take the values the twelve bytes hold, exactly when twelve bytes are left |
| DnsHeaders.DnsHeader.Write | lib/DnsHeader.hpp:97-119 | exactly the twelve encoded bytes are laid at the cursor, when they fit |
| DnsQuestions.QuestionRoundTrip | lib/DnsQuestion.hpp:34-50 | a written question reads back if and only if its name and type are canonical |
| DnsQuestions.QuestionLayout | lib/DnsQuestion.hpp:34-40 | behind the name stand the type's number and class 1, most significant byte first |
| DnsQuestions.WriteQuestion | lib/DnsQuestion.hpp:34-40 | succeeds exactly when the encoding exists and fits, and then lays it at the cursor: behind the name the number of the type, and class 1 |
| DnsQuestions.ReadQuestion | lib/DnsQuestion.hpp:42-50 | reads the question the bytes hold, with the cursor behind it, or fails where they hold none |
| DnsRecords.RecordRoundTrip | lib/DnsRecord.hpp:112-249 | a written known record reads back, cursor behind it, if and only if its names are canonical |
| DnsRecords.RdlengthCountsRdata | lib/DnsRecord.hpp:112-198 | in a packet, a written record's RDLENGTH equals the number of RDATA bytes up to its end |
| DnsRecords.RecordLayout | lib/DnsRecord.hpp:112-198 | a written record is its name, the number of its type, class 1, its TTL, the length of its RDATA, and the RDATA of its kind, most significant bytes first |
| DnsRecords.WriteDnsRecord | lib/DnsRecord.hpp:112-198 | the record's encoding is laid at the cursor exactly when it fits, with type, class 1, TTL, length and RDATA where the layout has them; an unknown record succeeds writing nothing; the byte count is returned |
| DnsRecords.WriteHost | lib/DnsRecord.hpp:141-178 | placeholder, RDATA and backpatch amount to the length followed by the RDATA, nothing else changed |
| DnsRecords.ReadDnsRecord | lib/DnsRecord.hpp:200-249 | reads the record the bytes hold, or fails where they hold none |
| DnsRecords.ReadBody | lib/DnsRecord.hpp:214-248 | RDATA by type; RDLENGTH matters for unknown types only, where the cursor may pass the end |
| DnsRecords.ReaderIgnoresRdlength | lib/DnsRecord.hpp:208-244 | for a known type any two RDLENGTHs read alike; for another the cursor moves by RDLENGTH |
| DnsRecords.EndAgreesWithRdlength | lib/DnsRecord.hpp:200-249 | a record ends RDLENGTH bytes past the start of its RDATA if and only if it is unknown or its kind takes that many bytes there |
| DnsRecords.RdlengthZeroIsIgnored | lib/DnsRecord.hpp:218-221 | fifteen bytes with RDLENGTH 0 that yield an address all the same |
| PacketWire.PacketRoundTrip | lib/DnsPacket.hpp:119-170 | a faithful packet that was written parses back to itself, counts filled in, cursor at its end; conversely a returning packet is faithful unless it has both kinds of record defect |
| PacketWire.ReturningRecordsFaithful | lib/DnsPacket.hpp:132-167 | records that return were known and canonical, given that they lack one of the two defects |
| PacketWire.FaithfulRecordsReturn | lib/DnsPacket.hpp:132-167 | known canonical records always return |
| PacketCoincidence.UnfaithfulYetReturning | lib/DnsPacket.hpp:119-170 | a concrete packet with both defects is written in 271 bytes and parses back to itself |
| PacketWire.UnknownIsMisread | lib/DnsRecord.hpp:191-193 | where a list of records was written a reader first finds the first known one, exactly, in place of the unknown ones before it; with no known one nothing was written |
| PacketWire.WireContents | lib/DnsPacket.hpp:119-143 | the bytes are a header counting every record, then the packet without its unknown records |
| PacketWire.ParsedPacketBounds | lib/DnsPacket.hpp:145-170 | whatever the bytes, a parsed packet has the sections its header counts, and header, questions and records need at least 12, 5 and 11 bytes each inside the buffer |
| PacketWire.SectionsAreOneRun | lib/DnsPacket.hpp:154-167 | the three sections are the slices of one run of records |
| PacketLayouts.PacketLayout | lib/DnsPacket.hpp:119-143 | a written packet is its header, then questions, answers, authorities and additional records, in order and with nothing between them, each with its parts in place |
| PacketLayouts.HeaderLayout | lib/DnsHeader.hpp:97-119 | the id, each flag at its bit, the opcode, the code, and the lengths of the four sections modulo 2^16 |
| DnsPackets.DnsPacket.Write | lib/DnsPacket.hpp:119-143 | stores the section sizes modulo 2^16 and lays the packet's encoding at the cursor exactly when it fits |
| DnsPackets.DnsPacket.FromBuffer | lib/DnsPacket.hpp:145-170 | yields the packet the bytes hold, cursor behind it, or fails where they hold none |
| DnsPackets.WriteQuestions | lib/DnsPacket.hpp:128-130 | all questions in order, or failure exactly when they do not fit |
| DnsPackets.WriteRecords | lib/DnsPacket.hpp:132-142 | all records of a section in order, or failure exactly when they do not fit |
| DnsPackets.ReadQuestions | lib/DnsPacket.hpp:150-152 | as many questions as counted, each where the last one ended |
| DnsPackets.ReadRecords | lib/DnsPacket.hpp:155-157 | as many records as counted, each where the last one ended |
| DnsPackets.WriteThenParse | lib/DnsPacket.hpp:119-170 | `write`, `seek(0)`, `fromBuffer` on the objects themselves return a faithful packet that fits |
| Referrals.NsOfMembers | lib/DnsPacket.hpp:70-85 | the selected servers are exactly those of NS records whose domain ends the name |
| Referrals.NsOfPlaces | lib/DnsPacket.hpp:70-85 | they stand in section order, one for every such record: domain and host of each are given by its place |
| Referrals.GlueForIsFirst | lib/DnsPacket.hpp:95-103 | the glue address is that of the first matching A record; None means there is none |
| Referrals.FirstGlueIsFirst | lib/DnsPacket.hpp:93-106 | the address followed belongs to the first listed server that has glue at all |
| Referrals.UnresolvedIsFirst | lib/DnsPacket.hpp:109-117 | the host resolved by name is that of the first NS record whose domain ends the name; None exactly if there is no such record |
| Referrals.FirstAIsFirst | lib/DnsPacket.hpp:61-68 | the address taken from a resolution is that of its first A record; None exactly if there is none |
| Referrals.GetNs | lib/DnsPacket.hpp:70-85 | the loop yields those servers in section order |
| Referrals.GetResolvedNs | lib/DnsPacket.hpp:87-107 | the nested search yields the first glue of the first server with glue |
| Referrals.GetUnresolvedNs | lib/DnsPacket.hpp:109-117 | the host that `UnresolvedIsFirst` determines: that of the first NS record whose domain ends the name |
| Referrals.GetRandomA | lib/DnsPacket.hpp:61-68 | the search yields the address `FirstAIsFirst` determines |
| CacheKeys.KeysCollideOnlyWhenEqual | lib/cache/DnsCache.hpp:190-204 | keys are equal if and only if the names agree up to the case of letters and the type numbers are equal, whatever colons and digits the names hold |
| CacheKeys.LowerMeansSameName | lib/cache/DnsCache.hpp:190-204 | lower-cased names are equal if and only if the names agree but for the case of letters |
| CacheKeys.BuildCacheKey | lib/cache/DnsCache.hpp:190-204 | the character loop builds that key |
| CacheModel.LookupKeepsOk | lib/cache/DnsCache.hpp:220-272 | a lookup keeps the LRU structure sound: nodes distinct, each listed key mapped to its node, every bucket listed, none empty |
| CacheModel.InsertKeepsOk | lib/cache/DnsCache.hpp:300-341 | an insert keeps it sound and leaves at most 10000 buckets |
| CacheModel.CleanupKeepsOk | lib/cache/DnsCache.hpp:390-427 | a cleanup keeps it sound |
| CacheModel.UpdateLRUKeepsOk | lib/cache/DnsCache.hpp:146-156 | moving a key to the front restores soundness once its bucket is in |
| CacheModel.EvictLRUKeepsOk | lib/cache/DnsCache.hpp:158-173 | an eviction keeps it sound, of a stale key too |
| CacheModel.MakeRoomKeepsOk | lib/cache/DnsCache.hpp:331-333 | the eviction loop ends with room for one bucket |
| CacheModel.LiveTwice | lib/cache/DnsCache.hpp:175-188 | removing expired entries early changes nothing later |
| CacheHistory.RunOk | lib/cache/DnsCache.hpp:146-427 | every reachable state is sound and holds at most 10000 buckets and 1000 NS entries |
| CacheHistory.LookupFromHistory | lib/cache/DnsCache.hpp:220-388 | after any timely calls: empty answer iff a negative entry stands; a hit is exactly the live part of the latest stored insert; a miss iff nothing of it is live or it was evicted |
| CacheHistory.ObservedFromHistory | lib/cache/DnsCache.hpp:220-427 | the live records and the negative entry of a key are those its call history dictates |
| CacheHistory.LookupNSFromHistory | lib/cache/DnsCache.hpp:274-298 | an NS lookup answers the latest effective NS insert for the domain, while it lasts |
| CacheHistory.RecordsAfterStep | lib/cache/DnsCache.hpp:220-427 | call by call, only storing and evicting change what is live later |
| CacheHistory.LookupAnswer | lib/cache/DnsCache.hpp:220-272 | negative entries win; otherwise the live records, or a miss |
| CacheHistory.CleaningIsInvisible | lib/cache/DnsCache.hpp:175-188 | cleanup, and a lookup's lazy erasure, change no later answer until an insert evicts or an NS insert meets its cap |
| CacheHistory.ShadowRun | lib/cache/DnsCache.hpp:220-427 | a state that looks the same and holds no more keys answers every later call alike |
| CacheHistory.ServedRecords | lib/cache/DnsCache.hpp:259-268 | each served record is the stored one in its place with only its TTL replaced |
| CacheLru.EvictionTakesLeastRecent | lib/cache/DnsCache.hpp:158-173 | every bucket dropped by an insert was last stored or hit before every bucket kept, and no more are dropped than needed |
| CacheLru.ListIsByRecency | lib/cache/DnsCache.hpp:146-173 | in every reachable state the list is strictly ordered by last touch, stale keys included |
| CacheLru.MakeRoomDropsSuffix | lib/cache/DnsCache.hpp:331-333 | making room drops a suffix of the list and stops at one free place |
| CacheIndex.IndexExactlyBounded | lib/cache/DnsCache.hpp:245-253 | along a history the LRU index is free of stale keys if and only if no lookup finds a bucket all expired; then it has one node per bucket, at most 10000; in every reachable state it has one per bucket and one per stale key |
| CacheIndex.StaleExactlyWhenForgotten | lib/cache/DnsCache.hpp:249-252 | from a sound state without stale keys exactly such a lookup leaves one |
| CacheIndex.IndexHasNoBound | lib/cache/DnsCache.hpp:249-252 | with such lookups: for every number there is a history that empties the cache and leaves that many keys listed, none of which a cleanup removes |
| CacheIndex.StoreAndExpireTimely | lib/cache/DnsCache.hpp:249-252 | that history needs no clock that runs backwards |
| CacheAccounts.RunBalanced | lib/cache/DnsCache.hpp:158-341 | records stored = held + expired + evicted + overwritten; lookups = hits + misses + negative hits; `currentEntries` is minus the departures modulo 2^64 |
| CacheAccounts.CurrentEntriesDrift | lib/cache/DnsCache.hpp:335-340 | below 2^64 kept records `currentEntries` is the number held if and only if no insert ever kept a record; the condition beyond that, and the correction that always makes it right |
| CacheAccounts.SomethingRemains | lib/cache/DnsCache.hpp:335-340 | once a record was kept, fewer are overwritten than were stored |
| CacheAccounts.CurrentEntriesMissesInserts | lib/cache/DnsCache.hpp:335-340 | after one stored record the counter says zero |
| CacheLifetimes.EnforcedExactly | lib/cache/DnsCache.hpp:206-214 | a TTL between the bounds is kept, one below is raised to the lower and one above cut to the upper; zero is not cached |
| CacheLifetimes.NegativeExactly | lib/cache/DnsCache.hpp:369-388 | negative lifetimes are those asked for, moved into the range from 60 to 600 seconds |
| CacheCounters.StatisticsCountAnswers | lib/cache/DnsCache.hpp:220-388 | over every run each statistic is the number of calls that were answered, or did, what its name says |
| CacheCounters.HitCountsAreHits | lib/cache/DnsCache.hpp:258-260 | an entry's hit count is the number of hits on its key since it was stored, modulo 2^32 |
| CacheLifetimes.KeptWellTimed | lib/cache/DnsCache.hpp:206-214 | a stored entry's TTL is its record's own where that lies between the bounds, the lower bound below them and the upper above, never zero; it expires exactly that long after its insert |
| CacheLifetimes.RunTimed | lib/cache/DnsCache.hpp:206-214 | the same of every entry of every reachable state; NS entries lie within the bounds, negative ones between one and ten minutes |
| CacheLifetimes.CachedTTLsInBounds | lib/cache/DnsCache.hpp:311-329 | every cached TTL of a reachable state lies between the configured bounds when these are in order |
| CacheLifetimes.RemainingShrinks | lib/cache/CacheEntry.hpp:51-62 | the shown TTL falls by at least the whole seconds since the store and since any earlier showing, and never wraps |
| CacheLifetimes.HitsAreFresh | lib/cache/DnsCache.hpp:258-268 | each record of a hit was offered by an earlier insert under this key; its TTL and its age together are at most the offered TTL where that was within the bounds, and at most the bound it was moved to otherwise |
| CacheLifetimes.SuccessiveHits | lib/cache/DnsCache.hpp:258-268 | between two hits without a store every record of the second was in the first, and its TTL fell by at least the seconds between them |
| CacheLifetimes.ServedAreSurvivors | lib/cache/DnsCache.hpp:240-268 | of the records an insert offered a later hit serves exactly those whose bounded TTL has not run out, in order, with the seconds left |
| CacheLifetimes.NsHitsAreFresh | lib/cache/DnsCache.hpp:274-298 | an NS lookup answers with the address of an earlier NS insert for the domain, within that insert's TTL moved into the bounds |
| CacheLifetimes.CleanupRemovesExpired | lib/cache/DnsCache.hpp:390-427 | a cleanup removes what has expired, and nothing else, from all three maps, and the buckets left empty |
| CacheLifetimes.LookupRemovesExpired | lib/cache/DnsCache.hpp:220-253 | a lookup that no negative entry answers leaves nothing expired under its key and every other key as it was |
| DnsCacheObject.DnsCache.constructor | lib/cache/DnsCache.hpp:72-73 | an empty, sound cache with the given TTL bounds |
| DnsCacheObject.DnsCache.Lookup | lib/cache/DnsCache.hpp:220-272 | the new state and the answer of the lookup step, soundness kept |
| DnsCacheObject.DnsCache.LookupBucketInPlace | lib/cache/DnsCache.hpp:237-271 | the positive half: expired entries dropped, an emptied bucket erased but its key left listed, a hit moved to the front |
| DnsCacheObject.DnsCache.ServeBucket | lib/cache/DnsCache.hpp:258-268 | hit counts raised and records copied with their remaining TTLs, in order |
| DnsCacheObject.DnsCache.RemoveExpiredEntries | lib/cache/DnsCache.hpp:175-188 | exactly the live entries, in order, and the removed ones counted |
| DnsCacheObject.DnsCache.EraseListNode | lib/cache/DnsCache.hpp:149-152 | the list without the one node the iterator denotes |
| DnsCacheObject.DnsCache.UpdateLRUInPlace | lib/cache/DnsCache.hpp:146-156 | the key's old node gone, a new one in front and mapped |
| DnsCacheObject.DnsCache.EvictLRUInPlace | lib/cache/DnsCache.hpp:158-173 | the last listed key and its bucket gone, its size taken off `currentEntries` |
| DnsCacheObject.DnsCache.TakeBucket | lib/cache/DnsCache.hpp:166-167 | the bucket's size, zero for a key without one, which is created and erased again |
| DnsCacheObject.DnsCache.MakeRoomInPlace | lib/cache/DnsCache.hpp:331-333 | the eviction loop ends in the state of repeated evictions |
| DnsCacheObject.DnsCache.Insert | lib/cache/DnsCache.hpp:300-341 | the state of the insert step, soundness kept, at most 10000 buckets |
| DnsCacheObject.DnsCache.BuildEntries | lib/cache/DnsCache.hpp:311-329 | one entry per record that can be stored, in order, each as `KeptWellTimed` has it |
| DnsCacheObject.DnsCache.InsertNS | lib/cache/DnsCache.hpp:343-367 | the state of the NS insert step, unchanged at the cap or for TTL zero |
| DnsCacheObject.DnsCache.InsertNegative | lib/cache/DnsCache.hpp:369-388 | the negative entry, its lifetime between one and ten minutes |
| DnsCacheObject.DnsCache.LookupNS | lib/cache/DnsCache.hpp:274-298 | the live address, or a miss that erases an expired entry |
| DnsCacheObject.DnsCache.CleanupExpired | lib/cache/DnsCache.hpp:390-427 | the three sweeps end in the cleaned state whatever the order of iteration |
| DnsCacheObject.DnsCache.SweepBuckets | lib/cache/DnsCache.hpp:393-408 | every bucket reduced to its live entries, empty ones gone from map and list, removals counted |
| WorkQueues.ThreadSafeQueue.PushSection | lib/WorkQueue.hpp:17-22 | joins the item to everything pushed, keeps pops a prefix of pushes, and leaves the oldest item not handed out as the next one |
| WorkQueues.ThreadSafeQueue.PopSection | lib/WorkQueue.hpp:26-37 | hands out the oldest pushed item not handed out before; waits only when all have been and the queue is open, ends only when all have been and it is closed |
| WorkQueues.ThreadSafeQueue.ShutdownSection | lib/WorkQueue.hpp:39-43 | loses no item, and from then on no pop waits, whatever the queue holds |
| ThreadPools.NoLostWakeUp | lib/WorkQueue.hpp:17-46 | in every interleaving, while a worker sleeps un-notified each queued task has a notification pending or a woken worker, and a closed queue has a notify_all pending; the active count is exact |
| ThreadPools.StepKeepsInv | lib/ThreadPool.hpp:19-56 | every atomic action keeps the inductive invariant behind the results on wake-ups, on order and on progress |
| ThreadPools.QueuedWorkHasAWorker | lib/WorkQueue.hpp:17-37 | queued work with no notification in flight has a worker awake while the pool is up; that the work is done is `RunningPoolSettles` with `IdleMeansAllDone` |
| ThreadPools.SleepersAreWoken | lib/WorkQueue.hpp:39-46 | in a closed pool with sleepers the notify_all is still to come and wakes them all |
| ThreadPools.FifoExactlyOnce | lib/ThreadPool.hpp:19-45 | tasks popped, then those queued, are those pushed in order; each popped task is finished once or in one worker's hands |
| ThreadPools.RunningPoolSettles | lib/ThreadPool.hpp:19-45 | from any reachable running pool, without new pushes or spurious wake-ups, no interleaving of its actions is longer than a bound |
| ThreadPools.IdleMeansAllDone | lib/ThreadPool.hpp:19-45 | where nothing is left to happen in a running pool with a worker, the queue is empty, every worker sleeps, and each task was finished as often as it was pushed |
| ThreadPools.QuiescentRunningPool | lib/ThreadPool.hpp:19-30 | what the invariant alone says of such a pool: all workers blocked, nothing queued, no notification due |
| ThreadPools.AtMostOneMoreTask | lib/ThreadPool.hpp:47-56 | after shutdown begins each worker starts at most one more task |
| ThreadPools.ShutdownCompletes | lib/ThreadPool.hpp:47-56 | from any reachable closed pool no interleaving is longer than a bound, and where nothing but a spurious wake-up is left to happen every worker has exited |
| ThreadPools.QuiescentMeansExited | lib/WorkQueue.hpp:39-46 | a closed pool with no due action has no sleeper: a forgotten one would need a notify_all |
| RateLimiting.RateLimiter.AllowQuery | lib/security/RateLimiter.hpp:66-88 | the client's record and the verdict follow the window rule, other clients untouched |
| RateLimiting.RateLimiter.CleanupOldEntries | lib/security/RateLimiter.hpp:90-97 | the times left are those from the first one inside the window on |
| RateLimiting.RateLimiter.GetTotalRateLimited | lib/security/RateLimiter.hpp:53-60 | the sum of all refusal counters, whatever the order of iteration |
| RateLimiting.RefusedIffWindowFull | lib/security/RateLimiter.hpp:66-97 | a query is refused if and only if the limit is reached by allowed queries in the closed window ending now |
| RateLimiting.EveryWindowWithinLimit | lib/security/RateLimiter.hpp:66-97 | no closed interval of the window's width, wherever it starts, holds more allowed queries of a client than the limit |
| RateLimiting.ClientsAreIndependent | lib/security/RateLimiter.hpp:69-72 | a client's record and verdicts depend on its own calls only |
| RateLimiting.TotalIsRefusals | lib/security/RateLimiter.hpp:53-60 | the reported total is the number of refused queries |
| RateLimiting.QueueIsHistory | lib/security/RateLimiter.hpp:90-97 | the queue holds the client's allowed queries that any later window can see |
| RateLimiting.RecordCounts | lib/security/RateLimiter.hpp:66-88 | a client's record counts its allowed and its refused queries and keeps the time of the last of either |
| ResolverTheorems.ResolveIsGood | lib/Core.hpp:139-321 | whatever the network does, a resolution keeps names distinct, retries in order, the depth cap and the cache sound, at its own depth or deeper |
| ResolverTheorems.RetryIsGood | lib/RetryPolicy.hpp:20-41 | attempts follow one another, each after a timeout of the same query, below the limit |
| ResolverOutcomes.ResolutionIsBounded | lib/Core.hpp:150-166 | in one top-level resolution each name passes the visited check at most once and no query leaves at depth ten or deeper |
| ResolverOutcomes.ResolveGiveUps | lib/Core.hpp:209-320 | an activation at any depth reports exhaustion itself exactly when it gave up as many queries as there are root servers, and never gives up more; whom it asked is `ExhaustionAsksEveryRoot` |
| ResolverOutcomes.ExhaustionMeansEveryRootGivenUp | lib/Core.hpp:209-320 | the same at the top level, counted over the whole trace |
| ResolverTrace.SearchFollowsRules | lib/Core.hpp:186-320 | a search the cache does not answer asks first the server of the longest cached parent, else the first root server; and every event determines the next query, hop or outcome: retries after a timeout, root server k after the k-th query given up, the first glue after a referral, the first server by name without glue, the packet itself at the end |
| ResolverTrace.ExhaustionAsksEveryRoot | lib/Core.hpp:209-250 | where an activation reports that all root servers failed, the i-th query given up is directly followed by its question to root server i, for every i above 0 |
| ResolverTrace.FinalReplyIsReturned | lib/Core.hpp:255-273 | a reply with NXDOMAIN, SERVFAIL, or answers and no error, from whatever server, is the last event and what the search returns |
| ResolverTrace.HopAsksFirstAddress | lib/Core.hpp:299-316 | after a hop by name the question goes to the address in the first A record found; without one the search ends with the referral, and a failed hop fails it |
| ResolverOutcomes.GivingUpTakesAllAttempts | lib/RetryPolicy.hpp:23-38 | giving up a query takes exactly the configured number of consecutive timeouts of it |
| ResolverOutcomes.ReturnsAreHonest | lib/Core.hpp:139-321 | a returned packet is the fixed failure for a repeated name or too deep a chain, a cached answer, or one the network gave to this very question at this depth |
| ResolverRepeats.AnswersAreRepeated | lib/Core.hpp:169-183 | after a search that ended with answers, of which some could be cached, a second one sends nothing and returns exactly those that survive, in order, with NOERROR, unless a negative entry stands, which takes a denied query for the same name up to case during the first search; with none left it asks again |
| ResolverRepeats.DenialIsRepeated | lib/Core.hpp:262-273 | after NXDOMAIN or SERVFAIL a second search sends nothing and returns NXDOMAIN without answers for exactly 300 seconds |
| ResolverRepeats.DenialHidesAnswers | lib/Core.hpp:255-273 | a network on which the second search returns NXDOMAIN although the answers of the first are cached and live |
| ResolverRepeats.CacheDecides | lib/Core.hpp:169-183 | a standing negative entry gives NXDOMAIN, else live records give NOERROR with these records, both without a query; else the network is asked |
| ResolverRepeats.RefusedAtOnce | lib/Core.hpp:150-167 | a repeated name, or a depth of ten, gives SERVFAIL with empty sections and without a query |
| ResolverGlue.GlueRemembered | lib/Core.hpp:275-291 | while there is room each domain served is remembered with the last cacheable address of its servers, its TTL moved into the bounds; all other domains are left alone |
| ResolverGlue.GlueOutlivesSearch | lib/Core.hpp:275-297 | a search that is referred with glue and then answered leaves that glue in the NS cache, and returns the second packet |
| ResolverOutcomes.HopConsumesFreshName | lib/Core.hpp:299-316 | a server name that yields an address was not visited before and is now |
| ResolverWire.SearchesEndExactly | lib/Core.hpp:209-317 | on a network of datagrams every search of a sound resolver, unbounded as in the source, ends if and only if no chain of referrals with glue is endless |
| ResolverWire.SearchIsBudgeted | lib/Core.hpp:209-317 | where those chains are shorter than some length, every search ends within a number of queries known before the first |
| ResolverWire.WireNamesAmong | lib/BytePacketBuffer.hpp:192-241 | the hosts such a network can name are finitely many, by the length a decoded name can have |
| ResolverChains.SearchesEndWithoutEndlessChains | lib/Core.hpp:209-317 | the same condition for any network that names hosts from a finite set |
| ResolverChains.EndlessFromStart | lib/Core.hpp:209-317 | a search that the cache does not answer and that starts on an endless chain has no end |
| ResolverEnds.ResolveEnds | lib/Core.hpp:209-317 | the turns that are enough: one chain of glue to begin with, and one for each host hopped to |
| ResolverEnds.SettlesOnce | lib/Core.hpp:221-317 | an unbounded search has at most one end |
| ResolverChains.EndlessReferrals | lib/Core.hpp:221-317 | where every reply refers onwards with glue, a search the cache does not answer has no end |
| ResolverWire.SelfReferralNeverEnds | lib/Core.hpp:293-297 | one response of 43 bytes, sent to every query under its own id, keeps the source asking forever whatever it is asked |
| ResolverWire.SelfReferralArrives | lib/Core.hpp:113-130 | that response is faithful, parses back from any buffer that starts with it, and passes the checks on id and response bit |
| ResolverWire.ResponsesArrive | lib/Core.hpp:113-130 | a faithful packet that arrives is taken exactly if it is a response and carries the id asked with; otherwise the query fails |
| ResolverBounds.WalkFindsLongestParent | lib/Core.hpp:186-203 | the walk stops at the longest dot-boundary suffix of the name with an unexpired NS entry, and finds nothing only if none has one |
| ResolverBounds.ParentsExactly | lib/Core.hpp:197-202 | the names tried are the name itself and what follows any of its dots |
| ResolverBounds.ParentsShrink | lib/Core.hpp:197-202 | each parent is shorter than the one before, so the walk ends |
| ResolverObject.Resolver.Search | lib/Core.hpp:139-148 | the call from outside, with no name visited: ends as the unbounded search ends whenever that has an end, each name entered once, no query at depth ten |
| ResolverObject.Resolver.RecursiveLookup | lib/Core.hpp:139-207 | visited set, trace, cache and outcome are those of the resolution, and the invariant holds afterwards |
| ResolverObject.Resolver.RootLoop | lib/Core.hpp:209-320 | the loop over the root servers, with the cached server used until the first timeout: state and outcome are those whose events `SearchFollowsRules` determines |
| ResolverObject.Resolver.ReferralLoop | lib/Core.hpp:221-317 | the unbounded referral loop, turn by turn, of any search that ends |
| ResolverObject.Resolver.TakeIn | lib/Core.hpp:255-291 | a final response is cached and ends the search; any other has its glue cached before the next server is chosen |
| ResolverObject.Resolver.NextServer | lib/Core.hpp:293-316 | glue first, else the first server resolved one level deeper, else the response itself |
| ResolverObject.Resolver.ConcludeInPlace | lib/Core.hpp:255-273 | answers stored, or a negative entry of 300 seconds for NXDOMAIN and SERVFAIL: the step behind `AnswersAreRepeated` and `DenialIsRepeated` |
| ResolverObject.Resolver.CacheGlueInPlace | lib/Core.hpp:275-291 | every glue address of every server stored under its domain, in order |
| ResolverObject.Resolver.FindCachedNsInPlace | lib/Core.hpp:186-203 | the walk from the name to its parents, one NS lookup each |
| ResolverObject.Resolver.ExecuteWithRetry | lib/RetryPolicy.hpp:20-41 | attempts until a response, another failure or the last permitted timeout; none at all for a limit below one |

## Left out

- PacketWire.PacketRoundTrip: for a packet with both an unknown record and a non-canonical name no condition is given for its return, because that depends on how its bytes happen to fall (see `PacketCoincidence.UnfaithfulYetReturning`); such a packet is never written as it stands.
- PacketBuffer.BytePacketBuffer.SetU16: the source does not check its two positions, so they are a precondition; its one caller has written both bytes before.
- The buffer's contents and cursor after a throwing write or read, and which exception is thrown: every caller abandons the buffer.
- The class field of questions and records, which is read and dropped.
- More than one clock reading within a cache operation: the source reads the clock for every entry, the model once.
- Wrap-around of the counters of hits, misses, inserts, evictions and expirations; `currentEntries` and the entries' hit counts do wrap.
- The rest of a moved-from vector's state than its size, which is taken to be zero as in the common standard libraries.
- The order of hash-map iteration: a sweep picks any remaining key.
- ThreadSafeQueue's `size`, a length read under the lock.
- The locks of the cache, its cleanup thread and its shared-lock mutations: every cache operation is atomic.
- Other locales than C in `tolower` and `isspace`.
- ThreadPool as an object with threads: the pool is a transition system over atomic actions. The memory model, creating and joining threads, and exceptions not derived from `std::exception` are not part of it.
- ResolverObject.Resolver.Search: asks for a search that has an end, since a method cannot describe one that goes on forever; `SearchesEndExactly` says on which networks all do, `EndlessFromStart` when one does not.
- ResolverObject.Resolver.RecursiveLookup: the same, by way of a ghost number of turns that is enough; no part of the loops.
- ResolverObject.Resolver.RootLoop: the same.
- ResolverObject.Resolver.ReferralLoop: the same.
- ResolverObject.Resolver.TakeIn: the same.
- ResolverObject.Resolver.NextServer: the same.
- The body of `lookup`: sockets, source checks and timeouts are one reply of the network parameter; of its checks only those on parsing, id and response bit are stated (`ResolverModel.Received`). TransactionTracker and SecurityUtils are not part of it.
- Root-server hit counts and latency averages, retry delays and their growth, and all printing.
- `handleQueryThreaded`, `returnRefusedBecauseRateLimited` and main.cpp: input and output around the parts modelled here.
- `ipv6ToString`, StatsLogger and hit rates: formatting and floating point.
- `cleanupClients`, `printStats` and `getClientCount` of the rate limiter: empty or a size.

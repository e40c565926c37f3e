# A verified model of the split-horizon resolver

The resolver fans a question out to several upstream DNS servers, classifies every address it gets back as
Chinese or foreign by a list of prefixes, chooses addresses by a fixed policy, and caches the outcome.  This
project models that logic in Dafny, from the prefix arithmetic up to the concurrent cache, and proves what it
computes.  Network, clock and scheduler are arbitrary inputs.

| file | models |
|---|---|
| `Netip.dfy` | addresses and prefixes, the byte loops `lastAddr` and `nextAddr` |
| `PrefixIndex.dfy` | the prefix index: sort, in-place merge, binary search |
| `Policy.dfy` | the selection rules, negative finalisation, TTL selection |
| `Names.dfy` | the three name normalisations and the override list |
| `Engine.dfy` | the receive loop, early completion, finalisation |
| `Frontiers.dfy`, `ChaseLoop.dfy`, `ChaseOrder.dfy`, `Chase.dfy` | breadth-first search, the CNAME chase, the order of its lookups |
| `CacheModel.dfy`, `LruCache.dfy` | the steps of the cache on a list; the cache itself, with list and map updated in place |
| `Service.dfy` | what may enter the cache, and with which TTL |
| `Flights.dfy` | lookups, coalesced flights, cache and asset reloads as one state machine of atomic steps |
| `Timeline.dfy`, `Reloads.dfy` | what all runs of that machine guarantee: about the cache over time, about contents, answers and reloads |
| `Coalescing.dfy` | the in-place cache takes the moves of that machine |

Loops of the source are methods, proved equal to a specification function (or, for the cache, proved to take a
step of a relation on lists); the lemmas are about those functions and about all runs of those steps.  An address
is a number in one of two families; the 16-byte form appears only in the two byte loops.  Times are integers in
nanoseconds.  A run of the state machine is any interleaving of any number of callers, flights, reloads and sweeps.

## Main results

- **The index is the linear scan** (`PrefixIndex.IndexIsExact`), for every list of masked prefixes none of which
  is an IPv6 prefix shorter than /128 ending in `::ffff:0:0/96`; that condition on prefixes cannot be weakened
  (`AdmissibleExactly`).  The spans are a canonical form, and `ApartExactly` says exactly when.
- **The engine's reply follows the lists** (`Engine.ResultFollowsLists`, `Reloads.CallerIsAnswered`): whatever was
  received, complete or cut short, the policy and the addresses are those that the rules call for on the prefix
  list and the override lists themselves; the class and the verdict are not taken from the code
  (`Names.MatchesExactly`).
- **Early completion is sound** (`Engine.EarlyCompletionSound`).  `StableExactly` says exactly when the outstanding
  upstreams, whose sides are known, can no longer change the policy; the test of the code is exact while upstreams of
  both sides are outstanding (`EarlyExitExact`) and can be late otherwise (`EarlyExitCanBeLate`).  Arrival order
  does not matter (`ArrivalOrderIrrelevant`).
- **The chase finds the nearest end of the CNAME graph** (`Chase.ChaseFindsNearest`), is the plain chain walk when
  names have one CNAME each (`ChaseIsWalk`), and is bounded and traceable against any upstream (`ChaseIsSafe`).
  `ChaseEnds` tells every outcome by the last message received, and `ChaseInOrder` the order of all lookups, against
  any upstream.
- **The bounded cache refines an unbounded map** over every run (`CacheModel.RunRefinesIdeal`, `HitIsLatest`),
  its list is always in order of recency (`ListIsRecency`), recently used entries are retained (`Retention`), an
  entry's life is exact to the nanosecond (`ExactLife`), the expired leave first (`EvictsExpiredFirst`), and
  TTLs count down (`HitTTL`, `ServedTTLNeverIncreases`).  Every history of the whole machine is such a run
  (`Timeline.HistoryIsCacheRun`), so these are results about lookups, flights and reloads (`ServedIsLatest`,
  `StoredStays`).
- **Singleflight safety over all interleavings** (`Flights.OneLeaderPerKey`, `NoOrphans`, `WaiterGetsOwnFlight`); a
  value is in the cache before anyone sees its flight done (`Timeline.StoredBeforeSeen`), and whoever shares an answer
  shares one to its own question (`Reloads.AnswersTheQuestion`).
- **When a lookup goes upstream although its answer is cached**: exactly when its `Get` came before the store
  (`Flights.StoredAnswerServes`, `LeadsBesideEntryExactly`).
- **Reload safety over all interleavings**: stale entries come from straddling flights only
  (`Reloads.StaleEntryStraddled`), and a reload is clean for all future if and only if no flight straddles it
  (`ReloadCleanExactly`).
- **What the cache may hold**, in every reachable state (`Reloads.CacheContent`).

## Where the code differs from what it says

- The comment on `nextAddr` (internal/china/index.go:99) promises `a` itself on overflow.  The code wraps to `::`
  from the top of IPv6 and leaves the family from 255.255.255.255 (`Netip.NextOfAtTheTop`).  `NextOfExactly` gives
  the exact condition under which it returns the successor; it never returns its argument.  Neither overflow
  misleads `merge`: `PrefixIndex.JoinsExactly` says what its test means on sorted spans.
- `lastAddr` unmaps its result, so an IPv6 prefix that ends in `::ffff:0:0/96` gets an IPv4 end.
  `PrefixIndex.MappedPrefixLosesAddress` is a list on every index of which an address is lost, and `AdmissibleExactly` the exact
  condition on prefixes.
- For the same reason `merge` does not join neighbours when the upper one is in that block
  (`PrefixIndex.MappedNeighboursStayApart`); `ApartExactly` gives the exact condition.
- The running minimum of TTLs in the chase treats 0 as "none yet", so a zero TTL followed by a positive one is
  forgotten (`Chase.ZeroTTLForgotten`; `RunningTTLIsMinimum` gives the exact condition).
- The README of the resolver says that concurrent identical queries hit upstreams once.  Two lookups that both
  miss before either leads can both resolve (`Reloads.TwoResolutionsPossible`).  `Flights.StoredAnswerServes` gives the
  exact condition: a servable entry has served a lookup for its key if and only if it was stored before that
  lookup's `Get`; `LeadsBesideEntryExactly` says when a lookup can lead beside such an entry.
- A flight that loaded its assets before a reload and stores after the flush leaves a stale entry
  (`Reloads.StraddlerSpoils`).
- The name `..` shares the cache key of the root but is sent upstream as a different name and can have a different
  override verdict (`Names.RootCollision`); for all other names `KeyDecidesQuery` shows the key is sound.
- The comment on `earlyStable` (internal/engine/engine.go:132-135) is right that the branch never changes once the test
  holds, but the branch can be decided earlier: after a foreign upstream has listed a China address and only
  China-side upstreams are outstanding (`Engine.EarlyExitCanBeLate`).
- In the chase the test `t != ""` never fails, since normalised targets end in a dot.
- Incomplete results are served with an unclamped TTL (`Service.UnclampedServed`); `PositiveTTLBoundedExactly` says
  exactly when the TTL of a positive result is within the configured bounds.

## Model

| member | source | states |
|---|---|---|
| Netip.Compare | internal/china/index.go:83 | the order used for sorting and searching is the order of positions on one line, IPv4 before IPv6, and 0 means equal |
| Netip.IncrementIsSuccessor | internal/china/index.go:102-107 | the carry loop on any byte string adds one, modulo its width |
| Netip.IncrementInPlace | internal/china/index.go:102-107 | the loop leaves the buffer holding exactly the incremented bytes |
| Netip.NextAddr | internal/china/index.go:100-109 | the byte loop yields plus one modulo 2^128 on the 16-byte form, then unmapped |
| Netip.NextOfExactly | internal/china/index.go:99-109 | the successor within the family exactly when there is one outside the mapped block; never the argument itself |
| Netip.NextOfAtTheTop | internal/china/index.go:99-109 | the two overflows: the top of IPv6 goes to ::, the top of IPv4 leaves its family |
| Netip.NextOfSeesNeighbours | internal/china/index.go:87 | for all pairs of one family: equal exactly for true neighbours outside the mapped block, and for the wrap from the top of IPv6 to :: |
| Netip.SetHostBitsFillsLow | internal/china/index.go:66-74 | the masking loop sets exactly the low h bits of the number, for every h |
| Netip.FillHostBits | internal/china/index.go:67-74 | the loop leaves the buffer holding exactly the filled bytes |
| Netip.LastAddr | internal/china/index.go:60-76 | the byte loop yields the number with its host bits set, then unmapped |
| Netip.LastOfMasked | internal/china/index.go:59-76 | for masked prefixes the end is the start plus 2^hostBits - 1, in both families, before unmapping |
| PrefixIndex.SpanIsPrefix | internal/china/index.go:29-32 | a span is exactly its prefix's address set if and only if the prefix does not end in the mapped block |
| PrefixIndex.SortByLo | internal/china/index.go:83 | sorted by start, and a permutation |
| PrefixIndex.Touching | internal/china/index.go:87 | the join test of the merge pass, with the byte loop inside |
| PrefixIndex.JoinsExactly | internal/china/index.go:87 | on sorted spans of one family the test means overlap, or adjacency whose upper address is not in the mapped block |
| PrefixIndex.Compact | internal/china/index.go:84-96 | the in-place pass leaves the merge of the original array, so no unread span was overwritten |
| PrefixIndex.Merge | internal/china/index.go:79-97 | the returned slice is the merge of some sorted rearrangement of the input |
| PrefixIndex.MergeKeepsCover | internal/china/index.go:79-97 | merged spans are proper, disjoint and ordered, cover the same addresses, and touch at most at a start in the mapped block |
| PrefixIndex.Build | internal/china/index.go:23-36 | the index is a merge of the spans of each family, and counts the inputs |
| PrefixIndex.InputsCounted | internal/china/index.go:18-19 | the counts kept are the numbers of prefixes of each family |
| PrefixIndex.SearchFinds | internal/china/index.go:52 | on ascending ends the binary search returns the first span that does not end below the address |
| PrefixIndex.FindIsCovers | internal/china/index.go:51-57 | on proper disjoint spans the search answers membership exactly |
| PrefixIndex.IndexIsExact | internal/china/index.go:23-97 | for all prefix lists without a prefix ending in the mapped block, lookup equals the linear scan for the unmapped address |
| PrefixIndex.AdmissibleExactly | internal/china/index.go:60-76 | a prefix can join every admissible list without spoiling a lookup if and only if it does not end in the mapped block |
| PrefixIndex.EndsMappedBreaks | internal/china/index.go:75 | for every prefix ending in the mapped block, a list with it every index of which loses an address |
| PrefixIndex.MappedPrefixLosesAddress | internal/china/index.go:75 | every index of { ::/128, ::ffff:1.2.3.0/120 } loses the address :: |
| PrefixIndex.ApartExactly | internal/china/index.go:86-96 | IPv4 spans are never adjacent; IPv6 spans are never adjacent if and only if no two listed neighbours with the upper in the mapped block lack a common prefix |
| PrefixIndex.AvoidsMappedSuffices | internal/china/index.go:79-97 | lists without any prefix ending in the mapped block, /128 included, satisfy both conditions |
| PrefixIndex.ApartIsCanonical | internal/china/index.go:13-20 | spans with gaps between them are determined by the addresses they cover |
| PrefixIndex.IndexIsCanonical | internal/china/index.go:79-97 | two lists covering the same addresses build identical spans |
| PrefixIndex.MappedNeighboursStayApart | internal/china/index.go:87 | a concrete pair of neighbours that stays two spans |
| Policy.FilterLoop | internal/policy/policy.go:170-178 | the loop computes the order-preserving filter |
| Policy.DedupLoop | internal/policy/policy.go:180-191 | the loop computes first occurrences in order |
| Policy.DedupMembers | internal/policy/policy.go:180-191 | no duplicates, and the same members |
| Policy.Select | internal/policy/policy.go:67-106 | loops and rule cascade equal the selection on the three gathered lists |
| Policy.SelectFollowsRules | internal/policy/policy.go:67-106 | the policy and exactly the addresses the rules call for, stated by who listed what, each once |
| Policy.SelectOneClass | internal/policy/policy.go:85-105 | chosen addresses come from answers, are all of one class, and are non-empty as soon as any address was listed |
| Policy.ListedMeans | internal/policy/policy.go:69-79 | which answers count as China-side and as foreign |
| Policy.HasFirstPlace | internal/policy/policy.go:69-79 | every listed address has a first place: an outcome and an index in it |
| Policy.SelectInOrder | internal/policy/policy.go:81-105 | the chosen addresses are in order of first listing, by arrival and then by place in the answer |
| Policy.AddOwner | internal/policy/policy.go:140-144 | an address already owned keeps its owner |
| Policy.SelectTTL | internal/policy/policy.go:134-159 | the least owner TTL of the chosen addresses, or none and 0 |
| Policy.OwnerIsFirst | internal/policy/policy.go:132-145 | the owner of an address is the earliest answer that lists it |
| Policy.MinOwnedIsMin | internal/policy/policy.go:146-158 | the TTL is attained and is a lower bound over all owned addresses |
| Policy.TTLShrinks | internal/policy/policy.go:134-159 | a longer choice over more outcomes never has a larger TTL |
| Policy.FirstSOALoop | internal/policy/policy.go:161-168 | the first SOA present |
| Policy.FinalizeNegative | internal/policy/policy.go:112-130 | the loops and switch compute the negative verdict |
| Policy.NegativeIsUnanimous | internal/policy/policy.go:108-130 | a negative is reported exactly when the upstreams that did not fail agree; its SOA is present exactly when one of them supplies one, and is that of the first outcome in arrival order that has one |
| Engine.ScanAnswer | internal/engine/engine.go:142-150 | the flags one answer raises |
| Engine.EarlyStable | internal/engine/engine.go:136-153 | true exactly when a China upstream listed an address that some prefix of the China list contains, and a foreign upstream one that none contains |
| Engine.Finalize | internal/engine/engine.go:155-179 | the result of selection, TTL and negative verdict together |
| Engine.Collect | internal/engine/engine.go:103-123 | the outcomes taken are a prefix of the arrivals, ended by completeness, first stability or the deadline, and complete exactly when all arrived |
| Engine.Resolve | internal/engine/engine.go:85-124 | the result is that of the prefix at which the loop stopped; Complete exactly when every upstream reported; one report per received outcome, with its server, state and error category |
| Engine.AnswerWins | internal/engine/engine.go:81-84 | any answer forces NOERROR with a non-empty duplicate-free list of received addresses of one class, and the least owner TTL |
| Engine.ResultFollowsLists | internal/engine/engine.go:155-171 | with an answer received: NOERROR, the documented policy, and exactly the documented addresses, for membership in the prefix list and the verdict of the override lists |
| Engine.ResolveFollowsLists | internal/engine/engine.go:85-124 | the loop stops at the least number of outcomes at which all have arrived, the context has ended, or rule 1 holds on the prefix list; the reply is the documented one on these, complete exactly if they are all |
| Engine.ServfailExactly | internal/engine/engine.go:172-177 | SERVFAIL exactly without an answer and without an agreed negative; NXDOMAIN exactly on agreement; a negative has no address, no policy, TTL 0, and the first SOA of its kind |
| Engine.StableChoiceExtends | internal/engine/engine.go:132-135 | after stability, later outcomes keep the policy and only extend the address list |
| Engine.EarlyCompletionSound | internal/engine/engine.go:132-153 | for every continuation: same rcode and policy, early addresses are a prefix of the later ones, TTL no larger later |
| Engine.StableExactly | internal/engine/engine.go:132-153 | given the sides of the outstanding upstreams, the policy is decided if and only if rule 1 holds, or rule 1 is out of reach and no first China address can appear |
| Engine.EarlyExitExact | internal/engine/engine.go:116-118 | while both sides are outstanding, the policy is decided if and only if the test of the early exit holds |
| Engine.EarlyExitCanBeLate | internal/engine/engine.go:132-135 | a decided policy on which the test fails |
| Engine.ArrivalOrderIrrelevant | internal/engine/engine.go:155-179 | policy, rcode, address set, SOA presence depend only on which outcomes arrived |
| Engine.EarlyAgreesWithCompleteRun | internal/engine/engine.go:116-118 | an early reply agrees with every complete run over the same outcomes in any order |
| Names.NewOverrides | internal/overrides/overrides.go:19-34 | the set holds exactly the normalised non-empty entries |
| Names.StemForm | internal/overrides/overrides.go:98-100 | normalising removes the surrounding blanks, then one trailing dot, and lowers exactly the ASCII capitals |
| Names.QueryNameIsNormal | internal/upstream/chase.go:141-143 | the name sent upstream is the normalised name and one dot, in normal form, with the key and verdict of the name asked for |
| Names.MatchesExactly | internal/overrides/overrides.go:82-96 | on the entry lists themselves: equal to a normalised exact entry, or something, a dot, and a normalised wildcard suffix |
| Names.Match | internal/overrides/overrides.go:82-96 | the loop returns that verdict, for every pair of lists the set was built from |
| Names.WildcardNeedsDot | internal/overrides/overrides.go:11-17 | a wildcard alone matches neither its apex nor a longer name that only ends in the same letters |
| Names.WildcardMatchesBelow | internal/overrides/overrides.go:90-94 | and matches every name with something and a dot before the suffix |
| Names.KeyDecidesQuery | internal/resolve/service.go:98-104 | names with one key have one query name, and one verdict under every override list, if and only if both or neither is `..` |
| Names.KeysSeparate | internal/upstream/chase.go:141-143 | different keys mean different query names |
| Names.RootCollision | internal/resolve/service.go:97-104 | the concrete collision of `.` and `..` |
| Chase.CollectAddrs | internal/upstream/chase.go:77-91 | the wanted addresses in order, and the running TTL |
| Chase.WantedMembers | internal/upstream/chase.go:79-91 | exactly the addresses and TTLs of the records of the wanted type with a usable address |
| Chase.WantedInOrder | internal/upstream/chase.go:79-91 | one by one and in the order of the answer; A addresses unmapped, AAAA addresses as they are |
| Chase.RunningTTLRestarts | internal/upstream/chase.go:88-90 | after a zero TTL the running minimum starts anew |
| Chase.RunningTTLIsMinimum | internal/upstream/chase.go:88-90 | the running TTL is the minimum if and only if no TTL is zero or the last one is |
| Chase.ZeroTTLForgotten | internal/upstream/chase.go:88 | a concrete answer whose TTL is not the minimum |
| Chase.CollectTargets | internal/upstream/chase.go:100-112 | the CNAME targets of the current name, each once, in order |
| Chase.TargetsInOrder | internal/upstream/chase.go:100-112 | the targets are those of the CNAMEs owned by the name up to case, normalised, each once, in order of first appearance |
| Chase.ExtractSOA | internal/upstream/chase.go:157-164 | the loop computes the first SOA |
| Chase.SOAIsFirst | internal/upstream/chase.go:157-164 | it is the SOA record at the least place of the section, or there is none |
| Chase.HopBudget | internal/upstream/chase.go:129-139 | zero or the least of the timeout and the time left; positive exactly with time left |
| Chase.JudgeReply | internal/upstream/chase.go:63-117 | the reply switch and both record loops compute the verdict |
| Chase.JudgeMeans | internal/upstream/chase.go:57-117 | the verdict told on the message: error, rcode 3, other rcodes, a wanted record, an owned CNAME, or the end of the chain with the first SOA of the authority section |
| Chase.ChaseEnds | internal/upstream/chase.go:25-127 | against any upstream, by the last exchange: NXDOMAIN exactly on rcode 3, an answer exactly on NOERROR with a wanted record, failure exactly when given up or on an error or any other rcode, with its category; otherwise NODATA, with or without an SOA |
| Chase.ChaseInTime | internal/upstream/chase.go:26-49 | every lookup is made with time left, and at most n after a context that ends at the n-th turn |
| Chase.ChaseInOrder | internal/upstream/chase.go:31-122 | names are asked for in the order in which CNAMEs first led to them, by lookup and then by place in the reply |
| Chase.JudgeWellFormed | internal/upstream/chase.go:92-97 | an answer has addresses without duplicates, nothing else has any, and going on needs a target |
| Chase.AppendUnseen | internal/upstream/chase.go:118-122 | appends exactly the targets not yet seen |
| Chase.Chase | internal/upstream/chase.go:18-127 | the loop terminates and computes the recursive search, its lookups included |
| Chase.AnswerFromLastReply | internal/upstream/chase.go:75-97 | an answer is the deduplicated wanted records of the reply to the last lookup, with their running TTL |
| Chase.ChaseIsSafe | internal/upstream/chase.go:25-123 | against any upstream: at most maxHops lookups, no name twice, every name led to by a returned CNAME, answers well formed |
| Chase.ChaseFindsNearest | internal/upstream/chase.go:18-127 | for every zone, unless given up at the cap or for time: names asked in order of CNAME distance, outcome of an end at least distance, or NODATA without SOA if none is reachable |
| Chase.ChaseIsWalk | internal/upstream/chase.go:18-127 | with at most one CNAME per name (section 3.6.2 of RFC 1034) the chase is the chain walk |
| Frontiers.ExploredHead | internal/upstream/chase.go:31-36 | the next name is at its exact distance, and no end of the graph is nearer |
| Frontiers.ExploredSteps | internal/upstream/chase.go:118-122 | queueing unseen targets keeps the breadth-first frontier |
| Frontiers.ExploredAll | internal/upstream/chase.go:124-126 | an empty queue means everything reachable was taken and nothing was an end |
| LruCache.Cache.constructor | internal/cache/cache.go:56-67 | empty, valid, counters at zero |
| LruCache.Cache.Get | internal/cache/cache.go:71-91 | takes a Get step; map and list stay in step; a hit counts one hit, a miss one miss, a dropped entry one eviction |
| LruCache.Cache.CountMiss | internal/resolve/service.go:35-37 | a hit that is not served counts as a miss as well |
| LruCache.Cache.SetLocked | internal/cache/cache.go:103-113 | replaces or pushes and evicts, with expiry from its first clock reading |
| LruCache.Cache.Set | internal/cache/cache.go:94-99 | takes a Put step |
| LruCache.Cache.ChooseVictim | internal/cache/cache.go:119-129 | the first expired entry from the back, else the last |
| LruCache.Cache.EvictLocked | internal/cache/cache.go:117-133 | victims leave until the capacity is met, each counted |
| LruCache.Cache.Remove | internal/cache/cache.go:135-139 | out of list and map together |
| LruCache.Cache.SweepExpired | internal/cache/cache.go:170-182 | exactly the live entries stay, in order |
| LruCache.Cache.FlushAll | internal/cache/cache.go:149-154 | empties list and map |
| LruCache.Cache.Len | internal/cache/cache.go:142-146 | the number of keys the cache has an entry for, which never exceeds the capacity |
| LruCache.Cache.Enter | internal/cache/flight.go:17-29 | joins the registered flight, or registers a new one; nothing else changes |
| LruCache.Cache.Leave | internal/cache/flight.go:33-39 | publishes the value, unregisters the key, and stores exactly if cacheable |
| CacheModel.StepKeeps | internal/cache/cache.go:71-182 | every step keeps keys distinct and the capacity, and an entry is the one just written or an old one not superseded |
| CacheModel.GetExactly | internal/cache/cache.go:71-91 | a lookup drops the entry of its key if expired and nothing else, and hits exactly a live entry |
| CacheModel.ReplaceExactly | internal/cache/cache.go:105-109 | writing a listed key replaces its entry and drops no other |
| CacheModel.NoNeedlessEviction | internal/cache/cache.go:117-118 | with room left a new key drops nothing |
| CacheModel.EvictsExpiredFirst | internal/cache/cache.go:115-133 | a full cache drops exactly one entry for a new key: an expired one if there was any, and a live one only if all were live, and then the least recently used |
| CacheModel.RunRefinesIdeal | internal/cache/cache.go:71-182 | over every run the cache holds only what an unbounded map since the last Flush holds |
| CacheModel.IdealIsLastWrite | internal/cache/cache.go:93-113 | what the unbounded map holds is the last write of the key, with no flush since |
| CacheModel.HitIsLatest | internal/cache/cache.go:71-91 | a hit is the payload last stored since the last Flush, strictly before its expiry |
| CacheModel.ListIsRecency | internal/cache/cache.go:43-47 | over every run the list is in order of last touch |
| CacheModel.TouchedIsFirst | internal/cache/cache.go:88-112 | a touched key is first afterwards |
| CacheModel.Retention | internal/cache/cache.go:115-133 | an entry stays until a flush, another write of its key, its expiry, or the use of as many other keys as the capacity, despite evictions and sweeps |
| CacheModel.ExactLife | internal/cache/cache.go:79-113 | after a write at time `at` with TTL ttl, undisturbed, a Get at u hits if and only if u is before `at` plus ttl seconds, and its TTL is the remaining time rounded up to seconds |
| CacheModel.DurationArithmetic | internal/cache/cache.go:80-87 | 64-bit durations wrap on addition, and the difference of times saturates |
| CacheModel.ServedTTLIsCeiling | internal/cache/cache.go:80-87 | with 64-bit durations and 32-bit TTLs nothing overflows, and the TTL is the ceiling of the remaining seconds |
| CacheModel.HitTTL | internal/cache/cache.go:79-90 | over every run a served TTL is in 1 .. stored TTL and overstates the remaining life by less than a second |
| CacheModel.ServedTTLNeverIncreases | internal/cache/cache.go:79-90 | between writes of a key its served TTLs never increase |
| CacheModel.PutExists | internal/cache/cache.go:103-133 | a live value finds room whatever the cache holds |
| Service.Clamp | internal/resolve/service.go:87-95 | within the bounds, and unchanged if already within |
| Service.ClampIsNearest | internal/resolve/service.go:87-95 | no value within the bounds is nearer |
| Service.NegativeTTL | internal/resolve/service.go:67-70 | the least of the SOA's TTL and MINIMUM |
| Service.ServedAsResolved | internal/resolve/service.go:53-85 | cacheable or not, rcode, addresses, SOA and policy are the engine's; a value that is not cacheable keeps the TTL too |
| Service.CacheableExactly | internal/resolve/service.go:53-75 | cacheable exactly for complete runs with an answer, or an agreed negative with an SOA |
| Service.CacheableContent | internal/resolve/service.go:58-72 | a cacheable value is a positive or a unanimous negative one, with the clamped TTL spelled out (section 5 of RFC 2308) |
| Service.CacheableOrderFree | internal/resolve/service.go:53-75 | cacheability does not depend on arrival order |
| Service.PositiveTTLBoundedExactly | internal/resolve/service.go:55-62 | the TTL served with a positive result is within bounds if and only if the run was complete or it lay there already |
| Service.UnclampedServed | internal/resolve/service.go:55-57 | for every TTL and all bounds, an incomplete result served with that TTL |
| Service.SameKeySameAnswer | internal/resolve/service.go:98-104 | names with one key are chased alike against every upstream and resolved alike from the same outcomes, unless exactly one is `..` |
| Service.OutcomesWellFormed | internal/engine/engine.go:92-101 | whatever the upstreams reply, the outcomes the engine receives are well formed |
| Service.OutcomeServer | internal/engine/engine.go:96-99 | an outcome carries its upstream's address and side, and the chase's state and SOA |
| Service.ListedInReplies | internal/engine/engine.go:92-101 | an address is listed by a side exactly when the last reply to some upstream of that side has a usable record of the wanted type with it |
| Service.TTLIsLeastRecordTTL | internal/upstream/chase.go:77-97 | for every list of upstreams that send no zero TTL: the TTL of a positive answer is the least record TTL in the replies, found by the chases, that first listed the chosen addresses |
| Flights.FlightsKept | internal/cache/flight.go:16-42 | every step keeps registry, leaders and callers consistent |
| Flights.OneLeaderPerKey | internal/cache/flight.go:27-31 | in every reachable state at most one caller leads an unfinished flight for a key |
| Flights.NoOrphans | internal/cache/flight.go:18-25 | a waiter's flight is closed or still led by another caller |
| Flights.WaiterGetsOwnFlight | internal/cache/flight.go:20-41 | over every run a waiter is answered with its own flight's value only, and that flight is for the key it asked for |
| Flights.OriginStays | internal/cache/flight.go:33-41 | a published value never changes |
| Flights.ReachableEntries | internal/cache/flight.go:31-39 | every entry is the value of a finished, complete, cacheable flight for its key that published after the last flush |
| Flights.ReachableServed | internal/resolve/service.go:34-41 | values served from the cache have TTL at least 2 and come from cacheable flights for the key |
| Flights.ReachableTicks | internal/engine/engine.go:79-86 | a flight with replaced assets loaded them before they were replaced, and every completed reload was followed by a flush |
| Flights.ReachableAsked | internal/resolve/service.go:29-45 | every flight resolves its leader's question, and every caller deals only with flights and entries for the key it asked for |
| Flights.ServableIsServed | internal/resolve/service.go:34-41 | `Get` leads to a served answer exactly for entries with more than one second left |
| Flights.StoredAnswerServes | internal/resolve/service.go:34-45 | a servable entry has served a lookup for its key if and only if it was stored before the lookup's `Get` |
| Flights.LeadsBesideEntryExactly | internal/resolve/service.go:34-45 | a lookup that missed can lead beside a servable entry for its key if and only if its `Get` preceded the store and no flight for the key is registered |
| Timeline.MoveIsStep | internal/cache/cache.go:71-182 | every move of the machine takes one step of the cache on the list |
| Timeline.HistoryIsCacheRun | internal/cache/cache.go:71-182 | every history of the machine is, index by index, a run of the cache |
| Timeline.ServedIsLatest | internal/resolve/service.go:34-41 | a lookup served from the cache gets the value of the last flight that stored one for its key since the last flush, with TTL in 2 .. stored TTL, too large by less than a second |
| Timeline.LookUpServedExactly | internal/resolve/service.go:34-41 | after a flight stored an answer, undisturbed, a lookup is served from the cache if and only if more than one second of its TTL is left, with the remaining time rounded up |
| Timeline.PublishStores | internal/cache/flight.go:33-39 | a published cacheable value is at the front of the cache, unless dead on arrival |
| Timeline.StoredStays | internal/cache/flight.go:36-40 | and stays until a flush, another store for the key, its expiry, or the use of as many other keys as the capacity |
| Timeline.StoredBeforeSeen | internal/cache/flight.go:33-41 | a caller answered with a cacheable value: its flight published that value earlier, it was then at the front of the cache under the caller's key, and nobody had been answered yet |
| Coalescing.Frontend.LookUp | internal/resolve/service.go:28-41 | on the real list and map, `Lookup` up to `Get` takes the machine's move, serves what it serves, and counts exactly one miss if it serves nothing |
| Coalescing.Frontend.Enter | internal/cache/flight.go:17-29 | the first critical section takes the move Lead or Join |
| Coalescing.Frontend.Leave | internal/cache/flight.go:33-39 | the second takes the move Publish, and the flight it unregisters is its own |
| Coalescing.Frontend.Flush | internal/cache/cache.go:149-154 | takes the flush move of a reload |
| Coalescing.Frontend.Sweep | internal/cache/cache.go:170-182 | takes the sweep move |
| Reloads.CacheContent | internal/resolve/service.go:28-75 | every cached value is what the engine and the service made of its own flight's run, in which all upstreams reported, for the entry's key; never SERVFAIL, and positive or unanimously negative within its TTL bounds |
| Reloads.AnswersTheQuestion | internal/resolve/service.go:29-45 | the flight behind a caller's answer has its key, and its name is chased and resolved exactly as the caller's own, unless exactly one is `..` |
| Reloads.AnswerIsResult | internal/resolve/service.go:28-85 | every answered caller gets, field by field, what the engine made of its flight's outcomes |
| Reloads.CallerIsAnswered | internal/resolve/service.go:28-85 | complete or cut short: NOERROR with exactly the documented addresses if there was an answer, else NXDOMAIN or NODATA if that is all that was reported, else SERVFAIL |
| Reloads.StaleEntryStraddled | cmd/chn-resolver/main.go:200-212 | an entry made with replaced assets was loaded before the replacement and stored after the following flush |
| Reloads.CleanRun | cmd/chn-resolver/main.go:207-208 | from a state with nothing older than a version, no later state of any run caches or answers newcomers from anything older |
| Reloads.ReloadCleanExactly | cmd/chn-resolver/main.go:200-212 | after a flush, no stale entry is ever cached and no later caller answered from replaced assets, if and only if no flight in progress has loaded them |
| Reloads.StraddlerSpoils | internal/cache/flight.go:31-39 | a straddling flight can leave a stale entry |
| Reloads.WaiterCanReturn | internal/cache/flight.go:20-41 | from every reachable state a waiter can still be answered by its flight, in at most four steps |
| Reloads.TwoResolutionsPossible | internal/resolve/service.go:34-45 | two lookups that both miss can both resolve, although the first has left a live entry |

## Left out

- internal/upstream/client.go and internal/server/forward.go: socket exchanges; an exchange is an arbitrary reply or error.
- internal/server: listeners, framing, message synthesis, the query semaphore.
- internal/metrics and internal/config: counters and field checks; the clamps' lower bounds are taken to be at most their upper bounds, the capacity at least 1 where a result needs it.
- internal/china/loader.go and the reading of override files: line scanning and prefix parsing; the index starts from a list of masked prefixes.
- Goroutine fairness and real timers: steps are nondeterministic and the clock only moves forward, so liveness is stated as "can still be answered", not "will be".
- IPv6 zones, invalid addresses, Unicode case folding and DNS presentation escapes: names are ASCII, addresses are valid and without zone.
- `Lookup` with the cache switched off, which only calls the engine.
- Callbacks and latencies of the engine, and the cancelling of stragglers after an early return.
- A reload that fails to load its files, which leaves everything as it was.
- A panic inside a flight, which would leave it registered.
- LruCache.Cache: the doubly linked list is a sequence and the map holds entries rather than pointers into the list, so pointer aliasing between the two is not captured; the two are proved to hold the same entries.  Counters are unbounded.  The lock is not modelled: each method is one critical section.
- Coalescing.Frontend: the blocking part of `Do` (waiting on the channel, running the function between the two critical sections) is modelled on values, as moves of the machine in `Flights`, and has no method of its own.
- PrefixIndex.SortByLo: an insertion sort stands in for the library's sort; the merge results hold for every sorted rearrangement.
- Policy names are a datatype, not the strings; an SOA is its two TTL fields.
- PrefixIndex.AdmissibleExactly: the condition is exact per prefix, not per list; some lists with a prefix ending in the mapped block still answer every lookup correctly.
- Service.CacheableOrderFree: the TTL, the order of addresses and the choice of SOA do depend on arrival order, because the first arrival wins.

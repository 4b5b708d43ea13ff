# common-lib-go: a verified model of its stateful core

This project models the parts of `vpnhouse/common-lib-go` that keep state under invariants which no
single function shows, and proves those invariants and the laws that follow from them. Operations guarded
by a lock are atomic; where the code drops its lock in the middle of an operation the model has two steps.
Objects that the code updates in place are classes proved against functions on values, protocols between
threads are step machines, and the main results hold for every input, every run or every reachable state.

| component | modules |
|---|---|
| ring-buffer cache (`xcache`) | `CacheBucket` (the bucket as a value), `CacheWords` (packed index words), `CacheLayout` (what each operation does to what is visible), `BucketObject` (the bucket as an object over 64 KiB arrays), `CacheSlices` (slices kept after the lock), `CacheRuns` (512 buckets over whole runs), `CacheAnswers` (what each call answers), `CacheUpsert` (insert or change in place) |
| traffic counters (`xstats`) | `CacheLedger` (conservation for any counter format), `Stats` (the little-endian format and `ReportStats`), `TrafficRuns` (when nothing is lost, in terms of what was reported), `SessionReports` (what a flush tells of each session) |
| pipe and condition variable (`xpipe`, `xsync`) | `Pipe` (steps), `PipeRuns` (FIFO, reports, logs), `PipeWakeup` (wake-ups), `PipeTheorems` (whole runs), `PipeLimits` (exactly when no wake-up is lost), `PipeAnswers` (what each call answers, and why) |
| TTL map (`xttlmap`) and DNS cache | `Recency` (most recently used first), `TtlMap` (index and linked list on the heap), `TtlRuns` (runs with background cleaners), `TtlGap` (runs with lookups cut at their lock gap), `CachedDns` |
| domain rules (`dnsbase`) | `Labels`, `DomainTable` (rows), `DomainBase` (writing), `DomainLookup`, `DomainRules` (declarative matching) |
| ring list (`list`) and its user | `RingList`, `LastActive` |
| IPv4 pool (`ippool`, `xnet`) | `Ipv4` (words and masks), `Ipv4Pool` |
| limiter (`xlimits`) | `Limiter`, `LimiterRuns` |
| shaper (`shaper`) | `Shaper` |
| shared | `Basics`, `BitWords` (bit operators on numbers) |

Clock readings, random numbers, hash values, the contents of a recycled chunk, the order in which Go ranges
over a map, answers of nested resolvers and the outcome of waiting on a context are parameters: every claim
holds for all of them. Times are nanoseconds with 0 for the zero time. 64-bit wrap-around is written out for
the cache's packed words and generation counter and for the traffic counters, 32-bit and byte wrap-around for
IPv4 addresses; other integers are unbounded.

## What the model shows about the code

- A cache bucket never reports what it overwrites: `cleanLocked` drops only entries its readers refuse, so the
  batch it passes to `onEvict` is always empty (`BucketObject.Bucket.CleanLocked`). Counters kept in the cache
  are therefore conserved exactly under the guard `CacheUpsert.Lossless`, and `CacheUpsert.LosslessIff` proves
  that guard both sufficient and necessary for a single report. Over runs, with reports also between the bucket
  rounds of a flush, nothing is lost if every value fits, no two session ids share a hash and no bucket wraps
  between its flushes (`TrafficRuns.TrafficConservedUnlessWrapped`), which holds whenever the sessions new to a
  bucket since its last flush take at most half of its bytes (`TrafficRuns.TrafficConservedWithinSize`).
- No wake-up of the pipe is lost on any run exactly when at most one thread may read and at most one may write
  (`PipeLimits.WakesIff`, for every buffer size). `Wait` registers, releases the lock and only then reaches its
  `select`; `Broadcast` hands a token to a thread blocked in the `select` and otherwise fills the one-slot
  channel. Two threads caught in that gap share one token, and the second then stays blocked on a closed pipe
  until a later call happens to signal it or the context is cancelled (`PipeLimits.TwoCanLoseAWakeup`).
- The second half of `TTLMap.Get` runs after the lock was dropped and does not look the key up again. Over every
  sequence of critical sections the map stays whole exactly when each such move comes while its key has been
  stored ever since the first half found it (`TtlGap.Play` with `TtlGap.LateIff`); the first one that comes later
  leaves a list whose head the index does not know. A store, a lookup and a delete are enough to get there
  (`TtlMap.LookupAcrossDelete`).
- On a whole map `TTLMap.Set` of a new key ends exactly when `maxSize` is at least 1 (`TtlMap.TTLMap.EvictFor`).
  On a map that a late move has left it may not end although `maxSize` is 2: the list can run empty while the
  index stays full (`TtlGap.EvictionStuck`).
- A cached DNS answer expires within `maxTtl` of being filed, for all answers, exactly when
  `minTtl <= maxTtl` and `maxTtl` is not the largest duration (`CachedDns.CapHoldsIff`).
- A rule written with the single blank category reads back as no category, and a category name with a comma
  reads back as two (`DomainBase.CategoriesRoundTrip` has the exact condition).
- The error texts of `setLocked` say "> 65536"; the code refuses lengths of 65536 and above, and the model
  follows the code.

## Model

| member | source | states |
|---|---|---|
| `CacheBucket.PlacementFits` | xcache/cache.go:286-306 | the place picked for a record lies in one existing chunk, and a jump always lands at a chunk's start |
| `CacheBucket.AppendedIs` | xcache/cache.go:283-317 | the ring after an append is fixed by its head, its generation and one spliced chunk |
| `CacheWords.PackExact` | xcache/cache.go:316 | a packed word unpacks to its offset and generation, fits 64 bits and is never the absent value 0 |
| `CacheWords.ShiftKeepsLow24` | xcache/cache.go:316 | shifting the counter into the word keeps exactly its 24 low bits |
| `CacheWords.GenCycle` | xcache/cache.go:295-298 | the low bits of the 64-bit counter run cyclically through 1 to 2^24-1, across both wrap-arounds |
| `CacheWords.KeepsIsFresh` | xcache/cache.go:203-205 | the test of the cleaning loop accepts exactly the words the readers accept |
| `CacheWords.SiftedIsAccepted` | xcache/cache.go:200-216 | what the cleaning loop keeps, word by word, is what is kept entry by entry |
| `CacheLayout.EncodedReadsBack` | xcache/cache.go:271-315 | header, key and value written into a page at any place read back as written |
| `CacheLayout.SpliceElsewhere` | xcache/cache.go:312-314 | a write outside a record's bytes leaves its lengths, key and value alone |
| `CacheLayout.FreshMeansLag` | xcache/cache.go:335-337 | the generation-and-offset test says exactly that the head has not gone round past the record's start |
| `CacheLayout.FreshAfterMove` | xcache/cache.go:286-306 | which entries stay accepted when the head moves, and that they are of the new generation or its predecessor |
| `CacheLayout.ReadTotal` | xcache/cache.go:330-366 | a valid entry reads, or reports no data; the corrupted-data exits and slice bounds are unreachable failures |
| `CacheLayout.GetReadsContents` | xcache/cache.go:368-410 | a lookup returns the visible value of that very key, and no data for a colliding key |
| `CacheLayout.SpanClear` | xcache/cache.go:286-317 | a record still accepted after a write lies wholly before or wholly behind the bytes written |
| `CacheLayout.AppendedKeeps` | xcache/cache.go:307-317 | such a record is untouched by the write |
| `CacheLayout.SetEffect` | xcache/cache.go:262-322 | a store keeps the layout invariant; what is visible after it is what the head did not pass, unchanged, plus the new pair |
| `CacheLayout.CleanEffect` | xcache/cache.go:195-231 | cleaning changes nothing visible and drops only entries that read as no data |
| `CacheLayout.DelEffect` | xcache/cache.go:451-455 | a delete removes one hash and nothing else |
| `CacheLayout.EmptiedEffect` | xcache/cache.go:186-192 | an emptied bucket is valid and shows nothing |
| `CacheLayout.WriteThroughEffect` | xcache/cache.go:403-405 | writing through the uncopied slice changes that one value and nothing else |
| `CacheLayout.StaysUntilLapped` | xcache/cache.go:262-322 | a record stays readable and unchanged under any later writes to other hashes that take at most half of the ring left behind it |
| `BucketObject.AppendTo` | xcache/cache.go:312-314 | the three appends into a chunk's spare capacity are one splice of the encoded record |
| `BucketObject.Cut` | xcache/cache.go:350-365 | key, value and value position cut out of a page are those of the record there |
| `BucketObject.Bucket.Init` | xcache/cache.go:158-170 | succeeds exactly for 0 < maxBytes < 2^40, with the least number of chunks that covers maxBytes, empty |
| `BucketObject.Bucket.Locate` | xcache/cache.go:330-357 | validation, chunk choice and header reading agree with the value model, errors included |
| `BucketObject.Bucket.ReadItem` | xcache/cache.go:330-366 | reading by packed word refines the value model |
| `BucketObject.Bucket.GetLocked` | xcache/cache.go:368-410 | the lookup refines the value model and hands out the very slice the value lies in |
| `BucketObject.Bucket.NewGeneration` | xcache/cache.go:295-298 | the counter step goes to the next generation and skips 0 |
| `BucketObject.Bucket.Place` | xcache/cache.go:286-306 | place, wrap flag, generation and chunk lengths after choosing where a record goes |
| `BucketObject.Bucket.Append` | xcache/cache.go:307-315 | only the chosen chunk changes, by one splice, and a missing chunk is allocated first |
| `BucketObject.Bucket.AppendRecord` | xcache/cache.go:283-317 | placing and appending together receive the record as the value model does |
| `BucketObject.Bucket.Sift` | xcache/cache.go:200-216 | the first cleaning loop keeps exactly the accepted words and lists only refused ones |
| `BucketObject.Bucket.CleanLocked` | xcache/cache.go:195-231 | the index is cleaned as in the value model and the eviction batch is empty |
| `BucketObject.Bucket.PutIndex` | xcache/cache.go:316-320 | the record is indexed under its hash and the index cleaned exactly on a wrap |
| `BucketObject.Bucket.SetLocked` | xcache/cache.go:262-322 | a store refines the value model, error cases included, keeps the object valid and reports nothing evicted |
| `BucketObject.Bucket.Get` | xcache/cache.go:324-328 | a copying lookup refines the value model and changes nothing |
| `CacheSlices.GetUncopied` | xcache/cache.go:368-410 | an uncopied lookup refines the value model and hands out the slice that shows the value |
| `CacheSlices.SliceShows` | xcache/cache.go:403-405 | while its key is visible such a slice shows its value |
| `CacheSlices.SetBeside` | xcache/cache.go:262-322 | after a store under another hash the slice still shows the same bytes exactly as long as the head has not passed its record |
| `CacheSlices.RewriteBeside` | xcache/cache.go:412-427 | an update in place of another key leaves the slice alone, one of the same key writes through it |
| `BucketObject.Bucket.Del` | xcache/cache.go:451-455 | one hash leaves the index |
| `BucketObject.Bucket.WriteSlice` | xcache/cache.go:403-405 | writing into the slice a lookup handed out is the in-place rewrite of the value model |
| `BucketObject.Bucket.Mutate` | xcache/cache.go:416-418 | what the mutator writes into the uncopied value lands in the chunk |
| `BucketObject.Bucket.Conclude` | xcache/cache.go:418-426 | what follows from the mutator's answer: error, store, or neither |
| `BucketObject.Bucket.Update` | xcache/cache.go:412-427 | the whole update refines the value model |
| `BucketObject.Bucket.GetSet` | xcache/cache.go:429-449 | found value, provider error, store error and stored value, as in the value model |
| `BucketObject.Bucket.HandOut` | xcache/cache.go:176-184 | the items handed out are the visible contents, each hash once |
| `BucketObject.Bucket.Reset` | xcache/cache.go:172-193 | everything visible is handed out and the bucket emptied |
| `CacheRuns.StepKeeps` | xcache/cache.go:91-139 | every cache operation, and the round of a reset in each single bucket, keeps every bucket valid and current with the log of writes, deletes and cleared buckets |
| `CacheRuns.LookupIsLastWrite` | xcache/cache.go:91-139 | after every run, with any calls between the rounds of a reset, a lookup reports no data or returns exactly the last bytes written for that key and not since deleted or cleared |
| `CacheRuns.WriteIsVisible` | xcache/cache.go:105-117 | after every run an accepted write is visible at once |
| `CacheAnswers.SetAnswers` | xcache/cache.go:105-110 | after every run a store is refused exactly for its lengths and then changes nothing; otherwise the key looks up to the value, and other keys as before unless they share its hash or the head ran over them |
| `CacheAnswers.GetSetAnswers` | xcache/cache.go:98-103 | after every run: a hit answers what a lookup gave and changes nothing; on a miss the provider's error or the refusal comes back and nothing changes, or the provided value comes back and is what a lookup then gives |
| `CacheAnswers.UpdateAnswers` | xcache/cache.go:91-96 | after every run: what the mutator wrote in place is what a lookup gives and no other key changes; then its failure, its store or neither decides the answer |
| `CacheAnswers.DelAnswers` | xcache/cache.go:119-124 | after every run a deleted key is gone, with any that shares its hash, and no other |
| `CacheAnswers.ResetAnswers` | xcache/cache.go:172-193 | after every run the reset of a bucket leaves nothing there and touches no other |
| `CacheRuns.GenerationSafety` | xcache/cache.go:195-231 | after every run each index entry is of the current generation or the one before it in the cycle that skips 0, and readable exactly while not overtaken |
| `CacheRuns.HandsOutShare` | xcache/cache.go:172-193 | one bucket's round hands out exactly the pairs of that bucket a lookup would return, each key once |
| `CacheRuns.ResetHandsOutBatch` | xcache/cache.go:126-139 | with any calls between its 512 rounds, a reset hands out exactly the pairs a lookup would have returned when it came to their bucket, each key once |
| `CacheRuns.ResetCollectsBatch` | xcache/cache.go:126-139 | the same for the collector that the reset passes from bucket to bucket |
| `CacheUpsert.UpsertLookup` | xcache/cache.go:412-427 | what every key looks up to after such an update, by cases on presence, fit, collision and overrun |
| `CacheUpsert.LosslessIff` | xcache/cache.go:262-322 | an update loses nothing exactly when the key is present, or it fits, its hash is free and the head passes no visible entry |
| `CacheUpsert.LossyLoses` | xcache/cache.go:262-322 | outside that guard some key is named that has lost its value |
| `CacheUpsert.CollisionLoses` | xcache/cache.go:316 | after one report on empty buckets, a report whose id shares that hash is outside the guard |
| `CacheUpsert.OverrunLoses` | xcache/cache.go:286-306 | in buckets of one chunk, so is one whose record does not fit behind the first |
| `CacheUpsert.NoWrapIsLossless` | xcache/cache.go:286-306 | on a bucket's first lap, fitting with a free hash and not wrapping is enough |
| `CacheUpsert.FirstLapKept` | xcache/cache.go:286-306 | updates that do not wrap keep a bucket on its first lap |
| `CacheUpsert.HeadAfter` | xcache/cache.go:283-317 | an update in place leaves the head alone, an insert moves it by at most twice the record's length |
| `CacheLedger.ShareCounts` | xcache/cache.go:172-193 | a flushed share carries, for each key of its bucket, exactly the count that was cached |
| `CacheLedger.Conservation` | xstats/service.go:116-141 | for any counter format: over every interleaving of lossless posts and single bucket flushes, flushed plus cached equals posted modulo 2^64 |
| `Stats.LeRoundTrip` | xstats/utils.go:7-33 | a little-endian field reads back, for every width |
| `Stats.LeOnto` | xstats/utils.go:7-33 | every byte string is the field of the number it reads as |
| `Stats.LeDigit` | xstats/utils.go:7-33 | the i-th byte of a field is the i-th digit to the base 256, the lowest first |
| `Stats.ParseValue` | xstats/service.go:47-101 | parsing a stored value gives the counters, the creation time, the time since it modulo 2^64, and the data |
| `Stats.AddCounts` | xstats/utils.go:83-89 | adding is modulo 2^64 in each counter and leaves the rest of the value alone, for every buffer the code accepts |
| `Stats.Put` | xstats/utils.go:14-33 | the field lands at its place and nothing else changes; a buffer too short for it stays as it was |
| `Stats.Take` | xstats/utils.go:7-26 | the field at a place is read, and 0 from a buffer too short for it |
| `Stats.PutCounters` | xstats/utils.go:35-42 | both counters land at the front and the rest stays; an empty buffer is replaced by a new one |
| `Stats.TakeCounters` | xstats/utils.go:60-67 | both counters read back, 0 from a short buffer |
| `Stats.AddInPlace` | xstats/utils.go:83-89 | the buffer is updated in place as the value function says, a new one made for an empty buffer, any buffer returned as it is when nothing is added |
| `Stats.ToValue` | xstats/service.go:74-101 | the moving cursor lays out counters, time, length and data |
| `Stats.ReportIsFair` | xstats/service.go:116-125 | a report adds its delta to the counter whether it inserts a value or changes one |
| `Stats.TrafficConserved` | xstats/service.go:116-141 | for each session and each direction, what was flushed plus what is cached equals what was reported, modulo 2^64, over every interleaving of reports and bucket flushes in which no report loses a value |
| `TrafficRuns.QuietIsLossfree` | xstats/service.go:116-141 | no report loses a value if values fit, session ids do not share a hash and no insert makes its bucket wrap; a flush puts a bucket back on its first lap |
| `TrafficRuns.TrafficConservedUnlessWrapped` | xstats/service.go:116-141 | so the balance holds over every such run |
| `TrafficRuns.LightIsLossfree` | xstats/service.go:116-141 | the same read off the reports alone: sessions new to a bucket since its last flush take at most half of its bytes |
| `TrafficRuns.TrafficConservedWithinSize` | xstats/service.go:116-141 | so the balance holds over every such run, with reports between the bucket rounds of a flush |
| `SessionReports.SessionHeld` | xstats/service.go:116-125 | over every run that loses nothing, the cache holds for each session the data and time of the report that opened it since its bucket's last flush, and the sums since modulo 2^64 |
| `SessionReports.FlushReports` | xstats/service.go:47-141 | over every run that loses nothing, a flush of a bucket reports exactly its open sessions, each once, and each parses to that data, that time, the time since, and those sums |
| `Pipe.StepShaped` | xpipe/pipe.go:47-197 | every step keeps at most one lock holder, the buffer bound and exact waiter counts |
| `PipeRuns.StepFifo` | xpipe/pipe.go:66-107 | every step keeps: bytes delivered, then the buffer, are the bytes accepted in lock order |
| `PipeRuns.StepReports` | xpipe/pipe.go:47-113 | every step keeps the reports sound: a read fails on data only at its deadline, a write without error wrote everything |
| `PipeRuns.StepLog` | xpipe/pipe.go:76-113 | every step keeps: the bytes accepted from a writer are the prefixes its writes report, in its order |
| `PipeRuns.StepReads` | xpipe/pipe.go:66-74 | every step keeps: readers were handed exactly the delivered bytes |
| `PipeWakeup.StepAwake` | xsync/waiter.go:20-51 | with one waiter per condition, a waiter that could go on has a token pending or a sender on its way, before the select and blocked in it |
| `PipeTheorems.PipeConserves` | xpipe/pipe.go:47-113 | for any number of threads in any interleaving: bound, FIFO, readers' and writers' logs and reports all hold |
| `PipeTheorems.NoLostWakeup` | xsync/waiter.go:20-51 | on every run where no two threads wait on one condition, no wake-up is lost |
| `PipeTheorems.OneReaderOneWriterWakes` | xpipe/pipe.go:47-197 | with at most one thread that may read, one that may write and any number of closers and deadline setters that condition always holds |
| `PipeTheorems.HolderMoves` | xpipe/pipe.go:47-197 | whoever holds the lock has a step to take |
| `PipeTheorems.NeverStuckTogether` | xpipe/pipe.go:47-197 | when everything is blocked, a parked reader faces an empty open pipe and a parked writer a full open one, so never both |
| `PipeTheorems.JobKept` | xpipe/pipe.go:47-197 | a step gives a thread no other job than its own |
| `PipeAnswers.ReadDecides` | xpipe/pipe.go:47-74 | a read at its loop head: as many bytes as it wants and there are, else its deadline, else the end of a closed pipe, else a wait |
| `PipeAnswers.WriteDecides` | xpipe/pipe.go:76-113 | a write at its loop head: done, or the next bytes until it is done or the pipe is full, or its deadline, the end of a closed pipe, or a wait |
| `PipeAnswers.CloseDecides` | xpipe/pipe.go:115-120 | refused on a closed pipe; otherwise the pipe is closed and everybody waiting is due a Signal |
| `PipeAnswers.DeadlineDecides` | xpipe/pipe.go:122-151 | setting a deadline makes every waiter on that side due a Signal and no other |
| `PipeAnswers.WakingDecides` | xpipe/pipe.go:173-197 | back from the wait: a cancelled context closes the pipe and ends the call, a closed pipe ends it, then its deadline; otherwise it goes round again |
| `PipeAnswers.CancelledEnds` | xpipe/pipe.go:182-187 | after the broadcasts of that close the cancelled call ends with its error, or a read with the data there is |
| `PipeAnswers.RefusalDecides` | xpipe/pipe.go:47-85 | a call turned away before the lock: a read only past its deadline, a write also on a closed pipe |
| `PipeAnswers.ErrorsExplained` | xpipe/pipe.go:47-197 | over every run a reported deadline was seen by the very step that returned the call, an end came from a closed pipe, a cancellation from a cancelled context |
| `PipeAnswers.ClosedStays` | xpipe/pipe.go:162-171 | a closed pipe stays closed |
| `PipeAnswers.DeadlineWakes` | xpipe/pipe.go:122-151 | whatever others do, when the setter of a deadline is about to return the one call waiting on that side has left its wait or has a token it will find |
| `PipeLimits.TwoCanLoseAWakeup` | xsync/waiter.go:20-51 | for any two threads that may read, or that may write, and every buffer size: a reachable state where one of them is blocked in the select of a closed pipe with no token and nobody to send one |
| `PipeLimits.WakesIff` | xsync/waiter.go:20-51 | for every buffer size and every choice of who may read and who may write: no run loses a wake-up exactly when at most one may read and at most one may write |
| `Recency.SetIsFound` | xttlmap/ttlmap.go:13-84 | what was stored is in front and is found exactly while its deadline is zero or not yet past |
| `Recency.SetKeepsOthers` | xttlmap/ttlmap.go:60-84 | other entries stay while the key is known or there is room |
| `Recency.GetMembers` | xttlmap/ttlmap.go:93-123 | a lookup removes its entry exactly when that is past its deadline and nothing else, and finds exactly the others |
| `Recency.WithoutMembers` | xttlmap/ttlmap.go:125-132 | a delete removes the key's entry and no other |
| `Recency.SweptMembers` | xttlmap/ttlmap.go:159-169 | a sweep removes exactly the listed keys' entries that are past their deadline at its time |
| `Recency.SweptStep` | xttlmap/ttlmap.go:163-168 | one round of the removal loop, which looks the key up again |
| `TtlMap.KeysOnce` | xttlmap/ttlmap.go:28-36 | a map and a list that agree hold every key once |
| `TtlMap.Find` | xttlmap/ttlmap.go:64 | where the index says a key is, the list holds that key's entry and no other does |
| `TtlMap.TTLMap.constructor` | xttlmap/ttlmap.go:38-45 | a new map is whole and empty |
| `TtlMap.TTLMap.AddToFront` | xttlmap/ttlmap.go:172-182 | the links stay mutually consistent and the node comes first |
| `TtlMap.TTLMap.RemoveNode` | xttlmap/ttlmap.go:184-195 | the links stay mutually consistent and exactly that node leaves |
| `TtlMap.TTLMap.MoveToFront` | xttlmap/ttlmap.go:197-203 | the node comes first, the others keep their order |
| `TtlMap.TTLMap.RemoveOldest` | xttlmap/ttlmap.go:205-210 | the last node leaves index and list; an empty map stays as it is |
| `TtlMap.TTLMap.Resize` | xttlmap/ttlmap.go:47-58 | the oldest entries go until the new size fits |
| `TtlMap.TTLMap.Set` | xttlmap/ttlmap.go:60-91 | the heap structure refines the recency sequence and stays whole; a cleaner is started exactly when due, and only for a new key |
| `TtlMap.TTLMap.MakeRoom` | xttlmap/ttlmap.go:71-73 | the eviction loop keeps exactly the newest maxSize-1 entries |
| `TtlMap.TTLMap.EvictFor` | xttlmap/ttlmap.go:71-73 | on a whole map, the loop cut off after n rounds: with maxSize below 1 it is still running for every n, otherwise it is done within one round per entry |
| `TtlMap.TTLMap.Get` | xttlmap/ttlmap.go:93-123 | the lookup as one atomic step refines the recency sequence |
| `TtlMap.TTLMap.Delete` | xttlmap/ttlmap.go:125-139 | the key leaves index and list; a cleaner is started exactly when due |
| `TtlMap.TTLMap.Touch` | xttlmap/ttlmap.go:118-120 | moving a node that is still listed keeps index, list and size bound |
| `TtlMap.TTLMap.LateTouch` | xttlmap/ttlmap.go:118-120 | moving a node that has left makes the list start with a node the index does not know |
| `TtlMap.LookupAcrossDelete` | xttlmap/ttlmap.go:93-132 | a store, then a lookup with a delete of the key in its lock gap, leaves an empty index and such a list |
| `TtlGap.Play` | xttlmap/ttlmap.go:47-170 | for every sequence of critical sections, lookups cut in two: the map stays whole and is the recency sequence of its sections exactly when no second half comes after its key has left, and the first that does breaks it |
| `TtlGap.LateIff` | xttlmap/ttlmap.go:93-123 | a second half comes too late exactly when its key was missing at some moment since the first half |
| `TtlGap.Follows` | xttlmap/ttlmap.go:60-139 | through every section a node stays listed exactly as long as its key is stored |
| `TtlGap.LateMoveAfterDeletes` | xttlmap/ttlmap.go:93-203 | a late move can put a node that has left at the end of the list of a map that holds a key |
| `TtlGap.EvictionStuck` | xttlmap/ttlmap.go:71-73 | from there two stores leave the eviction loop running for any number of rounds, with maxSize 2, two keys indexed and an empty list |
| `TtlMap.TTLMap.ValidHeadStored` | xttlmap/ttlmap.go:28-36 | a whole map never looks like that |
| `TtlMap.TTLMap.Snapshot` | xttlmap/ttlmap.go:148-157 | the first cleanup phase lists exactly the keys expired at its time |
| `TtlMap.TTLMap.Sweep` | xttlmap/ttlmap.go:159-169 | the second phase refines the sweep of the recency sequence |
| `TtlRuns.StepKeeps` | xttlmap/ttlmap.go:47-170 | every operation and every cleaner step keeps keys unique, the size bound, and one cleaner exactly while the flag is up |
| `TtlRuns.MostRecentFirst` | xttlmap/ttlmap.go:60-123 | after every run the list is in the order of last use, read off the run's own history |
| `TtlRuns.EvictsLeastRecent` | xttlmap/ttlmap.go:71-73 | a key evicted by a store was last used before every key that stays, and the map is full afterwards |
| `TtlRuns.ResizeEvictsLeastRecent` | xttlmap/ttlmap.go:47-58 | a key evicted by shrinking the map was last used before every key that stays, and the map has its new size |
| `TtlRuns.HoldsLastSet` | xttlmap/ttlmap.go:60-139 | whatever is stored under a key is what was last stored under it |
| `TtlRuns.GetFindsLastSet` | xttlmap/ttlmap.go:93-139 | a lookup that finds a value finds the last one stored, not deleted since and not past its deadline |
| `TtlRuns.FoundUntilDriven` | xttlmap/ttlmap.go:60-170 | after every run what was stored is found exactly up to its deadline, until its key is stored again or deleted, it is looked up or swept past its deadline, or the map is too full |
| `TtlRuns.WithinLastMax` | xttlmap/ttlmap.go:47-58 | after every run the map holds no more than the size it was last given |
| `TtlRuns.CleanerStarts` | xttlmap/ttlmap.go:86-139 | a store of a new key and a delete start a cleaner exactly when none is at work and the last was started more than a second before; nothing else does |
| `TtlRuns.CleanupRemovesOnlyExpired` | xttlmap/ttlmap.go:141-170 | with any operations of others between its phases, a cleanup drops exactly the stored entries past their deadline at its own time whose key it had listed |
| `TtlRuns.OneCleaner` | xttlmap/ttlmap.go:86-90 | in every run at most one cleaner is at work, exactly while the flag is up |
| `TtlRuns.EvictionEnds` | xttlmap/ttlmap.go:71-73 | on a whole map, some number of rounds brings the list below maxSize exactly when maxSize is at least 1 |
| `CachedDns.CachedResolver.Lookup` | xdns/client/cached.go:62-78 | an answer not past its expiry is served without the nested resolver, else the nested answer, else the cached one; each with what the cache then holds |
| `CachedDns.CachedResolver.CacheResult` | xdns/client/cached.go:88-107 | the entry filed carries the clamped expiry and the keep-until deadline |
| `CachedDns.CachedResolver.Preset` | xdns/client/cached.go:80-86 | no answer deletes the entry, an answer is filed |
| `CachedDns.CapHoldsIff` | xdns/client/cached.go:94-101 | the clamped expiry is within maxTtl for all answers exactly for ordered bounds below the largest duration |
| `CachedDns.CappedIs` | xdns/client/cached.go:94-101 | the expiry is moved into the configured bounds, and only if it lies outside them |
| `CachedDns.FreshHitIsRecent` | xdns/client/cached.go:62-107 | over every run of the map, a fresh hit with an expiry was filed for the same key at most maxTtl before, and one without an expiry was filed without |
| `CachedDns.FallbackIsKept` | xdns/client/cached.go:71-74 | over every run, whatever is found was filed at most keepTime before it was looked up, or without expiry |
| `CachedDns.FoundWhileKept` | xdns/client/cached.go:62-107 | over every run, as long as its entry is there, an answer is found exactly up to keepTime after it was filed, or for ever without expiry |
| `Labels.JoinSplit` | xdns/server/dnsbase/nextdns.go:16-42 | joining the pieces of a text gives the text |
| `Labels.SplitJoinIff` | xdns/server/dnsbase/nextdns.go:16-42 | cutting undoes joining exactly when no piece holds the separator |
| `DomainBase.CategoriesRoundTrip` | xdns/server/dnsbase/nextdns.go:16-42 | categories read back as written exactly when comma-free and not one blank |
| `DomainBase.ChildReadsBack` | xdns/server/dnsbase/nextdns.go:65-67 | a row is a child exactly when its categories read back non-empty |
| `DomainTable.IdInjective` | xdns/server/dnsbase/nextdns.go:203-212 | two names with the same row id are the same name |
| `DomainTable.InsertView` | xdns/server/dnsbase/nextdns.go:175-182 | a new row adds its own node and changes no other |
| `DomainTable.RecatView` | xdns/server/dnsbase/nextdns.go:184-201 | an update by id changes the categories of one node |
| `DomainTable.AffectsOne` | xdns/server/dnsbase/nextdns.go:184-201 | the id is not 0 and one row is affected, so neither panic nor row-count error is reached |
| `DomainTable.GrownView` | xdns/server/dnsbase/nextdns.go:270-300 | walking down a path adds exactly the missing nodes on it, without categories |
| `DomainBase.Validate` | xdns/server/dnsbase/nextdns.go:231-243 | accepts exactly two or more labels with a star at most in front |
| `DomainBase.WrittenView` | xdns/server/dnsbase/nextdns.go:245-310 | what every node shows after a write |
| `DomainBase.Writer.Walk` | xdns/server/dnsbase/nextdns.go:270-300 | the descent of the loop, row by row |
| `DomainBase.Writer.Leaf` | xdns/server/dnsbase/nextdns.go:294-306 | the last label: refused if it carries categories, else added or taken over |
| `DomainBase.Writer.Write` | xdns/server/dnsbase/nextdns.go:245-310 | when each error is reported; a failed write leaves the table as it was, a successful one writes the path |
| `DomainLookup.MissingBelow` | xdns/server/dnsbase/nextdns.go:105-119 | below a missing node there is no node and no wildcard, so stopping there loses nothing |
| `DomainLookup.Lookup` | xdns/server/dnsbase/nextdns.go:86-135 | the loop finds the node's own rule, or the nearest wildcard above, or the error the code gives |
| `DomainRules.BestIsLongest` | xdns/server/dnsbase/nextdns.go:104-119 | the wildcard chosen is the one for the longest suffix that has one |
| `DomainRules.TargetIsMatch` | xdns/server/dnsbase/nextdns.go:86-135 | on a table that represents a rule set, lookup and declarative matching agree for every name |
| `DomainRules.WriteRepresents` | xdns/server/dnsbase/nextdns.go:245-310 | writing a rule into the table is adding it to the rule set |
| `DomainRules.RunRepresents` | xdns/server/dnsbase/nextdns.go:245-310 | after any writes, accepted or refused, the table represents the accepted rules |
| `DomainRules.LookupMatches` | xdns/server/dnsbase/nextdns.go:86-135 | after any writes, every lookup succeeds exactly when a rule matches declaratively, and returns that rule's categories |
| `DomainRules.WriteAnswers` | xdns/server/dnsbase/nextdns.go:231-310 | after any writes, a write is refused exactly for its form, for want of categories, or because its domain has a rule |
| `DomainRules.FailedLookups` | xdns/server/dnsbase/nextdns.go:86-135 | after any writes, a lookup that fails says whether the name is too short, stored without a rule, or unknown |
| `DomainRules.PartsJoin` | xdns/server/dnsbase/nextdns.go:331-336 | the labels of a name are its pieces between dots, one trailing dot aside |
| `DomainRules.AllAcceptedIff` | xdns/server/dnsbase/nextdns.go:231-310 | writes are all accepted exactly when each is well formed with categories and no domain comes twice |
| `DomainRules.OrderIrrelevant` | xdns/server/dnsbase/nextdns.go:245-310 | any reordering of accepted writes is accepted and leaves the same rules and the same answers |
| `DomainRules.TrailingDot` | xdns/server/dnsbase/nextdns.go:331-336 | one trailing dot makes no difference to a lookup |
| `RingList.Element.Next` | list/list.go:31-36 | the next element of its list, or nil at the end and outside any list |
| `RingList.Element.Prev` | list/list.go:39-44 | the previous element of its list, or nil at the front and outside any list |
| `RingList.Unlink` | list/list.go:108-110 | joining the neighbours leaves the ring of the other elements |
| `RingList.LinkAfter` | list/list.go:92-96 | four link updates put the element behind a place of the ring |
| `RingList.Relink` | list/list.go:122-128 | taking an element out and putting it back behind a place leaves the ring of the moved sequence |
| `RingList.List.Front` | list/list.go:68-74 | the first element, or nil |
| `RingList.List.Back` | list/list.go:76-82 | the last element, or nil |
| `RingList.List.LazyInit` | list/list.go:84-89 | a zero list becomes an empty ring |
| `RingList.List.Insert` | list/list.go:92-100 | the element is inserted behind its place and claims the list |
| `RingList.List.RemoveElement` | list/list.go:108-115 | exactly that element leaves and no longer claims the list |
| `RingList.List.Move` | list/list.go:118-129 | the element goes behind its new place, the others keep their order |
| `RingList.List.Remove` | list/list.go:134-141 | removes an own element; a foreign or removed one changes nothing |
| `RingList.List.PushFront` | list/list.go:144-147 | a new first element |
| `RingList.List.PushBack` | list/list.go:150-153 | a new last element |
| `RingList.List.InsertBefore` | list/list.go:158-164 | before an own mark; a foreign one changes nothing |
| `RingList.List.InsertAfter` | list/list.go:169-175 | behind an own mark; a foreign one changes nothing |
| `RingList.List.MoveToFront` | list/list.go:180-186 | an own element comes first; a foreign or removed one changes nothing |
| `RingList.List.MoveToBack` | list/list.go:191-197 | an own element comes last; a foreign or removed one changes nothing |
| `RingList.List.MoveBefore` | list/list.go:202-207 | before an own mark; anything else changes nothing |
| `RingList.List.MoveAfter` | list/list.go:212-217 | behind an own mark; anything else changes nothing |
| `RingList.List.PushBackList` | list/list.go:221-226 | the values of the other list are appended; the list itself is exactly doubled |
| `RingList.List.PushFrontList` | list/list.go:230-235 | the values of the other list are prepended; the list itself is exactly doubled |
| `LastActive.LastActiveResolver.Add` | xdns/client/lastactive.go:35-55 | replaces, refuses or appends by tag, on the ring |
| `LastActive.LastActiveResolver.Unset` | xdns/client/lastactive.go:57-70 | removes the tag's entry, or reports that there is none |
| `LastActive.LastActiveResolver.Scan` | xdns/client/lastactive.go:72-84 | the read-locked scan finds the first resolver that answers, in list order |
| `LastActive.LastActiveResolver.MoveStep` | xdns/client/lastactive.go:86-88 | the write-locked move promotes an element that is still there and changes nothing otherwise |
| `LastActive.CallEffects` | xdns/client/lastactive.go:35-95 | a known tag keeps its place and gets the new resolver exactly when that is asked for; a removed one leaves its place; a scan remembers its entry and the move brings it to the front |
| `LastActive.CallOnAbsent` | xdns/client/lastactive.go:35-95 | a new tag is registered at the end; removing an unknown tag or moving an entry that has left changes nothing |
| `LastActive.AlwaysSound` | xdns/client/lastactive.go:35-95 | for every interleaving with the lock gap, tags stay unique and elements are each in the list once |
| `LastActive.NoResurrection` | xdns/client/lastactive.go:72-95 | a pending move never brings a removed entry back |
| `Ipv4.WordRoundTrip` | xnet/ip.go:84-107 | a word survives conversion to an address and back |
| `Ipv4.QuadRoundTrip` | xnet/ip.go:84-107 | the shifted and joined bytes are the base-256 number, and an address survives conversion to a word and back |
| `Ipv4.ToUint32` | xnet/ip.go:84-90 | the number the four bytes write |
| `Ipv4.Uint32ToIp` | xnet/ip.go:99-107 | the bytes that write the number |
| `Ipv4.Filled` | xnet/ip.go:109-119 | for every mask, setting all bits outside it gives the masked address plus the mask's complement |
| `Ipv4.NetworkEnds` | xnet/ip.go:109-119 | for every mask both ends fit a word; for a mask of ones followed by zeros they are the ends of the block |
| `Ipv4.EndsDoNotWrap` | xnet/ip.go:121-140 | the byte step at either end of a block of four or more does not wrap |
| `Ipv4.NetworkAddr` | xnet/ip.go:109-113 | for every mask the masked address; for a prefix mask the first address of the block |
| `Ipv4.BroadcastAddr` | xnet/ip.go:114-119 | for every mask the last address that agrees under it; for a prefix mask the last of the block |
| `Ipv4.FirstUsable` | xnet/ip.go:121-129 | the network address with its last byte stepped up, wrapping; for a prefix mask of up to 30 ones the second address of the block |
| `Ipv4.LastUsable` | xnet/ip.go:131-140 | the broadcast address with its last byte stepped down, wrapping; for a prefix mask of up to 30 ones the last but one |
| `Ipv4Pool.Pool.FromSubnet` | ippool/poolv4.go:37-61 | refusals, and for every mask the pool between the usable ends with the server's address in use; for a prefix mask of n ones that is 2^(32-n)-2 addresses |
| `Ipv4Pool.Pool.Free` | ippool/internal.go:34-50 | never negative, so the broken-pool exit is unreachable |
| `Ipv4Pool.Pool.Scan` | ippool/poolv4.go:89-108 | the loop with its wrap flag is the bounded search round the range |
| `Ipv4Pool.SearchMeaning` | ippool/poolv4.go:89-108 | the search returns a free address nearer than any other free one, or all within reach are in use |
| `Ipv4Pool.FirstFreeIff` | ippool/poolv4.go:89-108 | from every random start an address is found exactly when one is free |
| `Ipv4Pool.AnyCanBeGranted` | ippool/poolv4.go:89-126 | for every free address there is a random number for which the allocation grants it |
| `Ipv4Pool.Pool.GetUnused` | ippool/poolv4.go:89-108 | from any random start, the first free address in cyclic order; the fatal exit exactly when all are in use |
| `Ipv4Pool.Pool.Alloc` | ippool/poolv4.go:110-126 | result and new used set are those of the call on the used set; fails exactly when the pool is full |
| `Ipv4Pool.Pool.Available` | ippool/poolv4.go:202-214 | the same without granting |
| `Ipv4Pool.Pool.Set` | ippool/poolv4.go:128-156 | when each error is reported, and the address registered otherwise, as the call on the used set |
| `Ipv4Pool.Pool.Unset` | ippool/poolv4.go:158-181 | when each error is reported, and the address released otherwise, as the call on the used set |
| `Ipv4Pool.Pool.IsAvailable` | ippool/poolv4.go:184-199 | true exactly for in-range addresses not in use |
| `Ipv4Pool.Pool.Shutdown` | ippool/poolv4.go:70-77 | stopped, with only the server's address in use |
| `Ipv4Pool.OutIsUsed` | ippool/poolv4.go:110-181 | over every sequence of calls, an address is in use exactly when the replies so far say it is out, and only in range |
| `Ipv4Pool.NeverTwice` | ippool/poolv4.go:110-181 | over every sequence of calls and random numbers, an allocation never reports an address that is out, and fails exactly when all are out |
| `Ipv4Pool.RegisteredOnce` | ippool/poolv4.go:128-181 | over every sequence of calls: registering fails exactly out of range or when the address is out, releasing exactly when it is not, each with its error |
| `Ipv4Pool.AllocSucceedsIff` | ippool/poolv4.go:110-126 | for every sequence of random numbers the k-th allocation on a fresh range succeeds exactly while k is below its size less one |
| `Ipv4Pool.AllocsDistinct` | ippool/poolv4.go:110-126 | and no two of them report the same address |
| `Ipv4Pool.Populate` | ippool/poolv4.go:37-126 | on the pool made from a /n, for every sequence of random numbers: the first 2^(32-n)-3 allocations succeed with pairwise different addresses of the block, and every later one fails for lack of space |
| `Limiter.Blocker.Take` | xlimits/blocker.go:30-45 | the id's consumer, made if missing, counts one more user |
| `Limiter.Blocker.Put` | xlimits/blocker.go:47-61 | one user less, and the id dropped with the last |
| `Limiter.Blocker.Acquire` | xlimits/blocker.go:63-72 | a permit taken, or the user count taken back |
| `Limiter.Blocker.Release` | xlimits/blocker.go:74-77 | a permit given back and the user count with it |
| `LimiterRuns.StepKeeps` | xlimits/blocker.go:30-77 | every step of every thread keeps consumers shared, counts exact and permits bounded |
| `LimiterRuns.AtMostMax` | xlimits/blocker.go:63-77 | in every run at most maxConn threads hold an id, however often its consumer was dropped and remade |
| `LimiterRuns.MayAcquireIff` | xlimits/blocker.go:63-77 | in every run a waiting thread may go on exactly while fewer than maxConn hold its id; it may always give up, and a holder may always release |
| `LimiterRuns.OneConsumer` | xlimits/blocker.go:30-61 | threads on one id share one consumer, its usage is their number, and the id is stored only while there are any |
| `LimiterRuns.ExitsAreSafe` | xlimits/blocker.go:47-61 | a put finds its consumer and a release finds a permit out |
| `Shaper.TimeBucket.constructor` | shaper/shaper.go:17-27 | the burst in nanoseconds, rounded down to milliseconds |
| `Shaper.TimeBucket.Shape` | shaper/shaper.go:29-56 | the new depth, who is admitted, and when |
| `Shaper.WindowCost` | shaper/shaper.go:29-56 | any window of calls that ends in an admitted one costs at most the time it takes plus the burst, cancelled calls included |
| `Shaper.RateBound` | shaper/shaper.go:17-56 | so its bytes stay below kiBps times (elapsed + burst + one microsecond a call), despite truncating division |
| `Shaper.RateBoundInKiB` | shaper/shaper.go:17-56 | the same in the caller's own burst figure, which adds at most a thousand bytes for each KiB |
| `Shaper.AtOnceIff` | shaper/shaper.go:37-46 | a call goes without waiting exactly when every window ending with it fits |
| `Shaper.GoesAtOnce` | shaper/shaper.go:29-46 | in bytes: a call goes without waiting if every window ending with it carries fewer bytes than the speed allows in its time and the burst |
| `Shaper.MustWait` | shaper/shaper.go:29-56 | and it waits if some window carries more than that and a microsecond a call |
| `Shaper.BurstExact` | shaper/shaper.go:17-27 | the burst is what the caller's KiB take at that speed, to the millisecond |

## Left out

- BucketObject.Bucket.Mutate: the mutator writes only inside the value it was handed. The slice has spare capacity up to the end of its chunk, so a mutator that appends to it would overwrite the records behind; `xstats` does not.
- BucketObject.Bucket.Update: the same mutators, which return a buffer of their own when they ask for a store.
- CacheRuns.LookupIsLastWrite: the 512 buckets are values routed by hash; the object model is one bucket, because routing adds nothing to it.
- TrafficRuns.LightIsLossfree: half of a bucket's bytes is enough, not necessary; the exact guard for one report is `CacheUpsert.LosslessIff`. The flush rounds of a run hand out what their buckets show, as `CacheRuns.HandsOutShare` proves of the code's rounds.
- Stats.AddInPlace: a buffer of 1 to 15 bytes with something to add, on which the code panics for lack of room for two counters, is outside it; `ToValue` makes none.
- Stats.TrafficConserved: the session data is an opaque byte string of less than 65536 bytes; JSON and UUID codecs are not modelled, nor is the goroutine that calls `onEvict`.
- PipeTheorems.OneReaderOneWriterWakes: the guarantee is for at most one reader and one writer, because `PipeLimits.WakesIff` shows it false otherwise.
- Pipe deadlines: that a deadline has passed is an input of each step; no timer wakes a blocked call, so there is no timing guarantee to state.
- TtlMap.TTLMap.Get: one atomic step; `TtlGap.Play` has the two halves apart.
- TtlMap.TTLMap.EvictFor: on whole maps, because on the others the loop may not end (`TtlGap.EvictionStuck`); `TtlGap.Play` says when a map is whole.
- TtlRuns.EvictionEnds: speaks of the list of a whole map.
- BucketObject.Bucket.Get: copies; what holds of the slice an uncopied lookup leaves with its caller is in `CacheSlices`, up to the reset of its bucket, after which the chunk is recycled and nothing is promised.
- TtlMap.TTLMap.Set: demands a size of at least 1 for a new key, and `TtlMap.TTLMap.Resize` no shrinking below 0, because the code does not return otherwise.
- CachedDns.FallbackIsKept: assumes the clock is more than the largest duration, 292 years, past the zero time, so that adding a duration to it is never the zero time.
- CachedDns.CachedResolver.Lookup: runs alone; concurrent lookups interleave as map operations in `CachedDns.FreshHitIsRecent` and `CachedDns.FallbackIsKept`.
- DomainRules.LookupMatches: says nothing about the `Parent` field of a result. SQL failures other than missing rows, and `writer.Delete`, which may orphan a subtree, are not modelled. An empty domain, on which the code panics, is outside `DomainBase.Writer.Write`.
- RingList.List: `Init` on a non-empty list is not modelled, because it leaves the old elements claiming membership.
- Ipv4Pool.Pool.FromSubnet: demands only that the number of ones is the one Go's `net.IPMask.Size` reports for the mask.
- Ipv4Pool.Pool.Alloc: a stopped pool ends the process, so `running` is demanded where the code checks it.
- Limiter.Blocker.Acquire: alone, as one step, with the outcome of waiting a parameter; `LimiterRuns` splits it and proves the permit bound.
- LimiterRuns.AtMostMax: the semaphore is a counter with a bound; the order in which waiters are served is not modelled, and each holder releases once, with its own id and consumer.
- Shaper.TimeBucket.Shape: lengths are not negative, overflow of the shift by ten is not modelled, and neither is the call on a nil bucket, which always admits.
- Chunk recycling by mmap and free lists, xxhash, SQLite and the logging library are not modelled.
- Resolvers by priority, packet filters and traffic control, human-readable sizes, authentication, HTTP, key storage and the smaller counters and maps are not modelled; most would only add easy members.

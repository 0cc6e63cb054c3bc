# subidx, verified

subidx collects host names from Certificate Transparency logs and serves them. This
project models the parts of it whose correctness is not obvious from reading one
function, and proves what they promise together:

- **Merkle** (`Merkle.dfy`): the iterative audit-path verifier against the recursive tree
  hash and audit path of sections 2.1 and 2.1.1 of RFC 6962. SHA-256 is any function to
  32-byte digests. Soundness never assumes that collisions do not exist; it says that one
  was met, between an input hashed in building the tree and a different input hashed by
  the verifier.
- **The store** (`StoreModel`, `StoreInvariants`, `StoreRefinement`, `StoreRuns`,
  `StoreCounters`, `StoreCounts`, `StoreTotals`, `StoreDates`, `Store`): the single-writer
  ingest loop with its open batch and caches, as functions on a state value and as a class whose
  methods equal those functions. A run is any sequence of sends, deliveries, timer flushes,
  closes, stops, crashes, and crashes between the commits of a recount.
- **Bytes** (`Bytes`, `Keys`, `ByteRuns`): key spaces, value codecs and scan ranges; a
  byte-level batch commit is the typed commit of the store model, on the store's own runs.
- **Reads** (`Heaps`, `Scans`, `TopCounters`, `Cursor`): the bounded heap scans, the busiest
  apexes, the change poll, and the cursor over whole runs.
- **Tailers** (`Tailer`, `TailedStore`): fetching in verified windows, and tailers composed
  with the store.
- **Live feed** (`Feed`, `Live`, `LiveFeed`, `LiveFeedRuns`): the hub and one subscriber's
  stream as two sides of a protocol in which every access to the channel and the flag is a
  step; the page that combines stream and polls; and all of them together with the store.
- **Limiter** (`Limiter`), **parsers** (`Wire`, `Ndjson`) and the **CSV export** (`Csv`).

Where a function is shared by a method and by what is proved of it, a further lemma says
what it computes without naming it: in bytes for the formats and hashes, in terms of the
operations for the plain store, in terms of the admissions for the limiter.

`dafny verify dfyconfig.toml` checks everything.

## Where the code differs from its description

The model follows the code. Six places differ from what the comments or the
documentation say; each has its input and its exact condition.

- *"Duplicates keep only the earliest date"* (README.md:48). Within one batching window
  the cache keeps the old date, so 10, then 3, then 7 is stored as 7
  (`StoreDates.EarliestIsLost`). A window stores the last ingested date below the date it
  began with, on every run; that is the earliest if and only if the window ingested no date
  below it (`StoreDates.CommittedDates`). A single ingest keeps the earliest date if and
  only if its date is not strictly between the merged date and the cached one
  (`StoreRefinement.DateSafeIff`).
- *The total.* A flush forgets the new names of its window, so a second window writes a
  total that is too small (`StoreCounters.TotalUnderReports`). The total is right if and only
  if it was right at the last open or recount and at most one window since then had new
  names (`StoreTotals.TotalExactIff`).
- *Counters during shutdown.* Once `closed` is set an uncached counter reads as zero, so a
  new name handled by the final drain resets its apex to one
  (`StoreCounters.ShutdownMiscounts`). An apex's counter is right if and only if it was right
  at the start, or has been recounted, and no committed new name since has missed it
  (`StoreCounts.CounterExactIff`).
- *"Slow consumers get a resync event instead of silent gaps"* (README.md:97). No later event
  is written before a dropped one's resync (`Feed.NoSilentGap`), but a drop can be followed by
  nothing at all: the handler may drain the buffer between the hub's failing send and its
  store of the flag (`Feed.SilentDrop`). A drained handler has the flag clear, and then has
  announced every drop, if and only if it has been woken since the last store
  (`Feed.DrainedIff`); otherwise it is silent until the next matching broadcast
  (`Feed.SilentUntilOffer`), which brings the resync (`Feed.OfferAnnounces`).
- *The same promise, on the page.* The hook runs before the commit, so the poll that a resync
  prompts can come too early (`LiveFeedRuns.ResyncComesTooEarly`), and a resync that is read
  while a catch-up is in flight prompts none (`LiveFeedRuns.ResyncIsIgnored`). A dropped name
  is on the page once a poll's answer is applied if and only if it was committed when the
  poll was answered (`LiveFeed.DroppedIsShownIff`).
- *"Cover the gap between the search snapshot and the stream opening"*
  (frontend/src/App.svelte:214). A search of an apex without records yields no cursor, and
  without one a catch-up does nothing, so such a page only ever shows what the stream brings
  (`Live.NoCursorNoCatchUp`); with a cursor every catch-up completes the page
  (`Live.SessionStaysComplete`).

The first three take a `Repairs` argument in the store model. `AsWritten` is the code; with
a repair switched on, the exact statement is proved on every run
(`StoreRuns.RepairedDatesExact`, `StoreCounters.RepairedCountersExact`). What is said of the
code as written alone is in `StoreDates` and `StoreTotals`; everything else about the store is
proved for all settings.

## Model

| member | source | states |
|---|---|---|
| Merkle.VerifyInclusion | internal/rfc6962/merkle.go:32-73 | the verdict of the bit-shifting loop, with its error order, is that of climbing the top-down tree's path |
| Merkle.TwoLeaves | internal/rfc6962/merkle.go:19-26 | for any hash, a tree of two leaves in bytes: which roots are accepted for either leaf |
| Merkle.ThreeLeaves | internal/rfc6962/merkle.go:48-65 | the same for three leaves, the third promoted |
| Merkle.TreeHashInBytes | internal/rfc6962/merkle.go:19-26 | the tree hash of section 2.1 of RFC 6962 with its prefixes, order and split spelled out |
| Merkle.ErrorsInOrder | internal/rfc6962/merkle.go:33-72 | for each error the exact condition under which it is the one reported |
| Merkle.StepsAreTurns | internal/rfc6962/merkle.go:48-65 | the loop's left/right turns, promoted right-edge nodes included, are those of splitting at the largest power of two |
| Merkle.Completeness | internal/rfc6962/merkle.go:45-72 | every honest path is accepted, for every tree and leaf |
| Merkle.Soundness | internal/rfc6962/merkle.go:27-73 | whatever is accepted, at any path length, is leaf i with the honest path, or tree and verifier hashed different inputs to one digest |
| Merkle.TreeInputsAre | internal/rfc6962/merkle.go:19-26 | the tree's side of a collision is a leaf behind 0x00 or two neighbouring subtrees behind 0x01 |
| Merkle.ClimbInputsAre | internal/rfc6962/merkle.go:48-65 | the verifier's side is a path node and what it has climbed to, behind 0x01 |
| Merkle.OverlongNeverHonest | internal/rfc6962/merkle.go:48-68 | an accepted path longer than the honest one always exhibits such a collision |
| Merkle.PathLengthLaw | internal/rfc6962/merkle.go:48-68 | sn reaches zero after exactly the honest path's length, at most log2 of the size rounded up; shorter paths are rejected |
| Tailer.SpotCheck | internal/tailer/tailer.go:224-238 | passes exactly if the log returned a proof for the drawn leaf that verifies against the signed head |
| Tailer.SpotCheckSound | internal/tailer/tailer.go:169-177 | an entry that passes is the tree's leaf at the proof's index, or a collision was met |
| Tailer.EarliestDate | internal/tailer/tailer.go:185-190 | the SCT loop computes the date function |
| Tailer.DateIsEarliest | internal/tailer/tailer.go:185-194 | that date is the least positive timestamp of entry and SCTs, zero if none |
| Tailer.IngestNames | internal/tailer/tailer.go:195-207 | one operation for each name that resolves, in the order of the names: its key, the date, source 1; as many as the store accepts |
| Tailer.EntryStandsFor | internal/tailer/tailer.go:178-207 | an entry stands for a record of every name that resolves, if it is decodable and has a positive date, and else for none |
| Tailer.IngestWindow | internal/tailer/tailer.go:178-208 | all records of the window's entries are sent in order, or exactly as many as the store accepts; it ends normally if and only if they all fit |
| Tailer.FetchRange | internal/tailer/tailer.go:151-220 | terminates; 0 <= total <= to-from; the iteration and the reason it ends with, and what was sent by then, are those the answers determine; only entries of batches whose drawn leaf was proven are sent; all entries below from+total are |
| Tailer.RequestIs | internal/tailer/tailer.go:158-162 | each request begins at the position and ends a window later or with the range |
| Tailer.FetchCompletes | internal/tailer/tailer.go:151-220 | a range all of whose batches are answered, proven and accepted is fetched to its end |
| Tailer.SentIsSigned | internal/tailer/tailer.go:169-177 | whatever is sent comes from a batch that holds a leaf of the signed tree, or a collision was met |
| Tailer.TailTurn | internal/tailer/tailer.go:127-144 | a turn with something to fetch does all that fetchRange does for its target, and sends the new watermark after the data it covers; otherwise nothing |
| Tailer.TargetIsLesser | internal/tailer/tailer.go:127-130 | the target never exceeds the signed tree nor the drain target, and is one of them |
| Tailer.TurnReachesTarget | internal/tailer/tailer.go:131-139 | a turn whose batches are all answered, proven and accepted reaches its target |
| Tailer.Registry.Sync | internal/tailer/tailer.go:35-59 | one tailer per eligible log, never two |
| Tailer.EligibleStates | internal/tailer/tailer.go:42-48 | which kinds and states of logs get a tailer, with and without the drain flag |
| TailedStore.TurnIsAct | internal/tailer/tailer.go:127-144 | what a turn of the tailer promises is an act of the composed world |
| TailedStore.WatermarkCovers | internal/store/store.go:279-284 | in every reachable database a watermark covers every record of every entry below it, through short reads, failures, shutdowns and crashes |
| TailedStore.NamesAreStored | internal/store/store.go:279-284 | so every resolving name of every decodable, dated entry below a stored watermark has its record |
| TailedStore.WatermarksNeverFall | internal/store/store.go:139-144 | no durable watermark ever falls, although the high-water cache starts empty on open |
| StoreLoop.Store.constructor | internal/store/store.go:81-104 | opening reads sequence counter and total and starts with empty caches |
| StoreLoop.Store.StageMeta | internal/store/store.go:115-126 | the loop over pending watermarks stages each with the sequence counter |
| StoreLoop.Store.FlushBatch | internal/store/store.go:111-137 | the new state is the model's flush; one commit, or none when idle |
| StoreLoop.Store.CountPending | internal/store/store.go:257-273 | the cached, stored or (closed) zero counter, which stays cached |
| StoreLoop.Store.InsertRecord | internal/store/store.go:225-247 | caches, batch, total and hook call of a new record |
| StoreLoop.Store.ApplyRecord | internal/store/store.go:200-255 | the new state is the model's apply |
| StoreLoop.Store.IngestRecord | internal/store/store.go:150-162 | the new state is the model's; one commit at the 512th operation of a window that has something to write, otherwise none |
| StoreLoop.Store.HandleOp | internal/store/store.go:138-163 | the new state is the model's handler; every database committed on the way is named |
| StoreLoop.Store.TimerTick | internal/store/store.go:183-190 | the new state is the model's timer flush; one commit exactly if something was pending and there was something to write |
| StoreLoop.Store.DrainAndStop | internal/store/store.go:166-180 | the queued operations are handled in order, then flushed; the commits are those of the operations in order, then the flush's |
| StoreLoop.Store.CountRecords | internal/store/store.go:537-556 | the scan counts each apex's records and all records |
| StoreLoop.Store.WriteCounts | internal/store/store.go:557-571 | counters are written in batches; every database on the way carries some exact counters and is otherwise unchanged |
| StoreLoop.Store.RecountInLoop | internal/store/store.go:527-586 | the new state is the model's recount, and so is every database it commits on its way up to counters not yet written |
| StoreLoop.TracedIsCrash | internal/store/store.go:557-571 | every database on the way of a recount is one that a crash of the run model leaves |
| StoreRuns.CrashRefinement | internal/store/store.go:106-192 | after any run the database is that of a one-operation-at-a-time store run on a prefix of each epoch's channel order |
| StoreRefinement.PlainRecord | internal/store/store.go:200-255 | what that store holds, in terms of its operations: which records, source and number of the first ingest, the least date |
| StoreRefinement.PlainSeq | internal/store/store.go:155 | every ingest counts in the sequence number |
| StoreRefinement.PlainWatermark | internal/store/store.go:139-144 | a log's watermark is the greatest one advanced to in the epoch, if any |
| StoreRuns.OnlyGrows | internal/store/store.go:115-127 | after any moment of any run no record is lost, re-attributed or dated later, and new ones carry larger sequence numbers |
| StoreRuns.NothingHandledIsLost | internal/store/store.go:167-180 | one timer tick or an orderly stop makes everything handled durable |
| StoreDates.FewAreUnsaved | internal/store/store.go:155-161 | of the operations handled since the last commit at most 511 have left a write |
| StoreRuns.RepairedDatesExact | internal/store/store.go:249-254 | with the cache repaired, stored dates are the earliest on every run |
| StoreRefinement.DateSafeIff | internal/store/store.go:249-254 | as written, an ingest keeps the earliest date if and only if its date is not between merged and cached date |
| StoreDates.CommittedDates | internal/store/store.go:200-255 | at every commit of every run a stored date is the last date of its window below the date the window began with, or that date; it is the earliest if and only if the window ingested none below it |
| StoreDates.EarliestIff | internal/store/store.go:249-254 | last-below and earliest agree exactly if no date lies below the former; both are ingested dates or the base |
| StoreDates.DescendingIsEarliest | internal/store/store.go:249-254 | they agree when lowering dates do not increase |
| StoreDates.EarliestIsLost | internal/store/store.go:249-254 | a run that ingests 10, 3 and 7 in one window stores 7 |
| StoreDates.DatesWereIngested | internal/store/store.go:226-228 | on every run each stored date was ingested for its key |
| StoreCounters.NeverOverReports | internal/store/store.go:231-243 | on every run no counter and no total exceeds the records; counters are exact if every insert found its own |
| StoreCounters.CountExactIff | internal/store/store.go:257-273 | an insert keeps exact counters exact if and only if it finds its own |
| StoreCounts.CounterExactIff | internal/store/store.go:257-273 | on every run an apex's counter is exact if and only if it was right at the start, or has been recounted, and no committed new name since was handled after close with a stored but uncached counter |
| StoreCounters.ShutdownMiscounts | internal/store/store.go:257-264 | a run in which a new name is handled after close leaves the counter of an apex with three or more records at one |
| StoreCounters.NoLateInsertIsSafe | internal/store/store.go:477-488 | runs without an insert after close meet that condition throughout |
| StoreTotals.TotalIsLastWindow | internal/store/store.go:238-243 | on every run the total is that at the last open or recount plus the new names of the last window that had any, the records are those then plus the new names of all windows |
| StoreTotals.TotalExactIff | internal/store/store.go:130-133 | from a database that does not over-report, the total is right if and only if it was right at the last open or recount and at most one window since then had new names |
| StoreCounters.TotalUnderReports | internal/store/store.go:130-133 | two inserts in two windows leave the total at one |
| StoreCounters.RepairedCountersExact | internal/store/store.go:231-273 | with flush and counter read repaired, counters and total are exact on every run |
| StoreCounters.RecountAfterRun | internal/store/store.go:490-494 | on every run from a database that does not over-report, recount makes all counters and the total exact and changes no record |
| StoreCounters.RecountExactIff | internal/store/store.go:537-571 | on any database at all, counters become exact if and only if none belongs to an apex without records |
| StoreCounters.RecountAfterCrash | internal/store/store.go:557-579 | a crash between the recount's commits leaves each counter old or exact and the total old; a second recount reaches the database the first would have reached |
| StoreCounters.RecountRepairs | internal/store/store.go:527-586 | from any drift, recount changes no record and makes total (and non-stray counters) exact in database and memory |
| Keys.RecordKeyInjective | internal/store/store.go:622-628 | record keys of NUL-free apexes are distinct |
| Keys.SpacesDisjoint | internal/store/store.go:622-642 | record, count and meta keys never meet |
| Keys.ApexRangeExact | internal/store/store.go:303-307 | the scan range of an apex holds exactly its record keys |
| Keys.RecountCut | internal/store/store.go:540-551 | cutting a record key at its first NUL gives its apex |
| Keys.ValueRoundTrip | internal/store/store.go:653-659 | the 17-byte value gives back date, source and sequence number, negative dates included |
| Keys.KeysInBytes | internal/store/store.go:622-642 | record, count and meta keys in bytes |
| Keys.ValueInBytes | internal/store/store.go:653-659 | the value in bytes: date, source, number, highest byte first |
| Keys.CommitCommutes | internal/store/store.go:228-243 | a batch of byte-level writes represents the typed batch |
| ByteRuns.RunFits | internal/store/store.go:111-163 | on every run of 64-bit operations the batch is valid and every number stays a 64-bit one |
| ByteRuns.FlushInBytes | internal/store/store.go:111-137 | then the bytes of the next flush, watermarks in any order, take a database that represents the durable one to one that represents the flushed one |
| Heaps.RootIsLeast | internal/store/store.go:291-297 | the root of the heap is its least element |
| Heaps.Heap.Push | internal/store/store.go:323-324 | keeps the heap order and adds one item |
| Heaps.Heap.ReplaceRoot | internal/store/store.go:325-328 | keeps the heap order and replaces the least item |
| Heaps.Heap.Pop | internal/store/store.go:330-333 | removes the least item |
| Scans.Scan | internal/store/store.go:299-335 | exactly min(limit, n) rows, those with the largest sequence numbers, ascending; short values skipped |
| Scans.ScanEndsWithMax | internal/server/server.go:174-179 | the last row carries the apex's largest sequence number whatever the limit |
| Scans.ScanAfter | internal/store/store.go:342-378 | the first `limit` rows beyond the cursor in key order, whether any were cut, and the apex's maximum |
| Scans.Top | internal/store/store.go:421-459 | the n largest of the inspected counters, descending |
| TopCounters.IterationIsCounters | internal/store/store.go:422-436 | iterating the count space inspects each stored counter once, under its own apex |
| TopCounters.TopOfDatabase | internal/store/store.go:421-459 | so Top returns the min(n, all) largest counters of the database, each with its own apex |
| TopCounters.InspectedFirst | internal/store/store.go:432-435 | a bounded Top inspects the first counters in key order |
| Scans.CorruptIsSkipped | internal/store/store.go:316-318 | values that are no record or no counter are skipped |
| Scans.LimitIs | internal/store/store.go:299-302 | no positive limit means 100000 |
| Cursor.IterationIsScan | internal/store/store.go:346-375 | iterating an apex's byte range yields each of its records once |
| Cursor.PollReturns | internal/store/store.go:337-341 | an untruncated poll is exactly what lies beyond the cursor, with the apex's maximum |
| Cursor.AfterInOrder | internal/store/store.go:357-373 | the rows beyond the cursor, all of them and in their order |
| Cursor.PollIsDelta | internal/store/store.go:342-378 | between two moments of a run that is exactly what was committed in between |
| Cursor.NoGapsNoRepeats | frontend/src/App.svelte:272-290 | chained polls over any run, crashes included, collect each new record exactly once |
| Feed.FeedSub.TrySend | internal/server/feed.go:86-90 | a send never blocks: buffered, or the flag is set |
| Feed.FeedSub.TakeDropped | internal/server/feed.go:97 | reads and clears the flag |
| Feed.Hub.Subscribe | internal/server/feed.go:47-55 | a fresh id and an empty subscription |
| Feed.Hub.Unsubscribe | internal/server/feed.go:57-64 | closes and removes one subscription, its buffer still readable |
| Feed.Hub.CloseAll | internal/server/feed.go:67-74 | closes and removes every subscription |
| Feed.Hub.Broadcast | internal/server/feed.go:79-92 | every matching subscriber is offered the event, no other is touched |
| Feed.BcastIsOffer | internal/server/feed.go:86-90 | the hub's send and its store of the flag are the protocol's two steps, and uninterrupted they are its whole offer |
| Feed.NoSilentGap | internal/server/feed.go:162-188 | events are written in order, each broadcast is written, on its way or dropped, and a resync separates a dropped event from any later one |
| Feed.DrainedIff | internal/server/feed.go:168-175 | a drained handler has the flag clear if and only if it has been woken since the last store of the flag; with the flag clear and no store under way it has announced every drop |
| Feed.SilentUntilOffer | internal/server/feed.go:162-188 | a drained handler writes nothing until the next matching broadcast |
| Feed.OfferAnnounces | internal/server/feed.go:172-175 | a flag left set is announced by that broadcast |
| Feed.SilentDrop | internal/server/feed.go:86-90 | 256 sends, a failing one, a full drain and then the store of the flag: a drop with no resync on its way |
| Feed.FeedsBounded | internal/server/feed.go:134-139 | on every interleaving the counter counts the handlers holding an increment, and at most 128 stream |
| Feed.RefusedIff | internal/server/feed.go:134-138 | a request is refused if and only if streams and refusals not yet taken back fill the bound |
| Live.Page.ReceiveFresh | frontend/src/App.svelte:226-232 | a row is shown unless its name is |
| Live.Page.MergeFresh | frontend/src/App.svelte:243-258 | moves the fresh rows into the list unless a search is streaming; what is shown stays |
| Live.Page.BeginCatchUp | frontend/src/App.svelte:272-274 | a poll is asked for exactly if there is a cursor and none is in flight |
| Live.Page.EndCatchUp | frontend/src/App.svelte:275-289 | takes the poll's rows and cursor and merges them into the list, or asks for a reload, and ends the flight |
| Live.CatchUpCompletes | frontend/src/App.svelte:272-290 | with a cursor, one catch-up makes the page complete for the database of the poll, and the cursor does not fall |
| Live.SessionStaysComplete | frontend/src/App.svelte:196-290 | over any run of a session with a cursor, every catch-up leaves each committed record shown and no name twice; no row is lost |
| Live.NoCursorNoCatchUp | frontend/src/App.svelte:272-273 | a session opened without a cursor never gains a row from a catch-up |
| Live.AnnouncedIsCommittedIff | internal/store/store.go:54-59 | a name the hook announced can be polled if and only if its sequence number is committed |
| LiveFeed.PageIsComplete | frontend/src/App.svelte:226-290 | over any run of store, hub, handler and page, the page has a row with the name of each record of the database behind the last answer it applied, and no name twice |
| LiveFeed.HookIsNews | internal/store/store.go:243-246 | handling an operation makes one OnNew call if its name is new, none otherwise |
| LiveFeed.DroppedIsShownIff | frontend/src/App.svelte:272-290 | after any run, once an answer is applied a dropped name is on the page if and only if it was committed when the poll was answered (or, after a server restart, already shown) |
| LiveFeedRuns.ResyncComesTooEarly | internal/server/feed.go:172-175 | 257 new names in one open batch drop the last one; the resync's poll misses it, the next commit stores it, and only a later poll returns it |
| LiveFeedRuns.ResyncIsIgnored | frontend/src/App.svelte:273 | the same drop is committed while an earlier answer is in flight; the resync polls nothing and the answer lands without the name |
| Limiter.RateLimiter.ShardIndex | internal/server/limiter.go:113-119 | the 32-bit wrapping hash, modulo 64 |
| Limiter.HashIs | internal/server/limiter.go:113-119 | the hash is the key as a number in base 31 modulo 2^32, the shard that number modulo 64 |
| Limiter.RateLimiter.TrimShard | internal/server/limiter.go:84-96 | expired hits are dropped, empty keys removed, other shards untouched |
| Limiter.RateLimiter.Allow | internal/server/limiter.go:38-71 | verdict and new shard are those of the model, other shards untouched |
| Limiter.RateLimiter.Sweep | internal/server/limiter.go:73-81 | every shard is trimmed |
| Limiter.VerdictIsCount | internal/server/limiter.go:53-70 | unless shut out, the whole verdict, retryAfter included, is that of counting earlier admissions in the closed window |
| Limiter.JudgeIs | internal/server/limiter.go:53-70 | the counting spelled out over the set of admissions in the window, with the wait of a denied call |
| Limiter.ShutOutIsFull | internal/server/limiter.go:43-52 | a key is shut out exactly if it has no admission in the window and as many keys as the shard may track have one |
| Limiter.SlidingWindow | internal/server/limiter.go:38-96 | so after any calls and sweeps; no closed window ever holds more than limit; at most maxBuckets keys; only unknown keys are shut out |
| Limiter.SweepsChangeNothing | internal/server/limiter.go:73-96 | with all sweeps left out every call gets the same verdict and the same calls are shut out |
| Limiter.Isolation | internal/server/limiter.go:43-70 | a key that finds room is told exactly what the reference limiter tells it when alone |
| Limiter.RetryIsEnough | internal/server/limiter.go:60-67 | after a denial, a call later than retryAfter is admitted |
| Wire.ReadOne | internal/rfc6962/tbs.go:30-53 | the length loop reads what the model reads |
| Wire.ReadAll | internal/rfc6962/tbs.go:17-28 | the loop computes the recursive reading |
| Wire.AcceptedIsConcat | internal/rfc6962/tbs.go:17-28 | what is accepted is the concatenation of the returned complete elements |
| Wire.ConcatIsAccepted | internal/rfc6962/tbs.go:17-28 | every concatenation of complete elements is accepted and read back |
| Wire.DERRoundTrip | internal/rfc6962/tbs.go:17-53 | any list of tagged bodies shorter than 2^32 is recovered from its DER |
| Wire.LengthForms | internal/rfc6962/tbs.go:30-53 | the short form and the long forms of one and two bytes, in bytes |
| Wire.ReadRefuses | internal/rfc6962/tbs.go:30-53 | exactly which inputs are refused |
| Wire.ReadSCTList | internal/rfc6962/tbs.go:127-153 | the loop computes the recursive reading |
| Wire.SCTListRoundTrip | internal/rfc6962/tbs.go:127-153 | the positive timestamps of an encoded list, in order, whatever follows |
| Wire.SCTListInBytes | internal/rfc6962/tbs.go:127-153 | a list of one SCT, in bytes |
| Wire.SCTInBytes | internal/rfc6962/tbs.go:155-160 | where the timestamp of an SCT stands |
| Wire.TimeInBytes | internal/rfc6962/leaf.go:74 | eight bytes as a signed time, highest first |
| Wire.SCTTimestampRoundTrip | internal/rfc6962/tbs.go:155-160 | the timestamp behind version and log id |
| Wire.LabeledRoundTrip | internal/rfc6962/leaf.go:107-117 | a three-byte-labelled string and what follows it |
| Wire.EntryRoundTrip | internal/rfc6962/leaf.go:70-105 | decoding inverts the leaf encoding exactly if extensions follow |
| Wire.EntryInBytes | internal/rfc6962/leaf.go:70-105 | both types of entry, in bytes |
| Wire.EntryRefuses | internal/rfc6962/leaf.go:70-117 | exactly which inputs are refused |
| Wire.HasControlByte | internal/rfc6962/leaf.go:156-163 | true exactly if some byte is a control byte |
| Wire.DedupeLower | internal/rfc6962/leaf.go:133-150 | the tidied names in order of first appearance, each once, none empty or with a control byte |
| Wire.TidyShapes | internal/rfc6962/leaf.go:137-139 | one trailing dot goes, then one leading wildcard label |
| Wire.FirstSeenOrder | internal/rfc6962/leaf.go:133-150 | a name stands where it first appears |
| Ndjson.IndexOf | frontend/src/lib/api.ts:108 | the first newline at or after a position |
| Ndjson.RowStream.Receive | frontend/src/lib/api.ts:103-119 | after each chunk the rows are those of the complete lines so far and the rest is buffered |
| Ndjson.SearchFeed | frontend/src/lib/api.ts:90-121 | for every chunking the same rows, in batches of exactly 5000 and a last one that is not empty |
| Ndjson.LinesOf | frontend/src/lib/api.ts:107-114 | what the lines of a text are: cut at newlines, empty ones left out, an unfinished one not counted |
| Ndjson.ReadersAgreeIff | frontend/src/lib/api.ts:153-160 | the streaming and the whole-text reader agree exactly on texts not cut inside a line |
| Csv.FieldRoundTrip | frontend/src/lib/format.ts:19-22 | a printed field is read back whatever it contains |
| Csv.FieldInChars | frontend/src/lib/format.ts:19-22 | which fields are quoted and how |
| Csv.LineInChars | frontend/src/lib/format.ts:32 | a line of the table, with and without its date |
| Csv.TableInChars | frontend/src/lib/format.ts:29-35 | header, line separators and the end of the table |
| Csv.TableRoundTripIff | frontend/src/lib/format.ts:29-35 | the exported table is read back if and only if it has a row |

## Left out

- StoreRuns.CrashRefinement: sequence numbers and counters are unbounded; the source's 64-bit counters would wrap only after 2^64 operations.
- StoreRuns.NothingHandledIsLost: speaks of operations taken from the channel; a send that succeeds while the final drain ends is not handled and is lost, as in the source.
- Tailer.SpotCheckSound: says nothing about the index that was requested, because the code verifies at the index the log returns.
- TailedStore.WatermarkCovers: "entry i" is what the log served at index i; that a log serves one entry per index is the spot check's business.
- Limiter.SlidingWindow: calls reach a shard at non-decreasing times; a clock read before the lock may arrive out of order.
- Live.SessionStaysComplete: polls are not truncated, and the session starts from a complete snapshot of one apex; a truncated poll reloads the page.
- LiveFeed.DroppedIsShownIff: names are canonical, so lower-casing leaves them alone; a truncated answer reloads the page and ends the session.
- StoreDates.FewAreUnsaved: any number of watermark operations can wait for the next timer flush; they are not counted.
- ByteRuns.FlushInBytes: the recount's own writes are not spelled out in bytes.
- Feed.NoSilentGap: heartbeats are comments of the stream and are not lines of the model; a failed write or a cancelled request ends the stream, so a run is any prefix.
- Pebble: a map with atomic batch commit, ordered iteration and crash to the last commit; I/O errors, and stored records that are not 17 bytes outside the scans, do not occur.
- `SetWatermarkSync` has no caller in the program.
- HTTP, JSON, TLS, base64, X.509, signature checks and the log list: library calls; a verified tree head is an input.
- `apex.Canonical`, `apex.ApexOf` and `strings.ToLower`: uninterpreted functions.
- DER to names (`namesFromTBS`, `parseSAN`): reads through `encoding/asn1`.
- Host check, CORS, gzip, stats cache and client IP parsing: one-step facts.
- Time-outs, back-off and jitter: scheduling only; every order of events is covered.

# Verified model of the danmu message system

The Dafny files here model the parts of the danmu (live comment) system whose correctness depends
on every input, every run or every interleaving, and prove what those parts are for.
`dafny verify dfyconfig.toml` checks all of it.

- **Word filter** (`Suffixes`, `BreadthFirst`, `AhoCorasick`). The Aho-Corasick automaton is kept as
  an arena of nodes changed in place, with a ghost path per node. `Suffixes` holds the mathematics:
  the state after reading a text is its longest suffix that is a path of the trie, and a failure
  link is the longest proper such suffix. `BreadthFirst` is the invariant of the queue. Both copies
  of the filter in the repository (`danmu/distributed/core` and `danmu/monolith/server`) run this code.
- **Token bucket** (`PackedWord`, `TokenBucket`, `BucketRuns`, `BucketBound`). One 64-bit word with
  32-bit fields, first with one caller, against a bucket refilled every millisecond, then with any
  number of callers interleaved at load, clock read and compare-and-swap.
- **Hot history and replay** (`HotHistory`, `RoomHist`, `Worker`, `ReplayProtocol`,
  `WorkerSteps`, `Membership`). The ring buffer per room, the worker's flush, and the protocol between
  workers, messages from other servers, registration and replay as atomic steps.
- **Connection kernel and hub** (`ConnTables`, `ConnKernel`, `Sections`, `HubSpec`, `Hub`). Sharded
  tables are described by flat maps through an arbitrary hash into 0..255. `Sections` interleaves
  the locked sections of concurrent calls; `Hub` takes its calls one at a time.
- **Idempotence set** (`MsgIDSet`), **push job** (`Payload`, `Job`), **delivery accounting**
  (`Delivery`, `DeliveryTotals`), **experiments** (`ExperimentSpec`, `ExperimentSafety`,
  `ExperimentRuns`, `ExperimentOutcomes`, `ExperimentManager`) and **sweeps** (`SweepSpec`, `Sweep`).

Classes have the source's fields and methods; each method is tied to a function or relation of the
old state, and the lemmas are about those. Clocks are arguments that do not run backwards; sends,
pushes and saves are entries in a sequence or a map; the answers of processes, number formats and
white-space trimming are arguments.

What the proofs found where the code falls short of what one expects of it:

- The token bucket compares words, not states. When the state a caller swaps over was stamped 2^32 ms
  or more after the state it loaded, the word may have come round; the swap then turns the stamp back,
  and the bucket can be drained twice within one millisecond. The rate bound holds in every run exactly
  for buckets with rate or capacity zero (`BoundExactly`); for all others a span of 2^32 ms is the
  threshold (`SpanThreshold`), and every grant is paid for exactly when no swap turns the stamp back
  (`RunPaid`). The span is between stamps: in the run that breaks the bound the caller waits half a turn.
- Because of the wrapped stamp a call may see less time than has passed. It does what a bucket refilled
  every millisecond does exactly when less than 2^32 ms have passed since the last grant, or rate or
  capacity is zero, or the time it does see fills the bucket (`AttemptIsReference`).
- Subscribing a connection twice to one channel leaves a reverse entry behind after `RemoveConn`
  (`RemoveConnReverse`, exactly when the count was two or more; reached in `TwiceLeavesEntry`). The
  forward table is still clean.
- The hub's indexes stay in agreement exactly when AddClient is given a client whose id is not in use
  (or only by a connection the policy drops) and RemoveClient one that has no one else's id.
- `channelRoom` inverts `roomChannel` exactly for non-empty room names.
- Restarting a completed experiment that needs a server configuration, in a process without a server
  manager, drops its runs but leaves the status completed (`VoidsExactly`, reached in `VoidReached`).
- A process that goes away while a run is active leaves its record marked running for good, and
  another experiment can then be started beside it (`OneRunning`, `StuckExactly`, `StuckForever`;
  reached in `TwoRunningReached`). Nothing is repaired when records are loaded.
- The delivery tracker uses zero for "nothing received"; its counts are right for a stream of
  non-negative numbers exactly when the stream does not start at zero and go on to something other
  than one (`CountedExactly`, violated in `ZeroMiscounted`). The server numbers from one, and for such
  streams the counts are right (`PositiveCounted`). The observed total covers the current measurement
  alone exactly when no connection that received something before the reset is silent after it, and
  the missing total exactly when none of those had skipped a number (`ObservedIsCurrent`,
  `MissingIsCurrent`; violated in `ResetKeepsOld`).
- A sweep value that cannot be parsed is planned all the same, with the default in its place
  (`ElementHolds`), and the cap on total runs is not enforced, although the header comment of
  `sweep.go` says both limits are refused: it holds for every plan of n repetitions exactly when n is at
  most three (`TotalRunsCapped`).

## Model

| member | source | states |
|---|---|---|
| Suffixes.LongestIsLongest | danmu/distributed/core/filter.go:43-67 | A string is the automaton's state for a text if and only if it is a trie path, a suffix of the text, and no longer suffix of the text is a trie path. |
| Suffixes.WalkExtends | danmu/distributed/core/filter.go:78-87 | Following failure links and then the next rune leads from the longest suffix for a text to the longest suffix for the text with that rune. |
| Suffixes.ChainIsSuffixes | danmu/distributed/core/filter.go:88-95 | The failure chain of a state holds exactly the trie paths that are suffixes of the text read. |
| BreadthFirst.ShallowQueued | danmu/distributed/core/filter.go:43-67 | Whenever a node is taken from the queue, every path that is not longer has been queued before. |
| BreadthFirst.AllQueued | danmu/distributed/core/filter.go:43-67 | When the queue runs empty every trie path has been queued. |
| AhoCorasick.SensitiveFilter.constructor | danmu/distributed/core/filter.go:20-41 | For any word list, the node of each path is marked with a word length exactly when a non-empty listed word is that path, and all failure links are right. |
| AhoCorasick.SensitiveFilter.Insert | danmu/distributed/core/filter.go:23-38 | Inserting a word adds exactly its prefixes to the trie and marks its end. |
| AhoCorasick.SensitiveFilter.BuildFailLinks | danmu/distributed/core/filter.go:43-67 | Afterwards every non-root node links to the node of its longest proper suffix in the trie, and the queue held every such node once. |
| AhoCorasick.SensitiveFilter.LinkTarget | danmu/distributed/core/filter.go:54-62 | The walk up the failure links of the parent finds the longest proper suffix for the child. |
| AhoCorasick.AllNodesQueued | danmu/distributed/core/filter.go:43-67 | A breadth-first order without repeats that covers all paths names every non-root node exactly once. |
| AhoCorasick.SensitiveFilter.Filter | danmu/distributed/core/filter.go:70-109 | Position j is masked exactly when a non-empty listed word occurs over an interval containing j; other runes and the length are unchanged; all failure steps together are at most the number of runes. |
| AhoCorasick.SensitiveFilter.Next | danmu/distributed/core/filter.go:79-87 | One transition reaches the state for the extended text, and its failure steps are paid for by the depth lost. |
| AhoCorasick.SensitiveFilter.Mark | danmu/distributed/core/filter.go:88-97 | The chain walk marks exactly the positions covered by a word that ends at the rune just read. |
| AhoCorasick.ChainEnds | danmu/distributed/core/filter.go:88-97 | The words on the failure chain are exactly the listed words that end at this rune. |
| AhoCorasick.CoveredGrows | danmu/distributed/core/filter.go:88-97 | A position of the extended text is covered if it was before or if a word ending at the new rune covers it. |
| AhoCorasick.MaskHits | danmu/distributed/core/filter.go:99-108 | Hit positions become asterisks and all others keep their rune. |
| PackedWord.UnpackPack | danmu/distributed/core/ratelimit.go:23-29 | Unpacking gives back what was packed if and only if the tokens fit in 32 signed bits. |
| PackedWord.PackUnpack | danmu/distributed/core/ratelimit.go:23-29 | Packing the fields of any word gives back the word. |
| TokenBucket.AttemptExact | danmu/distributed/core/ratelimit.go:32-51 | Within the limits an attempt is exact saturating arithmetic: no overflow in the fields or in 64 bits. |
| TokenBucket.NoOverflow | danmu/distributed/core/ratelimit.go:38-40 | The refill product and sum do not wrap in 64 bits. |
| TokenBucket.TicksClosedForm | danmu/monolith/server/ratelimit.go:34-74 | Adding the rate every millisecond and saturating each time is one saturating addition. |
| TokenBucket.WrappedDelta | danmu/distributed/core/ratelimit.go:35-38 | The difference of wrapped stamps is the elapsed time modulo 2^32, and the elapsed time itself below 2^32 ms. |
| TokenBucket.TokenBucket.Allow | danmu/distributed/core/ratelimit.go:32-51 | Answer and level left are those of the bucket refilled every millisecond if and only if the call sees all of its time: it comes within 2^32 ms of the last grant, or the time lost to the wrapped stamp makes no difference. The call stores the word that one attempt makes of the stored one; a rejection stores nothing. |
| TokenBucket.SeenLevel | danmu/distributed/core/ratelimit.go:35-44 | The level seen through the wrapped stamp is the true one exactly under that condition, and otherwise the true one is worth a token. |
| TokenBucket.AttemptIsReference | danmu/distributed/core/ratelimit.go:32-51 | One attempt makes of the stored word what the reference bucket makes of it if and only if less than 2^32 ms have passed, or nothing is ever refilled or granted, or the time it does see fills the bucket. |
| TokenBucket.LazyRefinesReference | danmu/distributed/core/ratelimit.go:32-51 | Over every sequence of calls, lazy refill with no store on rejection does at each call what the reference bucket does if and only if every call meets that condition. |
| TokenBucket.RecentGrantsAgree | danmu/distributed/core/ratelimit.go:32-51 | The answers agree whenever every call comes less than 2^32 ms after the last grant. |
| TokenBucket.WrapRejects | danmu/distributed/core/ratelimit.go:35-44 | At exactly 2^32 ms a drained bucket rejects where the reference grants. |
| BucketRuns.GrantStores | danmu/distributed/core/ratelimit.go:36-47 | A granted attempt stores a level of at most capacity minus one token, paid for by the old level and the elapsed time. |
| BucketRuns.TokensInRange | danmu/distributed/core/ratelimit.go:32-51 | In every interleaving, however often the clock wraps, stored tokens stay within 0..capacity*1000. |
| BucketRuns.SameWordSameState | danmu/distributed/core/ratelimit.go:46-48 | Two equal words are the same stored state exactly when their stamps are less than 2^32 ms apart. |
| BucketRuns.StepPaid | danmu/distributed/core/ratelimit.go:32-51 | A step leaves every grant paid for if and only if it is not a swap that turns the stamp back. |
| BucketRuns.RunPaid | danmu/distributed/core/ratelimit.go:32-51 | In a run, every grant is paid for by the state it replaced if and only if no swap turns the stamp back. |
| BucketRuns.TurningBackIsStale | danmu/distributed/core/ratelimit.go:32-51 | Only a swap over a state stamped a whole turn of the clock after the one its caller loaded can turn the stamp back. |
| BucketRuns.ShortSpansSuffice | danmu/distributed/core/ratelimit.go:32-51 | Runs whose swaps all replace a state stamped less than 2^32 ms after the one loaded never turn the stamp back. |
| BucketRuns.GrantsPaid | danmu/distributed/core/ratelimit.go:32-51 | Paid histories keep, for any window, an account that bounds the grants counted so far. |
| BucketRuns.WindowBound | danmu/distributed/core/ratelimit.go:10-51 | In every run that never turns the stamp back, any window of T ms holds at most capacity + rate*T/1000 grants. |
| BucketRuns.CallGrants | danmu/distributed/core/ratelimit.go:32-51 | A call that is not interrupted is granted when the refilled level reaches one token. |
| BucketBound.IdleBucketNeverTurns | danmu/distributed/core/ratelimit.go:32-51 | A bucket that never refills or never grants never turns the stamp back. |
| BucketBound.DrainedAgain | danmu/distributed/core/ratelimit.go:46-48 | For every rate and capacity of at least 1, a run in which the stamp goes back half a turn and the bucket is drained a second time within one millisecond. |
| BucketBound.StaleSwapBreaksBound | danmu/distributed/core/ratelimit.go:46-48 | That run breaks the rate bound. |
| BucketBound.BoundExactly | danmu/distributed/core/ratelimit.go:10-51 | For every rate and capacity that fit the packed word, the rate bound holds in every run, for every interleaving and wraparound, if and only if the rate or the capacity is zero. |
| BucketBound.SpanThreshold | danmu/distributed/core/ratelimit.go:10-51 | For all other buckets the bound holds in every run whose swaps span less than `limit` ms if and only if `limit` is at most 2^32. |
| HotHistory.SplitCovers | danmu/monolith/server/worker.go:105-112 | The normal and high parts together are a rearrangement of the messages. |
| HotHistory.NewerMembers | danmu/monolith/server/roomhist.go:131-137 | The selection above a sequence number holds exactly the numbered messages above it. |
| HotHistory.ReplayComplete | danmu/monolith/server/roomhist.go:115-143 | A replay whose limit is not exceeded holds every retained message above the number asked for. |
| HotHistory.ReplayKeepsNewest | danmu/monolith/server/roomhist.go:138-141 | A trimmed replay drops no message that is newer than one it keeps. |
| HotHistory.RetainedExactly | danmu/monolith/server/roomhist.go:80-143 | What is retained is an end of all stamped messages, and it reaches back to a message exactly when no silence longer than the TTL came since its batch and fewer than max stamped messages came after it. |
| HotHistory.RetainedOnce | danmu/monolith/server/roomhist.go:80-143 | A message that was sent once is retained exactly under that condition. |
| HotHistory.StampedExactly | danmu/monolith/server/roomhist.go:88-91 | Of a batch exactly the messages with a number are kept. |
| HotHistory.RetainedStamped | danmu/monolith/server/roomhist.go:88-91 | Nothing without a number is ever retained. |
| HotHistory.SessionReachesBack | danmu/monolith/server/roomhist.go:85-87 | The open session reaches back to a batch if and only if no silence longer than the TTL came since. |
| RoomHist.RingGrows | danmu/monolith/server/roomhist.go:92-100 | Writing behind the last entry of a ring that is not full appends to its logical order. |
| RoomHist.RingTurns | danmu/monolith/server/roomhist.go:101-104 | Overwriting the oldest entry of a full ring drops the first and appends the new one. |
| RoomHist.HistRoom.Put | danmu/monolith/server/roomhist.go:88-108 | The ring in logical order becomes the last max entries of its old content and the new message. |
| RoomHist.HistRoom.AppendBatch | danmu/monolith/server/roomhist.go:80-112 | After an append the ring holds the last min(max, n) stamped messages since the last TTL reset of the extended log. |
| RoomHist.HistRoom.ReplayFrom | danmu/monolith/server/roomhist.go:115-143 | Exactly the retained entries above the number, ascending, trimmed to the newest limit, with the session's latest number; an expired room answers empty. |
| RoomHist.RoomHist.constructor | danmu/monolith/server/roomhist.go:52-60 | Non-positive limits become 100 messages and 300 seconds. |
| RoomHist.RoomHist.GetOrCreate | danmu/monolith/server/roomhist.go:62-76 | A room that was swept away is recreated without any change in what can be replayed. |
| RoomHist.RoomHist.AppendBatch | danmu/monolith/server/roomhist.go:80-112 | Only the log of this room grows, by this batch at this time. |
| RoomHist.RoomHist.ReplayFrom | danmu/monolith/server/roomhist.go:115-143 | The answer depends on the room's appends and the time alone, not on sweeps; a non-positive limit means max. The latest number is the greatest of the session, messages already pushed out included. |
| RoomHist.RoomHist.Sweep | danmu/monolith/server/roomhist.go:154-179 | Sweeping drops only rooms that have nothing left to replay. |
| RoomHist.RoomHist.Clear | danmu/monolith/server/roomhist.go:146-151 | Closing a room forgets its history and no other. |
| RoomHist.SortBySeq | danmu/monolith/server/roomhist.go:138 | The result is ascending and a rearrangement of the input. |
| Worker.NumberedInRoom | danmu/monolith/server/worker.go:97-102 | A room's share of the numbered batch is its share of the batch, numbered on from the room's counter. |
| Worker.NumberedAt | danmu/monolith/server/worker.go:97-102 | A message's number is the counter plus its rank among the batch's messages of its room; nothing else changes in it. |
| Worker.NumbersRiseInRoom | danmu/monolith/server/worker.go:97-102 | Two messages of one room get numbers that rise strictly in batch order. |
| Worker.SentExactlyOnce | danmu/monolith/server/worker.go:85-157 | Every message of a batch is in exactly one broadcast. |
| Worker.ShareIsSplit | danmu/monolith/server/worker.go:105-112 | The normal and high lists are the order-preserving parts of the room's messages. |
| Worker.RecordedBeforeSent | danmu/monolith/server/worker.go:97-133 | A broadcast carries exactly its room's share of its class, and the room's whole share was appended to the history before it. |
| Worker.NormalBeforeHigh | danmu/monolith/server/worker.go:132-133 | Of a room's two broadcasts the normal one comes first. |
| Worker.WorkerState.NextRoomSeq | danmu/monolith/server/hub.go:98-101 | Each call raises the room's counter by one and returns it. |
| Worker.WorkerState.Flush | danmu/monolith/server/worker.go:85-157 | Whatever order the rooms are visited in, the events are those of the numbered batch, each room once, and each counter rises by the room's share. |
| ReplayProtocol.NumbersRise | danmu/monolith/server/hub.go:98-117 | Across workers and adoptions in any interleaving, no number is given out twice and the room's counter never falls. |
| ReplayProtocol.StepConserved | danmu/monolith/server/worker.go:97-133 | No step loses a message: once appended it has been broadcast or is still to be. |
| ReplayProtocol.StepAccounted | danmu/monolith/server/hub.go:133-169 | Every registered client is a member or has left; `Membership.MembersExactly` says which. |
| Membership.StepClient | danmu/monolith/server/hub.go:133-169 | A step makes a client a member exactly by its registration, and puts it out exactly when it unregisters itself, its user is kicked, or another connection of its user registers; the exit of a replaced connection leaves its replacement. |
| Membership.MembersExactly | danmu/monolith/server/hub.go:133-169 | In every run a registered client is a member if and only if none of these put it out since it registered, and has left if and only if one did. |
| Membership.CastsAreSnapshots | danmu/monolith/server/hub.go:185-215 | Every broadcast went to exactly the members of the moment it was made. |
| Membership.FramesAreSnapshots | danmu/monolith/server/client.go:213-246 | Every replay was asked for by a registered client and is of the clock and the appends of that moment. |
| Membership.ReplayAnswered | danmu/monolith/server/client.go:213-246 | Every replay that a registered client asks for is answered. |
| Membership.ClockRuns | danmu/monolith/server/roomhist.go:85-87 | The clock is the start plus the time passed. |
| ReplayProtocol.StepReplayed | danmu/monolith/server/client.go:213-246 | Every replay stays right as more is appended, and batches appended after it are broadcast to snapshots that hold its client or come after it left. |
| ReplayProtocol.RunInvariant | danmu/monolith/server/hub.go:133-215 | The three hold in every run. |
| ReplayProtocol.FrameExact | danmu/monolith/server/client.go:213-246 | In every run, a message above the number asked for that was appended once before a replay is in it if and only if it had neither expired nor been evicted. |
| ReplayProtocol.NoHole | danmu/monolith/server/client.go:213-246 | In every interleaving each appended message above the number asked for is in the replay or is broadcast to a snapshot containing the client, unless it left, or the message had expired or been evicted when the replay was made, or is still to be broadcast. Batches of other servers are appended only if the room has a member when they arrive (`WorkerSteps.TakenIfMember`). |
| Membership.NoHoleInRoom | danmu/monolith/server/client.go:213-246 | For a client that nothing put out, each such message is in its replay or in a broadcast made while it was in the room. |
| WorkerSteps.FlushAlone | danmu/monolith/server/worker.go:85-157 | A worker that flushes alone numbers its messages on from the counter, appends them once, and broadcasts the parts after that. |
| WorkerSteps.FlushIsSteps | danmu/monolith/server/worker.go:85-157 | For each room, what `Worker.Flush` records and sends is what these steps of the protocol append and cast, with the same counter. |
| WorkerSteps.TakenIfMember | danmu/monolith/server/redis.go:168-170 | A batch of another server is taken over if and only if the room has a member here when it arrives. |
| WorkerSteps.CarriedUntilAppended | danmu/monolith/server/redis.go:188-189 | Whatever happens, a batch taken over is carried until it is appended as it came. |
| WorkerSteps.ReceiveAlone | danmu/monolith/server/redis.go:168-189 | Uninterrupted, such a batch is appended, and the counter raised to its greatest number, if and only if the room has a member. |
| ConnTables.TotalIsSize | danmu/distributed/core/connkernel.go:46-68 | For any hash, the summed sizes of the 256 shards are the size of the table they make up. |
| ConnTables.PairTotalIsSize | danmu/distributed/core/connkernel.go:132-163 | So are the user and device pairs, summed over the shards. |
| ConnTables.HoldsWriteBack | danmu/distributed/core/connkernel.go:46-90 | Writing one changed entry back to its shard keeps the shards and the table in step. |
| ConnTables.SessionAddSizes | danmu/distributed/core/connkernel.go:146-163 | Adding a connection changes the user and device counts by whether the user and the device are new. |
| ConnTables.SessionRemoveUsers | danmu/distributed/core/connkernel.go:166-191 | Removing a connection lowers the user count exactly when it was the user's last. |
| ConnTables.SessionRemoveDevices | danmu/distributed/core/connkernel.go:166-191 | Removing a connection lowers the device count exactly when it was the device's last. |
| ConnTables.SubscribeBacked | danmu/distributed/core/connkernel.go:275-294 | Subscribing keeps every forward membership backed by a positive reverse count. |
| ConnTables.UnsubscribeBacked | danmu/distributed/core/connkernel.go:297-326 | So does unsubscribing. |
| ConnTables.UnsubscribeAllAt | danmu/distributed/core/connkernel.go:329-344 | Unsubscribing a connection from a list of channels removes it from those and touches no other membership. |
| ConnTables.RemoveConnClears | danmu/distributed/core/connkernel.go:329-344 | After RemoveConn the connection is in no channel and all other memberships are as before. |
| ConnTables.RemoveConnReverse | danmu/distributed/core/connkernel.go:297-344 | A reverse entry is left behind if and only if the channel had been counted twice or more. |
| ConnTables.TwiceLeavesEntry | danmu/distributed/core/connkernel.go:275-344 | A run that subscribes twice and disconnects leaves the connection in no channel and its entry counted once. |
| ConnTables.SubRunBacked | danmu/distributed/core/connkernel.go:275-344 | Backing holds after any sequence of Subscribe, Unsubscribe and RemoveConn, repeated subscriptions included. |
| ConnKernel.ConnectionManager.Add | danmu/distributed/core/connkernel.go:69-77 | The table gains the connection under its id, and the counter stays its size; table and counter make the step ConnAdd of `Sections`. |
| ConnKernel.ConnectionManager.Remove | danmu/distributed/core/connkernel.go:80-90 | True exactly when the id was present, which is then gone; the counter stays the size; the step is ConnRemove. |
| ConnKernel.ConnectionManager.CountIsTotal | danmu/distributed/core/connkernel.go:115 | The counter is the summed size of the shards. |
| ConnKernel.SessionIndex.Add | danmu/distributed/core/connkernel.go:146-163 | The user, device and connection maps gain this entry, counters exact, no empty inner map; the step is SessAdd. |
| ConnKernel.SessionIndex.Remove | danmu/distributed/core/connkernel.go:166-191 | Exactly this entry goes, emptied maps with it, counters exact; the answer says whether it was there; the step is SessRemove. |
| ConnKernel.SessionIndex.GetUserConnections | danmu/distributed/core/connkernel.go:194-209 | Exactly the user's connections over all devices. |
| ConnKernel.SessionIndex.UserCountIsTotal | danmu/distributed/core/connkernel.go:232 | The user counter is the summed size of the shards. |
| ConnKernel.SubscriptionIndex.SubscribeForward | danmu/distributed/core/connkernel.go:275-287 | The first locked section is the step Forward, with the counter exact and no empty channel. |
| ConnKernel.SubscriptionIndex.SubscribeReverse | danmu/distributed/core/connkernel.go:288-294 | The second is the step Reverse. |
| ConnKernel.SubscriptionIndex.Subscribe | danmu/distributed/core/connkernel.go:275-294 | Forward and reverse tables change as specified and the channel counter stays exact. |
| ConnKernel.SubscriptionIndex.UnsubscribeForward | danmu/distributed/core/connkernel.go:297-311 | The first locked section is the step Unforward; an emptied channel goes. |
| ConnKernel.SubscriptionIndex.UnsubscribeReverse | danmu/distributed/core/connkernel.go:312-326 | The second is the step Unreverse. |
| ConnKernel.SubscriptionIndex.Unsubscribe | danmu/distributed/core/connkernel.go:297-326 | Forward and reverse tables change as specified, emptied channels go, the counter stays exact. |
| ConnKernel.SubscriptionIndex.RemoveConn | danmu/distributed/core/connkernel.go:329-344 | The connection is unsubscribed from a snapshot of exactly its channels. |
| ConnKernel.SubscriptionIndex.GetSubscribers | danmu/distributed/core/connkernel.go:347-360 | Exactly the channel's subscribers. |
| ConnKernel.SubscriptionIndex.ChannelList | danmu/distributed/core/connkernel.go:391-401 | A list of exactly the channels, without duplicates, as long as the counter says. |
| Sections.StepExact | danmu/distributed/core/connkernel.go:69-310 | Each locked section keeps all four counters equal to their tables' sizes and leaves no empty inner map. |
| Sections.InterleavedExact | danmu/distributed/core/connkernel.go:69-310 | In every interleaving of any number of AddClient and RemoveClient calls, every counter is its table's size after every section. |
| Sections.StoreRunRepresents | danmu/distributed/core/connkernel.go:69-310 | In every interleaving the shards, of which each section writes one entry, make up the tables. |
| Sections.InterleavedTotals | danmu/distributed/core/connkernel.go:69-310 | In every interleaving and for every hash, each counter is the summed size of its 256 shards after every section. |
| Sections.GateOncePerRegistration | danmu/distributed/core/hub.go:119-125 | At most one removal per registration passes the gate. |
| HubSpec.ChannelRoomInverts | danmu/distributed/core/hub.go:74-84 | The room name comes back from its channel if and only if it is not empty. |
| HubSpec.AddAgreeExactly | danmu/distributed/core/hub.go:103-114 | The three sections of AddClient keep all indexes describing the same connections if and only if the id is not in use. |
| HubSpec.RemoveAgreeExactly | danmu/distributed/core/hub.go:119-125 | The three sections of RemoveClient keep them in agreement if and only if the client's user and device are those the id is registered under. |
| HubSpec.CountsAgree | danmu/distributed/core/hub.go:206-219 | With the indexes in agreement, their sizes are the numbers of connections, users, user-device pairs and rooms online. |
| Hub.DecimalInjective | danmu/distributed/core/hub.go:87-90 | Different numbers print differently. |
| Hub.ConnectionIDInjective | danmu/distributed/core/hub.go:87-90 | Different counter values give different connection ids. |
| Hub.Hub.CountersMatch | danmu/distributed/core/hub.go:206-219 | In every valid hub the four counters equal the numbers of connections, distinct users, distinct user-device pairs and rooms. |
| Hub.IssuedKept | danmu/distributed/core/hub.go:87-90 | Registering under the next id and dropping connections keep every id in use an issued one. |
| Hub.Hub.NewClientFits | danmu/distributed/core/hub.go:94-102 | As long as only issued ids are in use, a client without an id fits. |
| Hub.Hub.AddClient | danmu/distributed/core/hub.go:94-115 | Any client becomes live under its id or the next one; under the single-device policy the user's other connections go and are closed with code 4009, and no other is closed or lost. All indexes agree and the policy holds afterwards if and only if the client fits: its id is not in use, or only by a connection that goes. A hub with only issued ids stays valid, with only issued ids, when the client comes without one. |
| Hub.Hub.RemoveClient | danmu/distributed/core/hub.go:119-125 | Exactly this id goes, once; a second call changes nothing. The hub stays valid, with only issued ids if it had only those, if and only if the id is not in use or is this user's and device's. |
| Hub.Hub.CloseRoom | danmu/distributed/core/hub.go:176-187 | Exactly the room's connections go and are closed with code 4001, of any user or device; the answer says whether the room had any; the hub stays valid, its ids issued. |
| Hub.Hub.KickClient | danmu/distributed/core/hub.go:190-203 | Exactly the user's connections in this room go and are closed; the answer says whether there were any; the hub stays valid, its ids issued. |
| Hub.Hub.GetRoomList | danmu/distributed/core/hub.go:144-154 | Every room online is listed once with the number of its connections. |
| MsgIDSet.TableIsLastAccepted | danmu/monolith/server/msgidset.go:29-48 | A table that is never cleaned holds, for each room and id, the expiry of the last accepted call. |
| MsgIDSet.TableAnswers | danmu/monolith/server/msgidset.go:29-48 | Looking a call up there blocks it exactly when an accepted call for its room and id is less than a TTL old. |
| MsgIDSet.PassedApart | danmu/monolith/server/msgidset.go:29-48 | Two calls for one room and id that the table lets through are at least the TTL apart. |
| MsgIDSet.TableElsewhere | danmu/monolith/server/msgidset.go:72-76 | Forgetting the calls of a room forgets exactly its entries. |
| MsgIDSet.MsgIDSet.MarkSeen | danmu/monolith/server/msgidset.go:29-48 | With lazy and periodic sweeping in any order the answer is that of the table never cleaned; a call without an id always passes. |
| MsgIDSet.MsgIDSet.SweepLocked | danmu/monolith/server/msgidset.go:63-69 | Exactly the expired entries of the room go. |
| MsgIDSet.MsgIDSet.Sweep | danmu/monolith/server/msgidset.go:52-61 | No answer changes; no expired entry and no empty room is left. |
| MsgIDSet.MsgIDSet.Clear | danmu/monolith/server/msgidset.go:72-76 | The set is as if the room's calls had not been made. |
| Payload.JoinSplits | danmu/distributed/job/main.go:339-350 | Splitting joined closed bodies at top-level commas gives the bodies back. |
| Payload.ArrayElements | danmu/distributed/job/main.go:339-350 | A payload of closed bodies read as an array gives exactly the bodies it was built from, in order. |
| Payload.StringNested | danmu/distributed/job/main.go:339-350 | Any text as an escaped JSON string closes what it opens, whatever quotes, brackets and commas it holds. |
| Payload.WrappedClosed | danmu/distributed/job/main.go:339-350 | Objects and arrays around well-nested text are closed bodies, and well nested themselves. |
| Payload.NestedConcat | danmu/distributed/job/main.go:339-350 | Well-nested texts in a row are well nested. |
| Payload.BuildArray | danmu/distributed/job/main.go:339-350 | The payload is the bodies between brackets, separated by commas. |
| Payload.JoinInjective | danmu/distributed/ops/sweep.go:273-285 | Parts free of the separator are told apart in the joined text. |
| Job.JobLoop.Ingest | danmu/distributed/job/main.go:280-294 | The record joins its room's batch, its trace id too when it is sampled, and no other batch changes. |
| Job.JobLoop.Flush | danmu/distributed/job/main.go:250-256 | Whatever the order of rooms, each pending room is pushed exactly once with its whole batch and nothing stays pending. |
| Job.JobLoop.Run | danmu/distributed/job/main.go:296-317 | For every run and any records still buffered at shutdown, all are consumed in order and nothing is pending at the end. Whenever the timer fires, exactly the records consumed until then have been pushed; each window between firings is pushed by itself, once for each room it concerns and with all it gathered for it; the last window is pushed at shutdown. |
| Job.GatheredInOrder | danmu/distributed/job/main.go:280-287 | A record's value is gathered right behind those of the earlier records of its room. |
| Job.TracesGathered | danmu/distributed/job/main.go:288-293 | The trace ids gathered for a room are exactly those of its sampled records. |
| Job.JobLoop.ReadThenPending | danmu/distributed/job/main.go:245-317 | For bodies that keep their commas inside brackets or strings, what a room's receivers read out of the pushed payloads, followed by the pending batch, is exactly the consumed records with that key, in order. |
| Delivery.FrameCuts | danmu/monolith/loadtest/main.go:107-134 | How a stream is cut into frames makes no difference. |
| Delivery.FramesJoin | danmu/monolith/loadtest/main.go:109-116 | A tracker stays in the epoch it has entered: frames of one epoch are one stream, however it was cut. |
| Delivery.CountedExactly | danmu/monolith/loadtest/main.go:107-134 | Contiguous counts the strict running maxima, gaps the numbers skipped, their sum is last - first + 1, if and only if a stream starting at zero goes on to one (or stops). |
| Delivery.PositiveCounted | danmu/monolith/loadtest/main.go:107-134 | Both counts are right for every stream of positive numbers. |
| Delivery.ZeroMiscounted | danmu/monolith/loadtest/main.go:117-121 | For the stream 0, 5 no gap is counted. |
| Delivery.SkippedSize | danmu/monolith/loadtest/main.go:122-128 | The numbers skipped are the interval from first to last less the running maxima. |
| Delivery.Runs | danmu/monolith/loadtest/main.go:107-134 | Once a positive number was received, the distance of both counts from the truth never changes. |
| Delivery.DeliveryTracker.OnSeqs | danmu/monolith/loadtest/main.go:107-134 | The tracker follows the specified gauge, started afresh only on entering a new epoch (`Delivery.FramesJoin`), and returns its two counts. |
| DeliveryTotals.StepSound | danmu/monolith/loadtest/main.go:736-781 | Every step of every connection keeps the shared totals equal to the sums of what was last reported. |
| DeliveryTotals.RunSound | danmu/monolith/loadtest/main.go:736-781 | They are equal in every interleaving, across measurement resets too. |
| DeliveryTotals.ScanEnters | danmu/monolith/loadtest/main.go:736-781 | A scanned frame brings the gauge into the current epoch; its stream goes on if it was there already and begins with the frame otherwise. |
| DeliveryTotals.EpochCountsResets | danmu/monolith/loadtest/main.go:245-252 | The epoch is the number of resets. |
| DeliveryTotals.TotalsCount | danmu/monolith/loadtest/main.go:736-781 | When no report is half made, the totals are the running maxima and the skipped numbers summed over the connections' streams. |
| DeliveryTotals.ObservedIsCurrent | danmu/monolith/loadtest/main.go:245-252 | After resets the observed total counts the current measurement alone if and only if no connection that received something earlier has been silent since. |
| DeliveryTotals.MissingIsCurrent | danmu/monolith/loadtest/main.go:245-252 | The missing total does so if and only if no such connection had skipped a number. |
| DeliveryTotals.ResetKeepsOld | danmu/monolith/loadtest/main.go:245-252 | A run with one connection in which both totals keep counting what came before the reset. |
| DeliveryTotals.Reader.Receive | danmu/monolith/loadtest/main.go:736-781 | A frame handled without interruption is the three steps scan, add observed, add missing. |
| ExperimentSpec.NextFrom | danmu/distributed/ops/experiment_manager.go:597-609 | The least repetition without a run, or zero exactly when all have one. |
| ExperimentSafety.TodoLists | danmu/distributed/ops/experiment_manager.go:350-364 | The resume list is exactly the repetitions without a completed run, rising. |
| ExperimentSafety.PlanResumes | danmu/distributed/ops/experiment_manager.go:343-375 | A record with something left to do is resumed at its least repetition without a completed run. |
| ExperimentSafety.DeriveSettled | danmu/distributed/ops/run.go:56-109 | For settled runs the counts add up, and each status is derived exactly under its condition. |
| ExperimentSafety.FinalizeGood | danmu/distributed/ops/experiment_manager.go:612-653 | Finalizing yields completed only when every repetition has a completed run. |
| ExperimentSafety.StepGood | danmu/distributed/ops/experiment_manager.go:378-591 | Every event keeps the records good: the active one has its active run running, one left by an earlier process some run, all others none, and each status fits its runs. |
| ExperimentSafety.RunsGood | danmu/distributed/ops/experiment_manager.go:378-591 | So does every sequence of events. |
| ExperimentRuns.OneRunning | danmu/distributed/ops/experiment_manager.go:343-591 | After a run of events at most one run is marked running, and it is the manager's active run, if and only if no new process came up while a run was active. |
| ExperimentRuns.StuckExactly | danmu/distributed/ops/experiment_manager.go:378-447 | A record comes to be marked running with nothing running it exactly when its process goes away while it is active; no event changes such a record. |
| ExperimentRuns.StuckForever | danmu/distributed/ops/experiment.go:240-248 | Once stuck, a record stays as it is through every later run of events. |
| ExperimentRuns.TwoRunningReached | danmu/distributed/ops/experiment_manager.go:378-423 | A run of events that ends with two records marked running, one of them stuck. |
| ExperimentRuns.IndexesDistinct | danmu/distributed/ops/experiment_manager.go:675-684 | Run indexes are distinct and within 1..repetitions. |
| ExperimentRuns.CompletedIsDone | danmu/distributed/ops/experiment_manager.go:612-653 | A completed record has a completed run for every repetition if and only if its runs were not dropped. |
| ExperimentRuns.VoidsExactly | danmu/distributed/ops/experiment_manager.go:392-413 | An event makes a truly completed record only nominally completed if and only if it is a start, with nothing active, of a record with a server configuration in a process without a server manager. |
| ExperimentRuns.VoidReached | danmu/distributed/ops/experiment_manager.go:392-413 | A run of events that reaches such a record. |
| ExperimentRuns.PlanStartsOver | danmu/distributed/ops/experiment_manager.go:343-375 | Everything is run again only for a record without runs, a created one or a completed one; the empty-list fallback is never reached. |
| ExperimentRuns.Untouched | danmu/distributed/ops/experiment_manager.go:378-591 | An event leaves the records of other experiments alone. |
| ExperimentRuns.CompletedRunKept | danmu/distributed/ops/experiment_manager.go:378-591 | No event changes a completed run or its result, except a start of a completed record. |
| ExperimentRuns.ResumeBegins | danmu/distributed/ops/experiment_manager.go:378-423 | A resume begins at the least repetition without a completed run. |
| ExperimentRuns.FinishContinues | danmu/distributed/ops/experiment_manager.go:567-591 | A finished run is followed only by the least repetition never tried, and the untried ones shrink by exactly that one. |
| ExperimentRuns.ContinuationEnds | danmu/distributed/ops/experiment_manager.go:567-609 | Whatever else is asked for, one finish more than there are untried repetitions leaves the runner free. |
| ExperimentOutcomes.FinishRecords | danmu/distributed/ops/experiment_manager.go:536-563 | The run that ends is recorded as stopped if and only if a stop was asked for, as completed, with its report, if and only if it ended without error, with one, and no stop, and otherwise as failed without a result. |
| ExperimentOutcomes.StopStops | danmu/distributed/ops/experiment_manager.go:426-442 | After a stop, when the run ends, however it ends, nothing more is started, and run and experiment are recorded as stopped. |
| ExperimentOutcomes.StopIsForOneRun | danmu/distributed/ops/experiment_manager.go:467-472 | A run counts as stopped if and only if a stop of its experiment came while it was active; no stop carries over to another run. |
| ExperimentOutcomes.LaunchFailureRecorded | danmu/distributed/ops/experiment_manager.go:474-497 | A launch that fails is recorded as a failed run, lets go of the runner and leaves the experiment neither running nor completed. |
| ExperimentOutcomes.ResultShown | danmu/distributed/ops/experiment_manager.go:621-633 | The experiment shows the aggregate's figures if and only if some repetition is completed. |
| ExperimentOutcomes.VoidReadsAsOneRun | danmu/distributed/ops/experiment_store.go:147-161 | A completed record without runs is read with one completed run, so it looks done if and only if one repetition was asked for. |
| ExperimentOutcomes.FreshStart | danmu/distributed/ops/experiment_manager.go:392-423 | Starting over begins with repetition 1 and no other run. |
| ExperimentOutcomes.StartWithoutServer | danmu/distributed/ops/experiment_manager.go:409-420 | Without a server manager a start that needs one changes no status; when the manager fails the experiment is recorded as failed; nothing is started either way. |
| ExperimentOutcomes.UndisturbedRun | danmu/distributed/ops/experiment_manager.go:378-653 | Created, started and left alone, an experiment runs every repetition once, in order, keeps each one's report, and is completed. |
| ExperimentManager.ExperimentManager.constructor | danmu/distributed/ops/experiment_manager.go:70-84 | A new process takes the records as it finds them: the restart event. |
| ExperimentManager.ExperimentManager.PlanStartRuns | danmu/distributed/ops/experiment_manager.go:343-375 | The loops compute the specified plan. |
| ExperimentManager.ExperimentManager.NextTodoIndex | danmu/distributed/ops/experiment_manager.go:597-609 | The loops compute the least untried repetition. |
| ExperimentManager.ExperimentManager.FindOrCreateRun | danmu/distributed/ops/experiment_manager.go:675-684 | Writing at the returned place is setting the run with this index. |
| ExperimentManager.ExperimentManager.BeginRun | danmu/distributed/ops/experiment_manager.go:445-500 | The new manager state is the specified one, whether or not the runner starts. |
| ExperimentManager.ExperimentManager.Start | danmu/distributed/ops/experiment_manager.go:378-423 | The new state is the specified one and all records stay good. |
| ExperimentManager.ExperimentManager.Stop | danmu/distributed/ops/experiment_manager.go:426-442 | Only the active experiment is marked for stopping. |
| ExperimentManager.ExperimentManager.FinishRun | danmu/distributed/ops/experiment_manager.go:504-587 | The new state is the specified one and all records stay good; `ExperimentOutcomes` says what it records and when it goes on. |
| SweepSpec.PlaceOfDigits | danmu/distributed/ops/sweep.go:320-341 | The mixed-radix digits of a place, last parameter fastest, give the place back. |
| SweepSpec.DigitsOfPlace | danmu/distributed/ops/sweep.go:320-341 | Every choice of values has its place in the product, so each combination occurs exactly once. |
| SweepSpec.ElementHolds | danmu/distributed/ops/sweep.go:320-388 | For distinct known names, configuration k holds for each parameter the value its digit of k selects, or the default if that value cannot be used. |
| SweepSpec.ElementUnset | danmu/distributed/ops/sweep.go:320-388 | Parameters that are not swept stay at their defaults. |
| SweepSpec.TotalRunsCapped | danmu/distributed/ops/sweep.go:129-175 | The stated cap on total runs holds for all accepted requests of n repetitions if and only if n is at most 3. |
| SweepSpec.TotalRunsUnbounded | danmu/distributed/ops/sweep.go:171-174 | Accepted requests exceed any number of total runs, the stated cap included. |
| Sweep.Validate | danmu/distributed/ops/sweep.go:129-175 | A request passes if and only if its parameters are non-empty, known, distinct, with 1 to 64 values, its regimes are known, and configurations times regimes is at most 32. It counts that product, and repetitions times it as total runs. |
| Sweep.ValidateParams | danmu/distributed/ops/sweep.go:130-157 | The running product, cut off early, decides the same as the whole product. |
| Sweep.Cartesian | danmu/distributed/ops/sweep.go:320-341 | The result has as many elements as the product of the value counts, and element k is the configuration at place k. |
| SweepSpec.LabelShows | danmu/distributed/ops/sweep.go:273-318 | The label of configuration k names every parameter in order by its short key, each with what its digit of k selects: the number it parses to, or the value. `Sweep.MakeLabel` computes this label. |
| SweepSpec.LabelTells | danmu/distributed/ops/sweep.go:273-318 | With no spaces in what is shown, two configurations of a sweep have the same label if and only if every parameter shows the same. |
| Sweep.BuildSweepPlan | danmu/distributed/ops/sweep.go:204-264 | A plan exists exactly for acceptable requests with a known architecture, has exactly ConfigCount units, at most 32, in configuration-then-regime order, and each unit's index rebuilds a configuration with the unit's label. Its total runs are its units times the repetitions. |
| Sweep.RebuildConfig | danmu/distributed/ops/sweep_manager.go:385-397 | The configuration at an index, or nothing exactly when the index is out of range. |
| Sweep.ConfigHolds | danmu/distributed/ops/sweep_manager.go:385-397 | The configuration at an index carries, for each parameter, the value that the digit of its place selects, or the default if that value cannot be used. |

## Left out

- TokenBucket.Config: rates of 2^31 and more, and capacities whose thousandfold does not fit 32 signed bits, where packing is not invertible (`UnpackPack`).
- Transport, serialization of messages, Kafka, Redis, etcd, HTTP, WebSocket, process control and persistence: I/O. A save or load that fails is not modelled.
- UTF-8 decoding: texts are sequences of runes.
- Failure links and children are node numbers in an arena instead of pointers to separately allocated nodes.
- ReplayProtocol.Step: `CloseRoom` resetting a room's counter, and the history sweep removing a room while an append is under way, because neither keeps the numbering or the history.
- ReplayProtocol.NoHole: a broadcast is a snapshot of the members; a full send buffer, which drops the message for that client, is not modelled.
- Counters of sequence numbers and connection ids do not wrap at 64 bits, nor do the delivery counts.
- RoomHist.SortBySeq: the order of entries with equal numbers is not specified, as the source's sort does not specify it.
- Hub.Hub.AddClient: calls of the hub are taken one at a time; interleaved inside one another the three indexes can disagree. `Sections` covers the counters under interleaving.
- MarkSeen runs before the queue insert in the monolith's read loop, so an acknowledged retry need not have been queued; the read loop is not modelled.
- Job.JobLoop.Flush: the delivery of a pushed payload to the receiving servers.
- ExperimentSpec.Step: a start of the runner that overlaps with another event; times, notes, environments and resource samples.
- ExperimentSpec.Migrate: only the parts that touch repetitions and runs.
- SweepSpec.Accepts: number formats (`Sscanf`) and trimming are arguments.
- The execution loop of sweeps, reports, rankings and every floating-point analysis.
- Slow mode, bans, pagination, word lists, session tokens, metrics and the front end: each is settled by reading one function.

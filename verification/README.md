# FASP harness and AIC bridge: a verified model

This project models the stateful algorithms on which the coordination harness rests, and proves
what they promise over every input, every interleaving and every run. `dafny verify dfyconfig.toml`
checks all of it.

| files | what they model |
|---|---|
| `Lease.dfy` | leader lease with fencing tokens: one shared row per role, every node's belief, every operation ever minted |
| `Canonical.dfy`, `CanonicalTheory.dfy`, `CanonicalForm.dfy` | the canonical JSON encoder, a parser that inverts it, and the exact form of its texts (sections 3.2.2 and 3.2.3 of RFC 8785) |
| `Stringify.dfy` | what a value becomes when it is written as JSON and read back |
| `Log.dfy`, `LogHistory.dfy` | the hash-chained log that several processes append to, and what it holds |
| `Outbox.dfy`, `OutboxTheory.dfy`, `OutboxRows.dfy` | the durable outbox: states, per-destination order, capacity, backoff and bounded retry, crash recovery |
| `RateLimit.dfy` | the token bucket with bounded memory, against an ideal limiter that forgets nothing |
| `ReplayGate.dfy`, `ReplaySteps.dfy` | the replay gate: threads with program counters, a claim set, a durable inbox, crashes |
| `Texts.dfy`, `Identity.dfy`, `IdentityChecks.dfy`, `IdentityHarness.dfy`, `IdentitySteps.dfy`, `IdentityLife.dfy` | the agent identity chain, its tiers and renewals, and the harness that maintains them |
| `Streaming.dfy`, `StreamIntegrity.dfy`, `StreamOrder.dfy`, `StreamDelivery.dfy` | fragmentation, bounded reassembly of intact fragments, ordered streams, and the three end to end |
| `Channels.dfy`, `ChannelSteps.dfy` | accounting of push channels, reservations and the byte budget |
| `Volatile.dfy` | the bounded replay window for lossy observations |
| `SendQueue.dfy` | the reconnecting send queue, with callbacks that re-enter it |
| `Executor.dfy`, `Histogram.dfy` | the drift-free cyclic executor, its virtual clock, and the timing histogram |
| `Validator.dfy` | the worklist JSON validator |

Code that updates state is a class whose methods are proved equal to a step function; the theorems
are about runs of those step functions. Clocks, jitter, handler outcomes, network behaviour,
socket buffers and callbacks are parameters, so the theorems hold whatever they do. Digests are an
arbitrary function that is assumed collision-free only where logs or chains are compared and where
an altered entry must be noticed (stream checksums are an injective constructor), signatures are
ideal and taken over canonical text, base64url is a bijection and each database transaction or
locked section is one atomic step. Numbers of seconds, tokens and
microseconds are real numbers.

## Where the code does less than its documentation

Each of these is kept as the code has it, with a concrete input or an exact condition.

- A log detail with an `undefined` member is digested as if it were null but is not written, so the
  log no longer verifies (`Log.AppendVerifiesExactly`).
- The same loss breaks the identity tiers: an `undefined` member in the operator, hardware or
  software stack is signed as null and not written, so the tier file does not verify until an update
  or rotation signs what was read back (`IdentityHarness.UndefinedMemberBreaksDetail`,
  `IdentityHarness.TierFilesVerifyExactly`).
- The log's constructor reads contents and size without the lock. If something is appended between
  the two and nothing after, the instance's next append breaks the chain
  (`Log.TornRescanIsSafeExactly`).
- Chain verification does not compare the agent id with the genesis key
  (`Identity.ForeignAgentIdVerifies`); the harness itself only builds chains where they agree.
- Two lease nodes configured with one node id both lead (`Lease.MutualExclusionExactly`). A leader
  flag may outlive its term in two ways, and only in these (`Lease.OverlapNeedsBrokenTerm`): a
  release has burnt the term, and its assignment is still to come or that of an earlier acquire came
  after it (`Lease.LateAssignmentOverlaps`); or two calls of the node wrote their clock readings in
  the wrong order (`Lease.StaleReadingOverlaps`). The guard refuses a burnt term always, and any
  term once it is superseded.
- `requeue_dead` can put a row ahead of an inflight one and ignores capacity
  (`OutboxTheory.RequeueKeepsOrderExactly`, `OutboxTheory.RequeueAddsToDepth`).
- A call that finds its message id claimed returns the recorded response without comparing
  envelopes, so a conflicting envelope gets another's response
  (`ReplayGate.ContestedCallGetsAnothersResponse`, `ReplayGate.LaterCallsReplay`).
- A fragment repeated after its frame was delivered opens the frame again and occupies a slot, and
  a repeated single-fragment frame is delivered twice (`Streaming.LateRepeatIsHarmlessExactly`).
- A stream that is not reliable acknowledges as duplicates sequences it never took
  (`StreamOrder.UnreliableStreamAcknowledgesUntaken`, `StreamOrder.DuplicateWasTakenExactly`).
- `unregister` under another peer's name can leave a registered connection without its reservation
  entry, on which the next push fails (`Channels.ForeignUnregisterIsSafeExactly`).
- A message of the volatile window is handled twice if the clock passes its expiry and goes back
  before it (`Volatile.RepeatNeedsRewind`, `Volatile.HandledAgainExactly`).
- `send` does not look at the closed flag again after flushing, so a frame is handed to a socket
  that a callback has just closed (`SendQueue.HandedOverOnClosedChannel`,
  `SendQueue.HandedOverClosedExactly`).
- One reconciliation with an adapter does not always end with the adapter's capabilities: older log
  entries win where adapter and declaration agree (`IdentityHarness.AdapterWinsExactly`); a second
  one does (`IdentityHarness.AdapterWinsInTwoRounds`).
- The comment at fasp_harness/realtime/scheduler.py:112-114 speaks of 34 buckets; the edges make 26.
  Negative samples are filed by their size (`Histogram.MisfiledExactly`).

## Model

| member | source | states |
|---|---|---|
| `Lease.LeaderLease.TryAcquire` | fasp_harness/edge/lease.py:116-150 | Inserts, renews or takes over the row exactly as the acquire transaction does, sets the node's belief to what it got, and what it got passes the guard at once (unless the time to live is zero) |
| `Lease.LeaderLease.Release` | fasp_harness/edge/lease.py:152-168 | Expires the row and burns its fence when the node holds it; afterwards no operation of the released term passes the guard at any time |
| `Lease.LeaderLease.Held` | fasp_harness/edge/lease.py:177-186 | Returns the believed operation exactly when there is one and it has not expired, with the error for each other case |
| `Lease.LeaderLease.Guard` | fasp_harness/edge/lease.py:188-201 | Succeeds exactly when the stored row has a fence no newer than the operation's, the same holder and an unexpired lease; a newer stored fence is reported as stale |
| `Lease.AcquireExactly` | fasp_harness/edge/lease.py:116-150 | A node gets the lease exactly if nobody has it, it has run out, or the node itself holds it; the fence is new exactly if the lease was free or had run out, so one fence is one uninterrupted term; no other role changes |
| `Lease.ReleaseExactly` | fasp_harness/edge/lease.py:152-168 | Only the holder's release does anything: the row has run out at once and its fence is spent |
| `Lease.FencingTheorem` | fasp_harness/edge/lease.py:116-201 | Over any run of transactions, delayed local assignments and guard checks by any number of nodes with arbitrary disagreeing clocks: no minted operation outruns the stored fence, equal fences have the same holder, and fences of passed guard checks never decrease |
| `Lease.GuardAcceptsOnlyStoredTerm` | fasp_harness/edge/lease.py:188-201 | In every reachable state a minted operation passes the guard if and only if it carries exactly the stored fence and the row is unexpired |
| `Lease.FenceNeverDecreases` | fasp_harness/edge/lease.py:116-168 | No run lowers a role's stored fence or removes its row |
| `Lease.SupersededTermNeverPasses` | fasp_harness/edge/lease.py:188-201 | Once the stored fence has moved past an operation, no continuation of the run lets it through the guard again |
| `Lease.MutualExclusion` | fasp_harness/edge/lease.py:143-186 | With one shared non-decreasing clock, atomic calls and distinct node ids, at most one node per role leads, and what a leader holds passes the guard |
| `Lease.SharedIdOverlaps` | fasp_harness/edge/lease.py:116-150 | Two nodes configured with the same id both lead after one call each |
| `Lease.MutualExclusionExactly` | fasp_harness/edge/lease.py:116-186 | At most one leader in every reachable state if and only if no two nodes of a role share an id |
| `Lease.ReleaseFailsOver` | fasp_harness/edge/lease.py:152-168 | When the leader gives the lease up, whoever of the role tries next leads and passes the guard at once, however long the lease would have lasted, and the released term does not pass |
| `Lease.ExpiryFailsOver` | fasp_harness/edge/lease.py:137-143 | Once the stored lease has run out, or if there is none, whoever tries next leads and passes the guard |
| `Lease.SplitAssignmentOverlaps` | fasp_harness/edge/lease.py:143-165 | When the local assignment is separated from the transaction, leader flags overlap in a concrete run, and the guard still refuses the old term and accepts the new one |
| `Lease.LeaderPassesExactly` | fasp_harness/edge/lease.py:116-201 | With the clock reading, the transaction and the assignment of every call at different times and any number of calls of a node outstanding: a leading node's operation is refused by the guard if a release has burnt its term, and passes if and only if none has, unless a renewal on an older reading has brought the stored expiry of the term forward |
| `Lease.OverlapNeedsBrokenTerm` | fasp_harness/edge/lease.py:143-186 | In such runs two nodes of a role with distinct ids lead at once only if one of them holds a term that was burnt or cut short |
| `Lease.LeaderPassesInOrder` | fasp_harness/edge/lease.py:116-201 | With distinct ids, and each node's transactions in the order of its clock readings, no term is ever cut short, so a leading node's operation passes the guard if and only if no release has burnt its term |
| `Lease.LateAssignmentOverlaps` | fasp_harness/edge/lease.py:221-244 | A concrete run: a node stops while its acquire is in flight, another node takes over, then the late assignment arrives; both lead with no call outstanding, and the guard refuses the first and accepts the second |
| `Lease.StaleReadingOverlaps` | fasp_harness/edge/lease.py:116-146 | A concrete run without a release: of two calls of one node the older clock reading is written last and shortens the row, another node takes over, and both lead with no call outstanding; the guard refuses the first and accepts the second |
| `Canonical.SortKeeps` | bridge_core/crypto.ts:75-79 | Key sorting orders the keys and keeps every key with its value |
| `Canonical.SortOrdersByUnits` | bridge_core/crypto.ts:77-77 | Of any two keys in the sorted list, the earlier agrees with the later up to a place where it ends or has the smaller UTF-16 code unit; the list is a permutation of the members |
| `Canonical.SortedIsUnique` | bridge_core/crypto.ts:75-79 | Two sorted member lists with the same contents are equal, so the encoder's order is canonical |
| `CanonicalTheory.ReadsBack` | bridge_core/crypto.ts:60-84 | A parser reads the encoding of every value in normal form back, in every context where a value may stand |
| `CanonicalTheory.RoundTrip` | bridge_core/crypto.ts:60-88 | Parsing the canonical text of any value of the domain yields that value in normal form, which has the same meaning |
| `CanonicalTheory.SameTextIffSameMeaning` | bridge_core/crypto.ts:60-88 | Injectivity: two values of the domain have the same canonical text if and only if they mean the same |
| `CanonicalTheory.InsertionOrderIsIrrelevant` | bridge_core/crypto.ts:75-79 | Objects with the same members in any insertion order have the same text |
| `CanonicalTheory.EncodeIsWellFormed` | bridge_core/crypto.ts:60-88 | Canonical texts never contain half a surrogate pair, so their UTF-8 form is faithful |
| `CanonicalForm.ObjectForm` | bridge_core/crypto.ts:75-79 | The text of an object is its members' texts, each with its own value, in the order of their keys' code units, between braces and separated by commas |
| `CanonicalForm.Separators` | bridge_core/crypto.ts:73-78 | One comma between two items or members, and a quoted key and a colon before a member's value |
| `CanonicalForm.QuoteSplitsAt` | bridge_core/crypto.ts:71-71 | Strings are quoted apart at every point that splits no surrogate pair |
| `CanonicalForm.RawIsItself` | bridge_core/crypto.ts:71-71 | Well-formed text without control characters, quotes and backslashes is written as it is, surrogate pairs included |
| `CanonicalForm.EscapesAreShort` | bridge_core/crypto.ts:71-71 | A unit with a short JSON escape gets it; other control units and halves of pairs get four lower-case hexadecimal digits of their value; the rest is written as it is (section 3.2.2.2 of RFC 8785) |
| `CanonicalForm.PairsStayWhole` | bridge_core/crypto.ts:71-71 | Two code units are written as they are if and only if they are a surrogate pair; otherwise the first is quoted by itself (section 3.2.2.2 of RFC 8785) |
| `CanonicalForm.NumberForm` | bridge_core/crypto.ts:63-69 | A number is its decimal digits without leading zeros, after a minus sign if and only if it is negative |
| `CanonicalForm.Words` | bridge_core/crypto.ts:61-62 | true, false and null are spelled so, undefined is spelled null, and empty lists and objects are bare brackets |
| `Log.AppendOnlyLog.constructor` | bridge_core/log.ts:108-111 | A new instance caches the sequence number, digest and size of the file it opens |
| `Log.AppendOnlyLog.RefreshFromDisk` | bridge_core/log.ts:113-125 | The scan leaves exactly the cache of the file's last entry and size |
| `Log.AppendOnlyLog.Append` | bridge_core/log.ts:127-148 | Under the lock: catch up if the size differs, then append one chained entry with the given time, kind and written detail, digested over the given ones; refuses details the encoder refuses, without a change |
| `Log.AppendOnlyLog.Verify` | bridge_core/log.ts:163-190 | Succeeds if and only if every entry has its place's number, its predecessor's digest and its own body's digest; the error names the fault of the first entry that is not in order |
| `Log.MatchingSizeMeansMatchingCache` | bridge_core/log.ts:98-106 | The size comparison is exact: a cache left by some prefix of the file whose size equals the file's is the cache of the whole file |
| `Log.CacheIsExact` | bridge_core/log.ts:113-148 | For any number of instances and any interleaving of openings and locked appends, a cache whose size equals the file's size holds the file's next sequence number and last digest |
| `Stringify.StoredKeepsMeaningExactly` | bridge_core/log.ts:141-142 | Writing plain data as JSON and reading it back keeps its meaning if and only if no object in it has an undefined member |
| `Stringify.StoredKeepsText` | bridge_core/fsjson.ts:38-44 | Plain data without undefined members have the same canonical text before and after, so every digest and signature of them survives |
| `Stringify.StoredKeepsTextExactly` | bridge_core/fsjson.ts:38-44 | For plain data in the encoder's domain the canonical text survives if and only if there is no undefined member |
| `Stringify.StoredIsClean` | bridge_core/fsjson.ts:21-44 | What was read back has no undefined member, so writing it again loses nothing more |
| `Stringify.WrittenMemberByMember` | bridge_core/fsjson.ts:38-44 | Plain data are written member by member in order: an undefined member is left out, every other keeps its key, lists keep their length, and what has no parts stays as it is |
| `Log.AppendsVerify` | bridge_core/log.ts:127-190 | For every digest function, every interleaving of openings and appends leaves a file that verifies, provided no accepted detail has an undefined member |
| `Log.AppendVerifiesExactly` | bridge_core/log.ts:127-190 | One more append of a plain detail keeps the file verifying if and only if the detail has no undefined member, which is digested as null but not written |
| `LogHistory.LogIsHistory` | bridge_core/log.ts:127-147 | Over any interleaving of openings and locked appends by any number of instances, line k holds the time, kind and written detail of the k-th accepted append, is numbered k, and is chained by a digest over exactly these fields; there are no other lines |
| `Log.FinalDigestDeterminesLog` | bridge_core/log.ts:163-190 | Under a collision-free digest two verifying logs that end in the same digest agree in every entry |
| `Log.TornRescanIsSafeExactly` | bridge_core/log.ts:108-148 | After the unlocked two-step refresh the instance's next append keeps the file verifying if and only if nothing was appended between reading the contents and reading the size, or something was appended after that |
| `Outbox.DurableOutbox.Enqueue` | fasp_harness/edge/outbox.py:100-145 | Refuses malformed, expired, conflicting and over-capacity messages, returns the existing row for an identical one, and otherwise adds a pending row under a new highest id |
| `Outbox.DurableOutbox.RecoverInflight` | fasp_harness/edge/outbox.py:148-161 | Every inflight row becomes pending and due now; the count is the number of those rows |
| `Outbox.DurableOutbox.ClaimReady` | fasp_harness/edge/outbox.py:163-195 | Expires, purges, then marks inflight the due head rows of each destination in id order up to the limit, and returns exactly those (which rows that are: OutboxRows.ClaimsExactlyDue) |
| `Outbox.DurableOutbox.MarkFailed` | fasp_harness/edge/outbox.py:226-242 | Counts the attempt and either buries the row or schedules its retry, and reports which |
| `Outbox.DurableOutbox.Flush` | fasp_harness/edge/outbox.py:244-266 | Claims and settles every claimed message, failures at their own clock readings; the sent count is the number delivered, and sent, retried and dead add up to the attempts |
| `OutboxRows.ClaimsExactlyDue` | fasp_harness/edge/outbox.py:179-190 | A claim hands out only rows that are pending, unexpired, due and the lowest undelivered unexpired row of their destination, lowest id first; it leaves such a row only when the limit is reached, and then one above all that it takes |
| `OutboxRows.ClaimChanges` | fasp_harness/edge/outbox.py:177-192 | Row by row after a claim: expired pending rows are dead, old sent rows are gone, claimed rows are inflight, all others are untouched |
| `OutboxRows.BackoffIsRespected` | fasp_harness/edge/outbox.py:185-185 | Over any run, as long as no claim reads the clock at or past a pending row's due time and nobody reports another failure of it, no claim hands it out |
| `OutboxRows.FailedRowWaits` | fasp_harness/edge/outbox.py:185-242 | In particular a row that failed and is to be retried is in no handout before its retry is due |
| `OutboxRows.FailExactly` | fasp_harness/edge/outbox.py:226-242 | A failure report counts the attempt; the last permitted one buries the row, any other makes it due after the jittered share of the ceiling in whole milliseconds; nothing else of the row or the table changes |
| `OutboxRows.BackoffDoubles` | fasp_harness/edge/outbox.py:237-237 | The ceiling starts at the base and doubles with every failure until it reaches the cap |
| `OutboxRows.FlushSettles` | fasp_harness/edge/outbox.py:244-266 | After a flush every claimed message that got through is sent, every other claimed one has one attempt more and is dead or due later by its own clock reading, and what was not claimed is as the claim left it |
| `OutboxRows.EnqueueRefuses` | fasp_harness/edge/outbox.py:100-117 | Unusable envelopes and those past a deadline are refused, in this order, without a change |
| `OutboxRows.EnqueueRepeats` | fasp_harness/edge/outbox.py:119-126 | A known message id is acknowledged under its row if destination and envelope are the same, and otherwise a conflict; nothing changes |
| `OutboxRows.EnqueueStores` | fasp_harness/edge/outbox.py:127-145 | A new message is refused exactly when the undelivered messages fill the capacity, and otherwise stored under the next id, pending, due after the delay, expiring at the earlier of the signed deadline and the time to live |
| `OutboxRows.StepRecords` | fasp_harness/edge/outbox.py:163-195 | In a run exactly the rows of each claim are added to the handouts, with the destination, time and expiry they had |
| `OutboxRows.StepRecoversAndPurges` | fasp_harness/edge/outbox.py:148-161 | In a run a recovery makes exactly the inflight rows pending and due, a purge deletes exactly the old sent rows, and neither touches another |
| `OutboxRows.AttemptsAreClaims` | fasp_harness/edge/outbox.py:244-266 | The attempts of a drain are the claims of its rounds, each made on what the rounds before it left |
| `OutboxTheory.OrderingTheorem` | fasp_harness/edge/outbox.py:148-242 | Over every run with crashes and recoveries: at most one inflight row per destination, it is the lowest live one, ids handed out per destination never decrease, nothing is handed out expired |
| `OutboxTheory.ClaimNeverOvertakes` | fasp_harness/edge/outbox.py:163-195 | A claim in any reachable state takes only pending unexpired rows whose retry is due, with no live unexpired earlier row for their destination |
| `OutboxTheory.RequeueKeepsOrderExactly` | fasp_harness/edge/outbox.py:280-293 | Reviving dead rows keeps the order if and only if none of them is lower than an inflight row of its destination |
| `OutboxTheory.RequeueCanOvertake` | fasp_harness/edge/outbox.py:280-293 | A run from the empty outbox after which a requeue puts a live row ahead of an inflight one: the first message is rejected, the second is on its way, the first is requeued |
| `OutboxTheory.RequeueAddsToDepth` | fasp_harness/edge/outbox.py:280-293 | Requeueing raises the number of undelivered rows by exactly the dead rows it selects, whatever the capacity |
| `OutboxTheory.StrayFailureKeepsOrderExactly` | fasp_harness/edge/outbox.py:226-242 | A failure reported for a row that is no longer live keeps the order if and only if it buries the row or the row overtakes nothing |
| `OutboxTheory.BoundsTheorem` | fasp_harness/edge/outbox.py:100-242 | Over every run: undelivered rows fit the capacity, live rows have attempts left, a message id names one row |
| `OutboxTheory.NothingUndeliveredDisappears` | fasp_harness/edge/outbox.py:148-242 | A row that is gone or marked sent was reported sent at some event of the run |
| `OutboxTheory.RetryIsBounded` | fasp_harness/edge/outbox.py:226-242 | A failed row is dead exactly when its attempts are used up; otherwise its retry lies between now and now plus the capped exponential backoff |
| `OutboxTheory.FlushSpends` | fasp_harness/edge/outbox.py:244-266 | A flush spends at least one unit of the summed remaining attempts for each message it attempts |
| `OutboxTheory.DrainingEnds` | fasp_harness/edge/outbox.py:244-266 | Any number of flushes makes at most as many attempts as the remaining attempts at the start |
| `OutboxTheory.LateRoundProgresses` | fasp_harness/edge/outbox.py:163-266 | A round that comes when every pending row is due spends an attempt or leaves nothing undelivered, and leaves nothing inflight |
| `OutboxTheory.EnoughRoundsEmptyTheOutbox` | fasp_harness/edge/outbox.py:163-266 | After as many such rounds as there are attempts left, whatever gets through, every message is sent or dead |
| `RateLimit.TokenBucketLimiter.Allow` | fasp_harness/policy/ratelimit.py:38-62 | Evicts, refills, moves to the end and pays exactly as specified, and answers whether a token was there |
| `RateLimit.AllowKeepsValid` | fasp_harness/policy/ratelimit.py:38-62 | Every call keeps: at most max_keys distinct buckets, balances in range, dictionary order equal to last-refill order |
| `RateLimit.CapacityRefusalExactly` | fasp_harness/policy/ratelimit.py:43-50 | A call is refused for want of room if and only if its key is untracked, the table is full and no tracked bucket at all has been idle long enough to replenish, although only the first is examined |
| `RateLimit.OthersDoNotMatter` | fasp_harness/policy/ratelimit.py:38-62 | A call by another key, eviction included, leaves what a key can spend now and at any later time unchanged |
| `RateLimit.OwnCallPays` | fasp_harness/policy/ratelimit.py:53-62 | A call is admitted exactly when a whole token is available, and pays exactly one |
| `RateLimit.RefillInStages` | fasp_harness/policy/ratelimit.py:55-57 | Refilling at one time and again later gives what refilling once at the later time gives, so looking does not cost or earn tokens |
| `RateLimit.AllowRefinesIdeal` | fasp_harness/policy/ratelimit.py:38-62 | Each call that finds room gets the answer of an ideal limiter that never forgets a key, and the two still agree afterwards |
| `RateLimit.AnswersAreIdeal` | fasp_harness/policy/ratelimit.py:38-62 | After any past, a call that finds room is answered as the ideal limiter answers it |
| `RateLimit.RateBound` | fasp_harness/policy/ratelimit.py:38-62 | In every window of calls after any past, the number of admitted calls by one key is at most burst + rate x length, whatever other keys do |
| `RateLimit.BalanceGrows` | fasp_harness/policy/ratelimit.py:38-62 | Between calls a key's balance grows at exactly the rate until it is full |
| `RateLimit.SpacedCallIsAdmitted` | fasp_harness/policy/ratelimit.py:38-62 | A tracked key that has waited for one token since its last call is never refused |
| `ReplayGate.Gate.ClaimMessage` | fasp_harness/core.py:632-638 | Claims an id exactly when nobody holds it |
| `ReplayGate.Gate.ReleaseMessage` | fasp_harness/core.py:640-642 | Gives up the claim of an id and no other |
| `ReplayGate.Gate.Accept` | fasp_harness/core.py:598-630 | The row, answer and handler run of one uncontested or contested call, for every way the handler can end: it runs exactly for a message that nobody else handles and that is new or never answered, and a reply or refusal is recorded, a rejection forgotten, a failure left unanswered; claims are as before |
| `ReplayGate.SixStepsAreAccept` | fasp_harness/core.py:598-630 | The six-step thread, left alone, does exactly what the sequential call does |
| `ReplaySteps.HeartbeatAlone` | fasp_harness/core.py:590-597 | A heartbeat that nobody interferes with: a new one is stored and answered with its reply, a repeated one answered with what is recorded, another envelope under its id is a conflict; no claim is taken |
| `ReplaySteps.CountersCount` | fasp_harness/core.py:598-630 | The run counters count what they say: runs begin where a thread comes to dispatch, and are rejected or failed where it records such an end; nothing else moves them |
| `ReplayGate.AtMostOneDispatch` | fasp_harness/core.py:598-642 | In every reachable state of any threads, envelopes, outcomes and crashes, two threads inside a handler have different message ids |
| `ReplayGate.RecordedNeverChanges` | fasp_harness/core.py:606-628 | Once recorded, a response is the same in every continuation, crashes included |
| `ReplayGate.LaterCallsReplay` | fasp_harness/core.py:599-612 | A call, other than a heartbeat, that begins after a response was recorded never runs the handler and ends with that response, except that a different envelope is answered with a conflict if and only if the call did not find its id claimed |
| `ReplayGate.HandlerRunsAreBounded` | fasp_harness/core.py:598-642 | Handler runs per message id are at most one plus crashes, admission refusals and unexpected exceptions; heartbeats, which are handled on every delivery, are not counted |
| `ReplayGate.ContestedCallGetsAnothersResponse` | fasp_harness/core.py:599-604 | A concrete run in which a call with other content under a claimed id is answered with the response recorded for the first envelope |
| `Identity.CategoriesAreExact` | bridge_core/tiers.ts:44-53 | The derived categories are in the order of their code units without repetition and are exactly the categories of the non-empty declared capabilities |
| `Identity.CategoryIsFirstSegment` | bridge_core/tiers.ts:47-50 | A category is what precedes the first dot of a capability, or all of it |
| `Identity.VerifyChain` | bridge_core/epoch.ts:222-229 | The loop accepts a chain exactly when the genesis epoch and every successor verify |
| `Identity.ChainNumbers` | bridge_core/epoch.ts:155-229 | In a verifying chain epoch i has number i and the first epoch's agent id |
| `Identity.LastEpochDeterminesChain` | bridge_core/epoch.ts:206-229 | Under a collision-free digest the last epoch determines the whole verifying chain |
| `Identity.KeyIsInCustody` | bridge_core/epoch.ts:155-229 | In a verifying chain the key of every epoch is reached from the genesis key by the rotations up to it, each signed by the key before and by the new key |
| `Identity.ForeignAgentIdVerifies` | bridge_core/epoch.ts:155-229 | Any agent id over any genesis key has a chain that verifies, because verification does not compare the two |
| `Identity.DetailSurvivesExactly` | bridge_core/tiers.ts:82-135 | A verifying detail of plain data still verifies after it was written and read back if and only if its operator has no undefined member |
| `Identity.SensitiveSurvivesExactly` | bridge_core/tiers.ts:168-209 | The same for sensitive content and its hardware and software stack |
| `IdentityHarness.ReplayLoop` | bridge_core/harness.ts:583-598 | The loop over log entries computes the replayed set |
| `IdentityHarness.ReplaySetIsExact` | bridge_core/harness.ts:583-598 | A value is in the replayed set if and only if the log's last word on it adds it, or the log is silent and the baseline has it |
| `IdentityHarness.AgentHarness.BootstrapIdentity` | bridge_core/harness.ts:161-223 | Fails exactly when already bootstrapped or when the encoder refuses a given object, and then changes nothing; otherwise stores a verifying genesis epoch and the tiers as their files hold them, field by field from the profile, with a renewal of a day |
| `IdentityHarness.BootstrapVerifiesExactly` | bridge_core/harness.ts:161-223 | Right after bootstrap from plain data the tier files verify if the given objects have no undefined member, and in the encoder's domain only if |
| `IdentityHarness.UndefinedMemberBreaksDetail` | bridge_core/harness.ts:161-223 | A concrete operator with an undefined member whose detail file does not verify after bootstrap |
| `IdentityHarness.AgentHarness.CommitNewEpoch` | bridge_core/harness.ts:323-333 | Appends the epoch and stores its tiers and a renewal |
| `IdentityHarness.AgentHarness.UpdateDeclared` | bridge_core/harness.ts:248-285 | Adds one epoch with the new capabilities and limitations and everything else carried over field by field: names, operator, protocols, sensitive tier; the whole store verifies afterwards, tier files included, even if they did not before |
| `IdentityHarness.AgentHarness.Rotate` | bridge_core/harness.ts:287-321 | Adds one epoch under the new key and stores that key, with both tiers carried over field by field under the next number; the whole store verifies afterwards, tier files included |
| `IdentityHarness.RotateWrites` | bridge_core/harness.ts:287-321 | A rotation re-signs the tiers it read back: agent id, capabilities, operator, protocols, limitations and issue time, and all sensitive fields, are those before, the number is one more and the signer is the new key; the epoch keeps the names |
| `IdentityHarness.UpdateWrites` | bridge_core/harness.ts:248-285 | An update changes capabilities, limitations and issue time of the detail only; operator, protocols, the sensitive tier and the epoch's names are those before |
| `IdentityHarness.BootstrapWrites` | bridge_core/harness.ts:178-215 | What bootstrap writes, field by field from the profile, with null or empty objects for what is not given |
| `IdentityLife.FoundingStays` | bridge_core/harness.ts:161-421 | After any operations at all, every epoch bears the founding profile's names, and the stored tiers have its protocols, model and version and the texts its operator, hardware and software stack had when first written |
| `IdentityChecks.VerifiedDetailSays` | bridge_core/tiers.ts:82-135 | A verifying detail names the epoch, is signed by its key and digested over the text of exactly these fields, and falls in its categories |
| `IdentityChecks.VerifiedSensitiveSays` | bridge_core/tiers.ts:168-209 | The same for sensitive content |
| `IdentityChecks.VerifiedEpochSays` | bridge_core/epoch.ts:155-229 | In a verifying chain every epoch is signed by its own key over its own fields, the first is a genesis with number 0 and no predecessor, each next one carries the digest, agent id and next number of the one before, and a new key comes only with a rotation that the old key signed |
| `IdentityChecks.RenewalVerifiesExactly` | bridge_core/renewal.ts:59-101 | A renewal verifies if and only if it names the agent and the digest of this epoch, is signed by its key, and the time lies between a minute before its issue and its end |
| `IdentityChecks.RenewExactly` | bridge_core/renewal.ts:30-57 | A renewal is made exactly for the holder of the epoch's key and at most seven days, runs from now for that long, and is bound to the epoch |
| `IdentityChecks.SuccessorRefusals` | bridge_core/epoch.ts:80-135 | A successor is refused, in this order, for a prior epoch that its key did not sign, a key that is not the prior epoch's, and tiers that do not carry the next number and the same agent; and for nothing else |
| `IdentityChecks.SuccessorSays` | bridge_core/epoch.ts:80-135 | A successor carries the names of the epoch before and the digests of its own tiers, is signed by its own key, and by the key before if and only if it hands over |
| `IdentityHarness.AgentHarness.KeepLive` | bridge_core/harness.ts:225-246 | With an acceptable validity always ends with a renewal that verifies now; a validity over the maximum fails without a change |
| `IdentityHarness.AgentHarness.ReconcileLog` | bridge_core/harness.ts:340-421 | Logs adapter differences, reports the reconciled sets, applies them on request and keeps the store verifying |
| `IdentityHarness.IdentityTheorem` | bridge_core/harness.ts:161-421 | After any sequence of bootstrap, updates, rotations, renewals and reconciliations: there is an identity exactly when some bootstrap could be encoded, the chain verifies under the id of its genesis key, the stored key is the last epoch's, and the renewal verifies at exactly the times from a minute before issue to expiry |
| `IdentityHarness.TierFilesVerifyExactly` | bridge_core/harness.ts:161-421 | The stored tier 2 and tier 3 verify against the last epoch after any epoch later than the genesis, and before that if the founding profile, plain data, has no undefined member, in the encoder's domain only if |
| `IdentityHarness.EnsureLiveKeeps` | bridge_core/harness.ts:225-246 | For any acceptable validity the renewal kept or issued verifies now, and the store stays verifying |
| `IdentityHarness.RenewKeeps` | bridge_core/renewal.ts:30-57 | Renewing succeeds exactly when the validity is within the maximum, runs from now for that long, and keeps the store verifying |
| `IdentityHarness.ReplayIsIdempotent` | bridge_core/harness.ts:583-598 | Replaying a log onto its own result gives that result |
| `IdentityHarness.ReconciliationSettles` | bridge_core/harness.ts:340-421 | Reconciling again with nothing new in the log changes nothing, whether or not an adapter took part before |
| `IdentityHarness.AdapterWinsInTwoRounds` | bridge_core/harness.ts:340-421 | With an adapter whose capabilities stay the same, after two applied rounds the declared capabilities are the live ones and a third round changes nothing, whatever the log said |
| `IdentityHarness.AdapterWinsExactly` | bridge_core/harness.ts:340-421 | Reconciliation yields exactly the adapter's live capabilities if and only if no older log entry contradicts what adapter and declaration already agree on |
| `IdentityHarness.BootstrapRefuses` | bridge_core/harness.ts:177-223 | Bootstrap is refused for a second identity and for fields the encoder rejects, in this order and for nothing else; it adds no capability or limitation entry and keeps a tier 3 file it is given nothing for |
| `IdentityHarness.CommitWrites` | bridge_core/harness.ts:323-333 | Committing adds the epoch, writes its detail and tier 3 file, keeps the rest, and issues a renewal of a day that verifies now, if and only if the key is the epoch's |
| `IdentitySteps.UnfoundedRefuses` | bridge_core/harness.ts:101-135 | Without an identity, a chain and a detail every operation but bootstrap is refused |
| `IdentitySteps.RenewedOnlyWhenDue` | bridge_core/harness.ts:225-246 | A renewal that verifies now is kept as it is; otherwise one dated now is issued, or refused for its length |
| `IdentitySteps.MintsExactly` | bridge_core/harness.ts:340-421 | Reconciliation mints an epoch if and only if it is told to and a list changed as a bag; it holds the reported lists and the old other fields, and otherwise only the log grows |
| `IdentitySteps.AdapterLogsExactly` | bridge_core/harness.ts:359-379 | The adapter's entries: in increasing order what it has and the card does not, once each, then what the card has and it does not, as often as listed |
| `IdentitySteps.ReportsLastWord` | bridge_core/harness.ts:381-394 | Every reported value is decided by the last word of the extended log about it, and else by the declared list |
| `Streaming.Packetize` | fasp_harness/streaming.py:49-80 | Accepts exactly the documented inputs; the packets carry consecutive sequence and fragment numbers, the frame id, the count, their chunk and its own checksum, and their chunks concatenate to the data |
| `Streaming.CountIsCeiling` | fasp_harness/streaming.py:58-58 | The number of chunks is the length over the packet size rounded up, at least one |
| `Streaming.Reassembler.Add` | fasp_harness/streaming.py:93-120 | One packet: every refusal in the source's order, storing, delivering or dropping the frame |
| `StreamIntegrity.RefusedExactly` | fasp_harness/streaming.py:36-104 | A packet whose payload is missing or too large, or whose numbering or frame id is out of bounds, is an invalid fragment; one of the right size whose checksum is not its payload's is a checksum mismatch, and only such a one; a refused packet changes nothing, and an accepted one is intact |
| `StreamIntegrity.TurnedAway` | fasp_harness/streaming.py:105-109 | An intact packet of a new frame is refused when the table is full, and one with another count than its frame's is invalid; nothing changes |
| `StreamIntegrity.LetIn` | fasp_harness/streaming.py:107-120 | Otherwise the first payload of each index is kept; a frame over the byte limit is dropped, one with every index is handed out joined and dropped, and no other frame changes |
| `StreamIntegrity.Integrity` | fasp_harness/streaming.py:93-120 | After any packets at all, whatever the reassembler holds or hands out is made of fragments each of which some packet carried for that frame and index with the checksum of exactly these bytes |
| `Streaming.JoinParts` | fasp_harness/streaming.py:118-118 | Joining the parts in index order yields their concatenation, as long as their recorded sum |
| `Streaming.FullExactly` | fasp_harness/streaming.py:116-116 | Comparing the number of parts with the count is the same as having every index |
| `Streaming.AddKeepsValid` | fasp_harness/streaming.py:93-120 | Any packet keeps: frames within the inflight limit, each incomplete, in range, with recorded bytes equal to the sum of its parts and within the byte limit; deliveries respect the byte limit |
| `Streaming.MemoryBound` | fasp_harness/streaming.py:83-120 | After any packets at all total buffering is at most max_frame_bytes x max_inflight_frames |
| `Streaming.FragmentRoundTrip` | fasp_harness/streaming.py:93-120 | However a frame was cut, and in whatever order and multiplicity its fragments arrive among arbitrary other packets, a fragment of the incomplete frame is answered with the data exactly when it was the last one missing, and that frees the slot |
| `Streaming.AcceptedExactly` | fasp_harness/streaming.py:50-60 | Data are cut if and only if the piece size is between 1 and the packet limit, the data are at most 4 MiB and at most 512 times the piece size, and JSON fits in one piece |
| `Streaming.PacketizeRoundTrip` | fasp_harness/streaming.py:49-120 | The same for what packetize emits: exactly the original bytes, exactly when the last missing fragment arrives |
| `Streaming.LateRepeatIsHarmlessExactly` | fasp_harness/streaming.py:105-120 | A fragment repeated after delivery leaves the table unchanged if and only if the frame has one fragment or there is no room; with one fragment the data are delivered again |
| `StreamOrder.MemoryStream.Packet` | fasp_harness/streaming.py:203-265 | One packet's credit, duplicate, order and rate checks, and the advance of the stream's record |
| `StreamOrder.PacketExactly` | fasp_harness/streaming.py:228-265 | Which packets are taken, and how the others are answered: duplicates below the expected sequence, credit and order on a reliable stream, the rate, and what can no longer be recorded; only a taken packet changes the record |
| `StreamOrder.RunTracks` | fasp_harness/streaming.py:236-265 | Over any arrivals and clock readings the sequences taken strictly increase, are 0, 1, 2, ... without a gap on a reliable stream, agree with the record, and are at least the contract's interval apart |
| `StreamOrder.AcceptedRateIsBounded` | fasp_harness/streaming.py:242-248 | Between any two packets taken lie at least as many intervals as places between them |
| `StreamOrder.ReliableTakesPrefix` | fasp_harness/streaming.py:236-265 | Whatever a network loses, repeats and reorders, a reliable stream has taken exactly a prefix of the sender's packets, each once |
| `StreamOrder.RetransmissionDelivers` | fasp_harness/streaming.py:236-265 | If good copies of the first packets arrive in order, each later by the interval than everything before it, all of them are taken, whatever else was lost, repeated or refused in between |
| `StreamOrder.ArrivalSkipsExactly` | fasp_harness/streaming.py:238-250 | One more arrival leaves every sequence below the next expected one taken if and only if it was so before and the arrival is not taken ahead of the expected sequence |
| `StreamOrder.DuplicateWasTakenExactly` | fasp_harness/streaming.py:238-250 | Over any run, everything acknowledged as a duplicate was really taken if and only if no arrival was taken ahead of the sequence expected at its time; a reliable stream takes none ahead |
| `StreamOrder.UnreliableStreamAcknowledgesUntaken` | fasp_harness/streaming.py:238-250 | A concrete unreliable stream that takes number 5 and then acknowledges number 3, which it never took |
| `StreamDelivery.FrameComesOut` | fasp_harness/streaming.py:93-120 | A frame fed in order comes out once and leaves the table as it was |
| `StreamDelivery.EndToEnd` | fasp_harness/streaming.py:49-265 | Frames sent one after the other over any network through a reliable stream into a reassembler come out, at any time, as exactly the data of the frames whose last fragment was taken, in order and once each, and the reassembler is left with the taken fragments of the next frame and nothing else |
| `Channels.ConnectionRegistry.RegisterChannel` | fasp_harness/channels.py:54-65 | Registers within the connection and per-peer limits, refuses a connection that is still known |
| `Channels.ConnectionRegistry.UnregisterChannel` | fasp_harness/channels.py:67-80 | Drops the connection and, only if nothing is pending on it, its reservation entry |
| `Channels.ConnectionRegistry.Disconnect` | fasp_harness/channels.py:86-97 | Removes exactly the peer's connections and frees no reservation |
| `Channels.ConnectionRegistry.Reserve` | fasp_harness/channels.py:129-142 | Reserves or drops once for every connection of the peer, in some order; true exactly when something was reserved |
| `Channels.ConnectionRegistry.Release` | fasp_harness/channels.py:153-159 | Gives back one send's count and bytes and forgets a connection that is gone and idle |
| `ChannelSteps.RegisterExactly` | fasp_harness/channels.py:54-65 | A registration succeeds for a channel the peer has, and else exactly if the connection is unknown and both limits leave room; then it is the peer's, idle, with a lock |
| `ChannelSteps.UnregisterExactly` | fasp_harness/channels.py:67-80 | Exactly the named pair goes; what is known of the connection goes exactly if no send of it is pending; an unknown peer changes nothing |
| `ChannelSteps.ReleaseExactly` | fasp_harness/channels.py:153-159 | A release returns the send's own count and bytes, and forgets the connection exactly if that was its last and the peer no longer has it |
| `ChannelSteps.PushExactly` | fasp_harness/channels.py:129-142 | In the order of the visits, a push reserves a connection exactly if it has a place left and the bytes pending before the push, those of its reservations so far, and these fit the budget, and hands its send on |
| `ChannelSteps.PushSoFar` | fasp_harness/channels.py:129-142 | Each other connection is one drop; bytes and drops add up, and no connection that was not visited changes |
| `Channels.AccountingTheorem` | fasp_harness/channels.py:54-175 | In every state of every interleaving: pending counts equal outstanding sends, the byte counter equals the sum of their sizes, pending and lock maps have the same keys, all four bounds hold, and every release finds its reservation |
| `Channels.OnlyFinishFreesBudget` | fasp_harness/channels.py:67-80 | The byte counter falls only when a send finishes, by that send's size; reconnecting never frees budget |
| `Channels.ReserveEachKeeps` | fasp_harness/channels.py:133-140 | A push keeps the invariant, and drops plus reservations add up to the peer's connections |
| `Channels.ForeignUnregisterIsSafeExactly` | fasp_harness/channels.py:67-80 | Unregistering under another peer's name keeps the registry consistent if and only if that peer has no channel or the connection has sends pending |
| `Channels.ForeignUnregisterBreaks` | fasp_harness/channels.py:67-80 | From the empty registry two peers register a channel each; a call of the one that names the other's channel leaves it registered without its reservation entry |
| `Volatile.VolatileInbox.Accept` | fasp_harness/protocol/volatile.py:33-51 | Purges what is due, then expires, deduplicates, refuses or handles exactly as specified |
| `Volatile.PurgeIsExact` | fasp_harness/protocol/volatile.py:36-38 | The purge drops exactly the entries that are due and keeps the rest unchanged |
| `Volatile.AcceptKeepsValid` | fasp_harness/protocol/volatile.py:33-51 | Every call keeps: dictionary and expiry queue hold the same ids once each, in expiry order, within capacity |
| `Volatile.UnexpiredStays` | fasp_harness/protocol/volatile.py:33-51 | No call evicts or changes an entry that has not expired, however full the window is |
| `Volatile.ReplayWindow` | fasp_harness/protocol/volatile.py:33-51 | On a clock that does not go back, until a handled message's expiry its id gets the recorded response for the same content and a refusal for another; a second success under the id comes only after the expiry |
| `Volatile.AtMostOnce` | fasp_harness/protocol/volatile.py:33-51 | With expiry fixed by content, each message's handler completes successfully at most once over the whole run |
| `Volatile.RepeatNeedsRewind` | fasp_harness/protocol/volatile.py:33-51 | On any clock a message is handled twice only if some reading in between was at or past its expiry and the later one before it again |
| `Volatile.HandledAgainExactly` | fasp_harness/protocol/volatile.py:33-51 | On any clock, with nothing else handled under the id in between, a later call under it succeeds if and only if it has not expired, some reading since was at or past the first message's expiry, there is room and its handler succeeds |
| `Volatile.BackwardClockReplays` | fasp_harness/protocol/volatile.py:35-40 | A concrete run with a clock that goes back handles a message twice |
| `SendQueue.FaspChannel.FlushPending` | bridge_core/fasp.ts:541-558 | The flushing loop, with callbacks that may send and close, computes the specified state |
| `SendQueue.FlushTakesFront` | bridge_core/fasp.ts:548-567 | A flush takes frames from the front: an overdue one goes with a notice, one that fits the buffer is handed over, and at one that does not fit it stops |
| `SendQueue.FaspChannel.SendFrame` | bridge_core/fasp.ts:620-635 | Accepts or refuses one envelope by the source's checks in order, flushing first when the socket is up |
| `SendQueue.SendRefuses` | bridge_core/fasp.ts:620-625 | The refusals for a closed channel, wrong identities, expiry and size, in this order; they change nothing |
| `SendQueue.SendOnline` | bridge_core/fasp.ts:626-630 | With the socket up the queue is flushed, and the frame handed over exactly if nothing is left queued and the buffer has room for it |
| `SendQueue.SendOffline` | bridge_core/fasp.ts:631-634 | With the socket down a volatile frame is refused, and any other queued exactly if it fits both limits |
| `SendQueue.FaspChannel.CloseChannel` | bridge_core/fasp.ts:636-640 | Closes and drops everything queued |
| `SendQueue.CloseDropsAll` | bridge_core/fasp.ts:636-640 | Closing drops what is queued, in order, and shuts the channel |
| `SendQueue.FaspChannel.Notify` | bridge_core/fasp.ts:535-537 | A callback's actions take effect one after the other, re-entering the channel |
| `SendQueue.DeliveryOrder` | bridge_core/fasp.ts:524-642 | Over every life of a channel and every consumer: frames given to the socket are a subsequence of the accepted ones in order; the others are still queued, were overdue at their turn, or were dropped by close, after which nothing is queued; none was handed over past its expiry or into a buffer without room |
| `SendQueue.QueueLimits` | bridge_core/fasp.ts:530-634 | The byte count equals the sum of queued frames, both queue limits hold, and no volatile frame is ever queued |
| `SendQueue.HandedOverClosedExactly` | bridge_core/fasp.ts:620-635 | In every reachable state a frame is accepted and handed over on a channel closed by then if and only if send flushes a live socket, a notice raised by that flush is answered with a close, and the buffer has room |
| `SendQueue.ClosingConsumerExactly` | bridge_core/fasp.ts:541-630 | For a consumer that closes at its next notice this happens if and only if the flush reaches an overdue frame, everything queued before it going out, and the buffer has room |
| `SendQueue.SafeWithoutClosingReaction` | bridge_core/fasp.ts:541-630 | It cannot happen if none of the notices that the queued frames could raise is answered with a close |
| `SendQueue.HandedOverOnClosedChannel` | bridge_core/fasp.ts:627-630 | A concrete run, reconnect and send with an overdue frame queued, in which it happens |
| `Executor.CyclicExecutor.Run` | fasp_harness/realtime/scheduler.py:263-300 | On any clock: each cycle's release is origin + index x period, indices advance by one plus what was missed, final index = cycles + skipped, overruns are the number of cycles whose response exceeds the deadline, no cycle but the last raises, is asked to stop or (under fail-safe) overruns, and a fail-safe overrun stops |
| `Executor.CyclicExecutor.Book` | fasp_harness/realtime/scheduler.py:283-299 | What one finished cycle adds to the counters under each policy, and the next index |
| `Executor.CyclicExecutor.Loop` | fasp_harness/realtime/scheduler.py:266-299 | The loop keeps the schedule and its tally between cycles, and ends only by an exception, a stop, the limit or the end of the script |
| `Executor.ScheduleExactly` | fasp_harness/realtime/scheduler.py:267-299 | Releases are origin + index x period; each cycle is the next index, or under skip after a response past the deadline the first release after the finish |
| `Executor.IndicesIncrease` | fasp_harness/realtime/scheduler.py:267-299 | Executed indices strictly increase and releases are at least a period apart |
| `Executor.NothingIsSkipped` | fasp_harness/realtime/scheduler.py:267-299 | Unless the policy is skip, cycle i is index i, released exactly i periods after the origin |
| `Executor.ResyncIsLeast` | fasp_harness/realtime/scheduler.py:292-299 | After a late cycle, skip resumes at the first release strictly after the finish |
| `Executor.FirstAfterIsLeast` | fasp_harness/realtime/scheduler.py:292-299 | That release is the least one after the finish |
| `Executor.SkipWakesOnTime` | fasp_harness/realtime/scheduler.py:65-88 | Under skip on the virtual clock every cycle wakes exactly at its release, however long the work takes |
| `Executor.RunOnManualClock` | fasp_harness/realtime/scheduler.py:65-300 | The executor driven by the virtual clock, for work of any durations: the schedule is kept, durations are those of the work, and under skip every cycle wakes exactly at its release |
| `Executor.ManualClock.SleepUntil` | fasp_harness/realtime/scheduler.py:86-88 | The virtual clock moves to the deadline, never back, and records how far it jumped |
| `Executor.ManualClock.Advance` | fasp_harness/realtime/scheduler.py:81-84 | The clock moves by non-negative amounts only |
| `Executor.LatenessCarriesOver` | fasp_harness/realtime/scheduler.py:263-300 | Without skipping, lateness on the virtual clock obeys the queueing recurrence |
| `Executor.CatchUpRecovers` | fasp_harness/realtime/scheduler.py:263-300 | Under catch-up, work that leaves slack in each period recovers that much lateness per cycle until on time |
| `Histogram.TimingRecorder.RecordUs` | fasp_harness/realtime/scheduler.py:140-147 | Count, total, extremes and every bucket stay exact for the list of samples |
| `Histogram.EdgeTable` | fasp_harness/realtime/scheduler.py:118-120 | The edges run through 1, 2 and 5 of every power of ten up to 1e8 microseconds |
| `Histogram.FiledUnder` | fasp_harness/realtime/scheduler.py:147-147 | A sample's size is filed under the first edge that is not below it, and beyond the last edge under the last bucket |
| `Histogram.TargetIsNearest` | fasp_harness/realtime/scheduler.py:152-152 | The target rank is the fraction's share of the samples to the nearest integer, halves to the even one, kept between 1 and their number |
| `Histogram.TimingRecorder.QuantileUs` | fasp_harness/realtime/scheduler.py:149-160 | The result is the exact order statistic of the target rank, by size, rounded up to its bucket's edge and capped at the maximum; it lies between the exact order statistic by value and the maximum, for non-negative samples in the bucket of the former; zero without samples |
| `Histogram.QuantileBrackets` | fasp_harness/realtime/scheduler.py:149-160 | The report is at least the exact order statistic and at most the maximum for any samples, and in the bucket of the former for non-negative ones |
| `Histogram.RankedExists` | fasp_harness/realtime/scheduler.py:149-160 | Every rank from 1 to the count has its order statistic |
| `Histogram.BucketsAddUp` | fasp_harness/realtime/scheduler.py:140-147 | Bucket counts sum to the number of samples |
| `Histogram.QuantilesIncrease` | fasp_harness/realtime/scheduler.py:149-160 | A larger fraction never gets a smaller report, rounding of the target rank included |
| `Histogram.ReportBucketExactly` | fasp_harness/realtime/scheduler.py:140-160 | For any samples, the report lies in the bucket of the exact order statistic under an exact condition on the occupancies and the maximum's bucket |
| `Histogram.MisfiledExactly` | fasp_harness/realtime/scheduler.py:140-160 | For a statistic that is not negative, the report leaves its bucket exactly when too many negative samples are filed beyond it and the maximum lies beyond it too; none filed beyond it, none broken |
| `Histogram.NegativeSampleMisfiled` | fasp_harness/realtime/scheduler.py:147-147 | A concrete negative sample whose report leaves the exact value's bucket |
| `Validator.ValidateJson` | fasp_harness/protocol/contracts.py:39-71 | Terminates on every value and accepts exactly those with at most 8192 nodes (keys counted), depth at most 32 and only admissible parts, as defined by recursion over the value |
| `Validator.AdmissibleExactly` | fasp_harness/protocol/contracts.py:47-71 | Which parts are admissible: text without surrogates, integers and whole numbers within 2^53 - 1, any other finite number, null, booleans, and lists and string-keyed dictionaries of admissible parts; nothing else |
| `Validator.PushEntries` | fasp_harness/protocol/contracts.py:48-52 | Pushes every key and value of a dictionary, or refuses it exactly when some key is not a string |

## Left out

- Transports, command line, discovery, HTTP, Bluetooth, MCP and WebSocket plumbing, websites and viewers: input and output without algorithms of their own.
- Ed25519, SHA-256, X25519, ChaCha20, base64 and SQLite internals: ideal signatures and digests, a bijection and atomic statements stand for them.
- Task, mission, reservation and stream repositories, fleet service and robotics: their rules rest on queries outside the modelled files.
- Lease acquire and lose callbacks, metadata and `observe`: they do not touch the row or the belief. The renewal thread is there as calls that overlap others.
- Canonical encoder numbers: the theorems cover integers of safe magnitude; larger integer-valued numbers print in exponent form, and non-integers make the encoder throw.
- Canonical.Value: plain data only. An object with `toJSON`, such as a date, and an array with holes are digested one way and written another, so a file that holds one need not verify though it has no undefined member; the details that the log's own callers write are plain.
- Log lock files: taking over a stale lock, partial writes and truncation of the file are not modelled; a locked append is one step on a file that only grows.
- Outbox error texts and stored responses: they are written and never read by the queue.
- Outbox.DurableOutbox.MarkSent, MarkDead, PurgeSent, RequeueDead: single SQL updates, verified against their step functions and given no row of their own.
- Replay gate: one live process per database, as the claim set is per process; heartbeats are one atomic step; signature and policy checks before the gate are left out.
- Rate limiter clock: readings are non-decreasing; the source reads the clock before taking its lock, so two threads could apply readings in the other order.
- Identity harness: an operation either completes or leaves the store unchanged; a crash between two of its file writes is not modelled. Bundles and peer connections are left out, and so are log entries that reconciliation does not read.
- StreamOrder.MemoryStream.Packet: ownership, contract, payload and JSON checks enter as one flag, retention and live-push subscribers are left out.
- Channels: serialisation, authorisation and the socket write itself are left out; an unbound event loop makes push return without a change.
- Volatile.VolatileInbox.Accept: the heap is represented by its sorted contents; `clear`, which forgets everything, is outside the theorems.
- SendQueue: profile pinning, the registration heartbeat, timers and reconnect delays appear only as the events they cause.
- Executor.CyclicExecutor.Run: the clock and the work appear as what each cycle meets; the period is at least one nanosecond (a shorter one makes the source divide by zero), and an overrun callback that moves the virtual clock is outside the on-time theorem.
- Histogram.TimingRecorder.QuantileUs: floating-point rounding is not modelled; the target rank is rounded half to even, as Python does.
- Validator.ValidateJson: which of the two errors a bad value gets depends on the visiting order and is not stated.
- Layer guards, health probes, posture checks, QoS comparison, the ROS 2 lifecycle table, Modbus, OPC UA, VDA 5050 and the audit chain: they would add easier members of kinds already here.

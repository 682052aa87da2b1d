# Verification of OneBrain's cores

A Dafny model of the parts of OneBrain that carry its promises, and proofs about every
input, every run or every reachable state of that model. `dafny verify dfyconfig.toml`
checks all of it. What the model treats as given is named below and in the doc comment
of each module; everything else is proved. Nothing was executed.

## What is modelled

**The inference session** (`Engine`, `Generation`, `Session`, `Shim`). The engine is known
only at the shim boundary: logits are some function of the decoded history, a sampler chain
is some state transition, and a link says of each decode call whether it is healthy, refused
or garbled (success code, wrong logits), the transport being dead after a refusal or a
garbling. The loops are the source's: chunked decode, and the two emission orders of
`generate`, confirm-before-send and emit-at-sample. Results: chunking is invisible; a torn
distributed run emits a prefix of the untorn run; the two orders differ by exactly one token,
the untorn run's next; a run split in two, or lost and retried by re-prefilling, gives the
same tokens. The comment at lib.rs:1281-1283 speaks of an unconfirmed final token; the code
decodes every token before its callback, and the model follows the code. The end-of-generation
exit is not confirmed, so a garbled call can end a run falsely: `ZerosCanStop` shows a greedy
model that does, and `EndingsAreGenuineIffJunkIsOrdinary` gives the exact condition on a
sampler and its vocabulary, namely that nothing drawn from the row of a torn fetch is an
ending.

**Speculative decoding** (`Speculation`, `SpeculativeRounds`, `PlainRuns`, `StopScan`). A round of drafts,
verified in one decode and settled by walking the rows, against plain decoding one token at a
time. The documented token-equivalence holds exactly if the round is `Faithful` (no accepted
draft that cannot be rendered or that the target takes as end of generation), and always when
draft and target share their vocabulary. Over a torn transport a round can count drafts that
the target would not say, contrary to the comment at engine_host.rs:2874 that the round
preserves confirm-before-send exactly. `TornRoundIsSafeIffForetold` says for any fetched rows
exactly when it does not, and `TornRoundIsSafeIffTakesNone` when it does not whatever the
target's logits, which can be told from the torn rows before the round. Whole plain runs, and
through them speculative ones, are the ideal run of `Generation`.

**Batches of sequences** (`KvLanes`, `Batches`, `Interleaving`, `MultiSession`, `VerifyDecode`). Per-sequence
spans against the queued tokens, the position checks, rollback by removing a suffix, and the
independence of sequences stepped together under any schedule. A verify decode is a batch that
continues one sequence, and its rows are the target's own.

**Embedding** (`Embedding`). Chunked mean pooling against the mean over one decode of all, in
real arithmetic.

**The RPC client's pipeline** (`RpcLedger`, `RpcRuns`, `RpcClient`). The pending-command ledger
of patch 0003: submitted and completed counts, ack tickets, flow control, drains, and the wire
with an in-order server. Every operation on the stream may fail. Results hold over every
sequence of actions. Three promises turn out to need a condition, given as an if-and-only-if
each: soundness of the completed count needs that the transport does not soon work again after
it has failed
(`SoundIffNoRelapse`); a wait is exact if the position has a ticket
(`WaitIsExactIffTicketed`, and a command raced in between a record and its fence takes the
ticket away); the largest-command estimate forgets a command whose own send drains the ledger
(`BurstIsNotedUnlessDrained`). A dead socket is not touched again except by a drain that still
finds tickets (`DeadSocket`).

**GGUF** (`GgufFormat`, `GgufSpec`, `GgufPrefix`, `GgufReader`, `GgufWriter`, `GgufRoundTrip`,
`GgufDocument`, `GgufBuilder`). The header as the simulation reads it, as functions; the cursor,
the parser and the prefix-doubling loop as methods proved against them; the builder; and the
round trip. `GgufSpec` reads every metadata value of the format (section "File Structure" of
ggml's GGUF specification) and keeps all of it; the simulation's reader is that one with the
rest forgotten, on every byte sequence.

**Smaller cores.** The peer store, its clones running together and the steps its operations
refine (`Peers`, `PeerStore`, `PeerRuns`, `PeerSteps`), the pairing exchange (`Pairing`), the calendar conversion and the RFC 3339 text
(`Calendar`, section 5.6 of RFC 3339), the FNV-1a cache key (`Fnv`), and the memory caps of
the distribution scenario (`Caps`).

`Options`, `Numbers`, `Decimals` and `Lexical` hold what several modules share.

## Model

| member | source | states |
|---|---|---|
| `Engine.ChunkingIsInvisible` | crates/onebrain-engine/src/lib.rs:1083-1095 | on a healthy link, decoding in chunks of any size leaves the history, logits and liveness of one decode of everything |
| `Engine.LiveDecodeIsGenuine` | patches/README.md:43-66 | a decode after which the transport is alive left genuine history and logits, whatever the link did |
| `Generation.HealthyRunIsIdeal` | crates/onebrain-engine/src/lib.rs:1242-1325 | both emission orders, with any batch size, on a healthy link, compute the ideal token-by-token run with its finish reason |
| `Generation.IdealEndings` | crates/onebrain-engine/src/lib.rs:1242-1325 | the reference run says the model's own draws, all ordinary and none refused before the last; it ends aborted exactly if the callback breaks on its last token, in `Length` exactly on a spent budget, in `Stop` exactly if the next draw ends the generation, in `RenderError` exactly if that draw cannot be rendered |
| `Generation.TornRunIsPrefix` | crates/onebrain-engine/src/lib.rs:1242-1325 | for every tear, a distributed run emits a prefix of the ideal run, and one that still ends in `Length` or by its callback emitted exactly the ideal tokens |
| `Generation.EmissionOrderGap` | crates/onebrain-engine/src/lib.rs:1271-1321 | when the first failing decode comes before any ending, the solo order emits exactly one token more, and it is the ideal run's next token |
| `Generation.EndingsAreGenuineIffHonest` | crates/onebrain-engine/src/lib.rs:1265-1269 | every run that does not end in a decode error, for every model and request, ends as the ideal run does if and only if the link's first disturbance is not a garbled fetch |
| `Generation.FalseStop` | crates/onebrain-engine/src/lib.rs:1265-1269 | for each link that first fails by a garbled fetch there is a model, with rows of the same length, whose run ends in `Stop` on it although the ideal run runs to its budget |
| `Generation.OrdinaryJunkIsHarmless` | crates/onebrain-engine/src/lib.rs:1265-1270 | if no chain draws an ending from the row a garbled fetch hands over, every ending of every run on every link is genuine |
| `Generation.EndingsAreGenuineIffJunkIsOrdinary` | patches/README.md:53-58 | for a given sampler, vocabulary and garbled row: all runs end genuinely, whatever the model's logits, if and only if no chain draws an ending from that row |
| `Generation.ZerosCanStop` | patches/README.md:53-58 | a greedy model whose end token is the first one stops on a row of zeros although it would go on |
| `Generation.RunLeavesHistory` | crates/onebrain-engine/src/lib.rs:1298-1318 | a run that did not fail leaves prompt and emitted tokens in the KV, save that an aborted solo run leaves out its last; the logits are of that history unless the transport was lost |
| `Generation.ResumeComposes` | crates/onebrain-engine/src/lib.rs:1242-1325 | greedy generation of a+b tokens is generation of a, then of b on a fresh engine given the prompt and those tokens, for any batch sizes |
| `Generation.RetryIsTransparent` | docs/resilience.md:48-54 | a greedy run lost to any tear and retried on a fresh engine completes exactly the ideal run |
| `Generation.SampledRetryCanDiverge` | docs/resilience.md:48-54 | with a sampler whose state matters a retry can produce other tokens |
| `Sessions.Session.constructor` | crates/onebrain-engine/src/lib.rs:1051-1064 | a new session is the empty state |
| `Sessions.Session.DecodeCall` | crates/onebrain-engine/shim/ob_shim.c:226-259 | one shim decode is the modelled decode call on the state |
| `Sessions.Session.Decode` | crates/onebrain-engine/src/lib.rs:1083-1095 | the chunk loop is the chunked decode, failures included |
| `Sessions.Session.Generate` | crates/onebrain-engine/src/lib.rs:1242-1325 | the loop with its callback computes the modelled run for both emission orders: tokens, finish, and the session state it leaves unless a decode failed |
| `Sessions.Session.GenerateGreedy` | crates/onebrain-engine/src/lib.rs:1431-1450 | the callback sees exactly the tokens of the emit-at-sample run, also ahead of a failure; they are returned if nothing failed; and the state left is that run's |
| `Shims.Shim.constructor` | crates/onebrain-engine/shim/ob_shim.c:226-259 | empty buffers satisfy the buffer invariant |
| `Shims.Shim.Decode` | crates/onebrain-engine/shim/ob_shim.c:226-259 | whichever allocation fails, the capacity never exceeds either buffer; a call that gets through hands over exactly its tokens, with no flags or all-false flags |
| `Speculation.AbsorbIsSampleThenConfirm` | crates/onebraind/src/engine_host.rs:2852-3048 | taking in an accepted draft is sampling it and confirming it in plain decoding |
| `Speculation.TailIsPlain` | crates/onebraind/src/engine_host.rs:2852-3048 | settling any walked drafts is that many plain steps |
| `Speculation.RoundIsPlain` | crates/onebraind/src/engine_host.rs:2852-3048 | a faithful speculative round ends in the state of some number of plain steps |
| `Speculation.RoundIsPlainIffFaithful` | docs/perf.md:151-160 | a round is plain steps if and only if it is faithful |
| `Speculation.EndTokenCanBeCounted` | crates/onebraind/src/engine_host.rs:2879-2896 | a live generation and a draft for which the round counts the target's own end token and no plain run does |
| `Speculation.SpeculationIsInvisible` | docs/perf.md:151-160 | with a shared vocabulary, every run of rounds with any drafts is plain decoding, with the same delivered tokens and ending |
| `PlainRuns.PlainRunIsIdeal` | crates/onebraind/src/engine_host.rs:2095-2210 | from any generation with budget left, that many plain steps end, in either emission order; the counted tokens are those of the ideal run whose callback is the stop scan, the ending is `Stop` exactly on an end token or a refused piece, `Length` exactly on a spent budget and `RenderError` exactly on a draw that cannot be rendered, and the delivered tokens are the counted ones without a refused last piece |
| `PlainRuns.LiveRunIsIdeal` | crates/onebraind/src/engine_host.rs:2095-2210 | the same from a live generation whose pending token was staged, sent or unsent |
| `PlainRuns.PlainRunIsInOrder` | crates/onebraind/src/engine_host.rs:2095-2101 | confirm-before-send and the solo exemption: at every point of a plain run, a distributed generation has sent only what was decoded, a solo one that and the piece just sampled |
| `PlainRuns.SpeculativeRunIsIdeal` | docs/perf.md:151-160 | from the prompt on, rounds with any proposals from the shared vocabulary come to an end within as many rounds as the budget, with the tokens, ending and deliveries of the ideal run |
| `Speculation.TornRoundIsSafeIffForetold` | crates/onebraind/src/engine_host.rs:2869-2896 | whatever rows a verify decode hands over, the round counts only tokens the untorn generation counts if and only if the drafts those rows accepted are what the target was about to say |
| `Speculation.RefusedDraftsAreSafe` | crates/onebraind/src/engine_host.rs:2879-2896 | a torn round is safe if its rows take no draft, in particular if the first draft is not what the torn row draws |
| `Speculation.TornRoundIsSafeIffTakesNone` | crates/onebraind/src/engine_host.rs:2869-2896 | for a given sampler and torn rows: the round is safe whatever the target's logits if and only if the rows take no draft, which can be told before the round |
| `Speculation.SameRowsAccept` | crates/onebraind/src/engine_host.rs:2879-2896 | with greedy sampling, rows of zeros accept exactly the leading drafts equal to the one token they draw |
| `Speculation.ZerosCanTakeADraft` | crates/onebraind/src/engine_host.rs:2869-2896 | a greedy target, a draft and rows of zeros for which a token is counted that the target never says |
| `Speculation.TrimmedRoundIsPrefix` | crates/onebraind/src/engine_host.rs:2916-2931 | a round is left as it is unless a rollback it needs fails; then the generation ends in an error, keeps no KV, and has counted and delivered a prefix of what the round would have |
| `Speculation.RollbackIsNeeded` | crates/onebraind/src/engine_host.rs:2916-2931 | a round that keeps all that the verify decode put in the KV fails on no rollback, one that keeps less fails if neither rollback works |
| `SpeculativeRounds.Decoder.BuildSpecStep` | crates/onebraind/src/engine_host.rs:2763-2843 | the proposal is exactly what the draft model itself goes on to say, up to its end token and within draft length, budget and batch; it fails exactly if a decode it needs fails; the draft history follows the target's |
| `SpeculativeRounds.DraftGreedily` | crates/onebraind/src/engine_host.rs:2811-2826 | the drafting loop says the draft model's own continuation and decodes all of it but a last token nothing follows |
| `SpeculativeRounds.ProposedIsIdeal` | crates/onebraind/src/engine_host.rs:2811-2826 | a proposal is what the draft model would generate alone in as many tokens |
| `SpeculativeRounds.DraftLimit` | crates/onebraind/src/engine_host.rs:2811-2813 | the largest proposal within the draft length, the budget past the pending token and the batch |
| `SpeculativeRounds.Decoder.Resume` | crates/onebraind/src/engine_host.rs:2782-2791 | the draft history kept is a prefix of the confirmed history |
| `SpeculativeRounds.Decoder.ProcessSpecStep` | crates/onebraind/src/engine_host.rs:2852-3048 | for each success or failure of the two rollbacks, the generation is left in the state of the round, which `RoundIsPlainIffFaithful` and `PlainRunIsIdeal` tie to the ideal run, or in that of `TrimmedRoundIsPrefix`; the draft is left in sync |
| `SpeculativeRounds.WalkDrafts` | crates/onebraind/src/engine_host.rs:2879-2915 | the walk accepts drafts up to the first disagreement as the model does |
| `SpeculativeRounds.EmitConfirmed` | crates/onebraind/src/engine_host.rs:2934-2989 | accepted drafts are delivered one by one up to the first ending |
| `StopScans.WindowSuffices` | crates/onebraind/src/engine_host.rs:3322-3340 | a stop string completes in the whole text if and only if it completes in window plus piece |
| `StopScans.WindowOfWindow` | crates/onebraind/src/engine_host.rs:3330-3338 | trimming the window again gives the window of the whole text |
| `StopScans.StopScan.constructor` | crates/onebraind/src/engine_host.rs:3304-3318 | empty stops are dropped and the window keeps one byte less than the longest |
| `StopScans.StopScan.Admit` | crates/onebraind/src/engine_host.rs:3322-3340 | a piece is refused exactly if the whole text so far then holds a stop string |
| `StopScans.Contains` | crates/onebraind/src/engine_host.rs:3327-3329 | the search finds a string exactly if it occurs |
| `KvLanes.RemoveSuffix` | crates/onebrain-engine/src/lib.rs:1158-1168 | removing from a position on leaves the lane of the shortened history |
| `KvLanes.DenseIffSuffix` | crates/onebrain-engine/src/lib.rs:1158-1168 | removal leaves a lane without holes if and only if it removes a suffix, nothing or everything |
| `KvLanes.SurgeryIsPointwise` | crates/onebrain-engine/src/lib.rs:1158-1173 | a removal empties exactly the positions of its range and a copy fills exactly those, either end open; a memory that cannot drop a part drops everything or nothing |
| `KvLanes.CopyPrefix` | crates/onebrain-engine/src/lib.rs:1170-1173 | copying a prefix to an empty sequence gives the lane of that prefix |
| `KvLanes.CopyRejoins` | crates/onebrain-engine/src/lib.rs:1170-1173 | continuing a copied prefix is continuing a session that decoded it |
| `KvLanes.RollbackRejoins` | crates/onebrain-engine/src/lib.rs:1158-1185 | removing a suffix fails exactly if the memory cannot drop a part and some is kept; otherwise the next position is the cut, and decoding other tokens, on any healthy link with any batch size, leaves the KV and logits of a fresh session on the edited history |
| `Batches.NotedKeepsSummary` | crates/onebrain-engine/src/lib.rs:966-1002 | the first and last positions noted per sequence agree with the queued tokens after every push |
| `Batches.NotedIffFollows` | crates/onebrain-engine/src/lib.rs:966-1002 | the summary takes a token exactly if it is the first of its sequence in the batch or one past the last |
| `Batches.FeedIsConsecutive` | crates/onebrain-engine/src/lib.rs:1114-1128 | a batch that can be fed places each sequence's tokens at consecutive positions after its history |
| `Batches.FeedAppends` | crates/onebrain-engine/src/lib.rs:1114-1128 | feeding appends to each history exactly that sequence's queued tokens |
| `Batches.CheckIsExact` | crates/onebrain-engine/src/lib.rs:1114-1128 | the span check passes if and only if every queued token lands at its sequence's next position |
| `Batches.NewBatch` | crates/onebrain-engine/src/lib.rs:939-960 | a batch is refused exactly for a zero or too large capacity or id count or without memory, and starts empty |
| `Batches.Batch.Push` | crates/onebrain-engine/shim/ob_shim.c:381-398 | the order of the refusals, the assertion tripped exactly by a token that does not follow, the slot written, and a summary that stays right |
| `Batches.Batch.Clear` | crates/onebrain-engine/src/lib.rs:1004-1008 | nothing queued, nothing noted |
| `Interleaving.StepIsPerSequence` | crates/onebrain-engine/src/lib.rs:1199-1218 | a row of a multi-sequence step is the logits of that one sequence's history and token |
| `Interleaving.RowIsFed` | crates/onebrain-engine/src/lib.rs:1114-1128 | in every batch the engine takes, the row of a token is the logits of its sequence's history as it stands once that token is in |
| `Interleaving.AloneIsIdeal` | crates/onebrain-engine/src/lib.rs:1199-1218 | a sequence stepping alone says what the ideal run says after its pending token |
| `Interleaving.StepLeavesOthers` | crates/onebrain-engine/src/lib.rs:1199-1218 | a sequence not in the step keeps its history |
| `Interleaving.BatchStepIsSay` | crates/onebrain-engine/src/lib.rs:1114-1150 | a batched step is each chosen sequence stepping alone |
| `Interleaving.InterleavingIsInvisible` | crates/onebrain-engine/src/lib.rs:831-834 | under every schedule over any subsets each sequence ends exactly where its own number of steps alone takes it |
| `Interleaving.SharedGreedyIsAlone` | crates/onebrain-engine/src/lib.rs:1130-1142 | a stateless chain shared by a batch draws what each sequence draws alone |
| `Interleaving.SharedStepIsStepped` | crates/onebrain-engine/src/lib.rs:1199-1218 | one decode step by the shared stateless chain is each chosen sequence stepping alone |
| `Interleaving.SharedInterleavingIsInvisible` | crates/onebrain-engine/src/lib.rs:1130-1142 | under every schedule of decode steps by the one shared chain over any subsets, each sequence ends exactly where its own number of steps alone takes it |
| `Interleaving.SharedStateMixes` | crates/onebrain-engine/src/lib.rs:831-834 | a chain with state, shared, can change a sequence's tokens |
| `MultiSessions.MultiSession.DecodeBatch` | crates/onebrain-engine/src/lib.rs:1114-1138 | a batch that passes is fed and yields, for each token, the row that `RowIsFed` describes; one that does not pass trips the assertion and keeps the histories |
| `MultiSessions.MultiSession.QueueStep` | crates/onebrain-engine/src/lib.rs:1209-1213 | the queue holds each token at its sequence's next position, or the first refusal in input order is returned: batch full, bad id, or a sequence named twice |
| `MultiSessions.MultiSession.SampleRows` | crates/onebrain-engine/src/lib.rs:1199-1218 | rows are drawn in order by the one chain |
| `MultiSessions.MultiSession.DecodeStep` | crates/onebrain-engine/src/lib.rs:1199-1218 | which of the refusals, the engine failure or the draws comes back; a refused step changes nothing; a step that works feeds each sequence its token and draws once per input in input order |
| `VerifyDecodes.VerifyRowsAreGenuine` | crates/onebraind/src/engine_host.rs:2832-2836 | the rows of a batch of the pending token and the drafts are the target's logits after its history and each prefix of them |
| `VerifyDecodes.LastRowIsDecode` | crates/onebrain-engine/src/lib.rs:1083-1128 | the last row and the history of a one-sequence batch are those that a chunked decode of the same tokens leaves |
| `VerifyDecodes.QueueVerify` | crates/onebraind/src/engine_host.rs:2832-2836 | a round is queued at the sequence's next positions exactly if batch and id allow it |
| `VerifyDecodes.VerifyDecode` | crates/onebraind/src/engine_host.rs:2832-2836 | a verify decode that succeeds yields genuine rows and leaves the sequence extended by the pending token and the drafts; its positions never trip the assertion |
| `Embedding.EmbedSession.constructor` | crates/onebrain-engine/src/lib.rs:1051-1064 | a fresh session with an empty history |
| `Embedding.EmbedSession.Accumulate` | crates/onebrain-engine/src/lib.rs:1397-1420 | the chunk loop sums exactly the rows the tokens have in one decode, or reports the first failure |
| `Embedding.EmbedSession.AddRows` | crates/onebrain-engine/src/lib.rs:1409-1419 | one chunk's rows are added component by component |
| `Embedding.EmbedSession.EmbedPooled` | crates/onebrain-engine/src/lib.rs:1372-1395 | the pooled row of one decode exactly if the input fits a batch and the call and the row succeed; a longer input is refused before any decode |
| `Embedding.EmbedSession.EmbedMean` | crates/onebrain-engine/src/lib.rs:1397-1425 | for every batch size the result is the mean over all tokens of the single-shot rows, exactly if the call of every chunk succeeds and every row fits |
| `Embedding.EmbedSession.Embed` | crates/onebrain-engine/src/lib.rs:1353-1425 | which error comes first, and otherwise the pooled row or the mean, with the history left holding the input |
| `Embedding.NoTroubleIff` | crates/onebrain-engine/src/lib.rs:1397-1420 | nothing goes wrong if and only if the call of every chunk succeeds and every row fits |
| `Embedding.MeanIsUnique` | crates/onebrain-engine/src/lib.rs:1353-1370 | two chunkings of one input give one vector |
| `RpcLedger.ExchangeIsPaired` | patches/0003-rpc-client-async-pipeline.patch:389-433 | an exchange reads the response to its own command, also when it first pops all tickets |
| `RpcLedger.SendKeeps` | patches/0003-rpc-client-async-pipeline.patch:347-385 | a send, throttled or failing anywhere, keeps the ledger invariant |
| `RpcLedger.SendCounts` | patches/0003-rpc-client-async-pipeline.patch:347-385 | what a send puts on the wire and adds to the byte count: nine bytes and the payload |
| `RpcLedger.FenceKeeps` | patches/0003-rpc-client-async-pipeline.patch:484-499 | a fence's ticket is the newest unread response |
| `RpcLedger.DrainReaches` | patches/0003-rpc-client-async-pipeline.patch:445-472 | a drain that leaves the socket alive has the target executed |
| `RpcLedger.DrainIsPositional` | patches/README.md:137-149 | a drain costs the execution of exactly the commands up to the first ticket at or past the target, of all only if there is none |
| `RpcLedger.WaitIsExactIffTicketed` | patches/README.md:275-283 | a wait needs nothing submitted later executed if and only if a ticket stands at its position |
| `RpcLedger.RacedRecordHasNoTicket` | patches/0003-rpc-client-async-pipeline.patch:732-755 | a command sent between an event's record and its fence leaves the recorded position without a ticket |
| `RpcLedger.DeadSocket` | patches/README.md:43-47 | on a dead socket sends, fences and exchanges touch nothing, and a drain touches the stream if and only if its target is open and tickets are left |
| `RpcRuns.DeadStreamCanBeTouched` | patches/0003-rpc-client-async-pipeline.patch:445-472 | a run of two commands after which a drain touches the dead stream |
| `RpcLedger.FlowIsBounded` | patches/0003-rpc-client-async-pipeline.patch:264-294 | after a throttled send the unproven bytes are within the cap, or no ticket is left |
| `RpcLedger.CapIsFourAndAHalf` | patches/0003-rpc-client-async-pipeline.patch:264-294 | a window is over the cap if and only if it is over the floor or setting and over four and a half largest commands and a mebibyte; a setting of zero turns it off |
| `RpcLedger.BurstIsNotedUnlessDrained` | patches/0003-rpc-client-async-pipeline.patch:347-385 | the noted largest size covers all unproven commands after a send if and only if that send did not drain the ledger |
| `RpcRuns.BurstCanBeForgotten` | patches/0003-rpc-client-async-pipeline.patch:347-385 | a run of five commands after which the next large command goes unnoted |
| `RpcRuns.RunKeeps` | patches/README.md:131-149 | over every sequence of actions: counts match the wire, tickets are the newest unread responses in order until a read fails, and the completed count is sound until then |
| `RpcRuns.SoundIffNoRelapse` | patches/README.md:264-273 | completed never exceeds executed in any run over a transport if and only if it does not work again within as many operations after its first failure as there can be tickets |
| `RpcRuns.RelapseRun` | patches/0003-rpc-client-async-pipeline.patch:322-343 | for every such relapse there is a run in which completed exceeds executed |
| `RpcClient.Pending.constructor` | patches/0003-rpc-client-async-pipeline.patch:202-238 | an empty ledger on a live socket |
| `RpcClient.Pending.Advance` | patches/0003-rpc-client-async-pipeline.patch:322-343 | the proven position and bytes only grow, and a full drain forgets the largest size |
| `RpcClient.Pending.TicketPop` | patches/0003-rpc-client-async-pipeline.patch:322-343 | the oldest ticket is taken and its response read |
| `RpcClient.Pending.MakeRoom` | patches/0003-rpc-client-async-pipeline.patch:347-370 | the throttle loop pops as the model does |
| `RpcClient.Pending.SendRpcCmd` | patches/0003-rpc-client-async-pipeline.patch:347-385 | the fire-and-forget send is the modelled send |
| `RpcClient.Pending.Transact` | patches/0003-rpc-client-async-pipeline.patch:389-433 | the response-bearing overload is the modelled exchange |
| `RpcClient.Pending.FenceBegin` | patches/0003-rpc-client-async-pipeline.patch:484-499 | the fence is the modelled fence |
| `RpcClient.Pending.DrainTo` | patches/0003-rpc-client-async-pipeline.patch:445-472 | the drain loop and its fallback are the modelled drain |
| `RpcClient.Pending.DrainAll` | patches/0003-rpc-client-async-pipeline.patch:502-513 | a drain to everything submitted |
| `GgufSpec.KeptIsNatural` | xtask/src/sim.rs:4475-4518 | a scalar is kept with its value if and only if it is an integer and, in two's complement, not negative |
| `GgufSpec.ValueForgets` | xtask/src/sim.rs:4475-4531 | on every byte sequence that 64 bits can index, a value of any type, arrays nested to any depth, is read over exactly as the format lays it out, with the same failures, and only a natural number is kept |
| `GgufSpec.ScalarsAreOneBlock` | xtask/src/sim.rs:4492-4500 | scalars one after another are one block of their widths |
| `GgufPrefix.ParseAgrees` | xtask/src/sim.rs:4535-4613 | on any prefix parsing gives the whole file's outcome or reports truncation; if the header is well formed, truncation exactly when the prefix is shorter than it |
| `GgufPrefix.ValueAgrees` | xtask/src/sim.rs:4475-4518 | the same for one metadata value with arrays nested to any depth |
| `GgufReader.GgufCursor.constructor` | xtask/src/sim.rs:4441-4444 | a cursor at the start |
| `GgufReader.GgufCursor.Take` | xtask/src/sim.rs:4447-4456 | the next bytes, or truncation without moving |
| `GgufReader.GgufCursor.U32` | xtask/src/sim.rs:4458-4460 | a little-endian 32-bit value |
| `GgufReader.GgufCursor.U64` | xtask/src/sim.rs:4462-4464 | a little-endian 64-bit value |
| `GgufReader.GgufCursor.Str` | xtask/src/sim.rs:4467-4470 | a length-prefixed string |
| `GgufReader.GgufCursor.Value` | xtask/src/sim.rs:4475-4518 | a value of each type is kept, skipped or refused as the function does that `ValueForgets` ties to the format, and the cursor ends behind it |
| `GgufReader.GgufCursor.Array` | xtask/src/sim.rs:4492-4508 | blocks are skipped at once, strings and nested arrays one by one |
| `GgufReader.ReadKeyValue` | xtask/src/sim.rs:4550-4560 | one entry updates the facts as the format says |
| `GgufReader.ReadKeyValues` | xtask/src/sim.rs:4550-4560 | the metadata loop |
| `GgufReader.ReadTensorInfo` | xtask/src/sim.rs:4561-4572 | one tensor info, refused beyond eight dimensions |
| `GgufReader.ReadTensorInfos` | xtask/src/sim.rs:4561-4572 | the tensor loop |
| `GgufReader.ParseGgufDims` | xtask/src/sim.rs:4535-4613 | the imperative parser computes the format's outcome for every byte sequence |
| `GgufReader.ReadGgufDims` | xtask/src/sim.rs:4413-4434 | the doubling loop ends and returns what parsing the whole file at once returns, whatever else error texts mention |
| `GgufBuilders.GgufBuilder.constructor` | xtask/src/sim.rs:1464-1472 | nothing declared |
| `GgufBuilders.GgufBuilder.KvStr` | xtask/src/sim.rs:1480-1485 | one string entry more, encoded behind the others |
| `GgufBuilders.GgufBuilder.KvU32` | xtask/src/sim.rs:1487-1492 | one u32 entry more |
| `GgufBuilders.GgufBuilder.KvF32` | xtask/src/sim.rs:1494-1499 | one float entry more |
| `GgufBuilders.GgufBuilder.KvStrArray` | xtask/src/sim.rs:1501-1510 | one string array more |
| `GgufBuilders.GgufBuilder.KvF32ArrayZeroed` | xtask/src/sim.rs:1513-1520 | one zeroed float array more |
| `GgufBuilders.GgufBuilder.KvI32Array` | xtask/src/sim.rs:1522-1531 | one integer array more, in two's complement |
| `GgufBuilders.GgufBuilder.TensorF32` | xtask/src/sim.rs:1536-1552 | one tensor more, at an offset that is the sum of the sizes before it and a multiple of 32 |
| `GgufBuilders.GgufBuilder.Build` | xtask/src/sim.rs:1554-1567 | the file of exactly the declared entries and tensors |
| `GgufRoundTrip.MetaReadsBack` | xtask/src/sim.rs:4475-4518 | every well-formed metadata value of the format's thirteen types reads back as itself |
| `GgufRoundTrip.ReadPayload` | xtask/src/sim.rs:4475-4518 | the simulation's reader steps over any written value and keeps a natural number |
| `GgufRoundTrip.BuiltFileParses` | xtask/src/sim.rs:4535-4613 | a built file is read to the end of its header if and only if no tensor has more than eight dimensions, otherwise the first such tensor is reported |
| `GgufRoundTrip.LearnedIsLast` | xtask/src/sim.rs:4548-4560 | the reader remembers exactly the last architecture and, for each key, the last natural number of any type |
| `GgufRoundTrip.BuiltFileOutcome` | xtask/src/sim.rs:4574-4613 | the outcome of parsing a built file under any metadata: too wide a tensor, an overflow, data past the end, what is lacking first, or the model described |
| `GgufRoundTrip.RoundTrip` | xtask/src/sim.rs:4574-4613 | layers, width and KV rate are recovered from any metadata that declare them, in values of any integer type, repeated keys included; the weight total is the sum of the declared sizes if and only if the declared alignment rounds the header to where the builder did |
| `GgufRoundTrip.RoundTripUnaligned` | xtask/src/sim.rs:1554-1567 | without an alignment of its own a built file always reads back in full |
| `GgufRoundTrip.ParsesIffDeclared` | xtask/src/sim.rs:4574-4613 | a built file parses if and only if its tensors are narrow, its header stays inside and it declares a model |
| `GgufRoundTrip.RoundUpIsLeast` | xtask/src/sim.rs:4574-4580 | data begin at the least multiple of the alignment that is not below the header's end |
| `GgufRoundTrip.SmallRowsFit` | xtask/src/sim.rs:4598-4613 | head counts and widths of 32 bits never overflow |
| `GgufRoundTrip.SyntheticModelIsDescribed` | xtask/src/sim.rs:6062-6068 | the synthetic model's metadata describe two layers and 128 bytes of K and V for each token |
| `GgufDocuments.BuiltFileReadsBack` | xtask/src/sim.rs:1554-1567 | a reader that keeps everything gets back from a built file every entry with its value and every tensor with its shape, type and offset |
| `GgufDocuments.RecordForgets` | xtask/src/sim.rs:4561-4572 | on every byte sequence a tensor record is stepped over exactly if there is one with at most eight dimensions |
| `GgufDocuments.PreambleIsChecked` | xtask/src/sim.rs:4535-4546 | a preamble is taken if and only if it is whole, has the magic and is of version 2 or 3, and which error comes first |
| `GgufDocuments.DataDoNotOverlap` | xtask/src/sim.rs:1536-1552 | tensors' data lie in the data section in order and without overlap |
| `GgufDocuments.OffsetsAreAligned` | xtask/src/sim.rs:1536-1552 | sizes that are multiples of 32 put every tensor at a multiple of 32 |
| `Peers.TrimIsCore` | crates/onebrain-mesh/src/store.rs:120-127 | trimming takes off exactly the blanks at both ends |
| `Peers.TakenAreFew` | crates/onebrain-mesh/src/store.rs:128-133 | pigeonhole: k candidates taken means at least k peers |
| `Peers.SortDedupIsCanonical` | crates/onebrain-mesh/src/store.rs:172-174 | the same addresses, each once, ascending |
| `Peers.HolderIsFirst` | crates/onebrain-mesh/src/store.rs:223-226 | there is a first holder exactly if there is a holder, and only one |
| `Peers.ApplyKeepsNamesUnique` | crates/onebrain-mesh/src/store.rs:114-243 | every operation keeps names unique |
| `Peers.ApplyKeepsIds` | crates/onebrain-mesh/src/store.rs:153-187 | only adding brings an id in and only removing by its name takes one out |
| `Peers.ApplyKeepsRecords` | crates/onebrain-mesh/src/store.rs:161-216 | a peer keeps name and date, and operations on others leave it alone |
| `Peers.RemoveTakesTheHolder` | crates/onebrain-mesh/src/store.rs:220-243 | with unique names exactly the one holder goes, and an unknown name changes nothing |
| `Peers.AddNamesFreshly` | crates/onebrain-mesh/src/store.rs:114-151 | a new peer gets a name nobody had, its own if that was free |
| `Peers.SuffixesCountFromTwo` | crates/onebrain-mesh/src/store.rs:120-133 | a blank name counts as "peer"; a taken name gets the first free of the suffixes -2, -3 and so on |
| `Peers.AddStartsEmpty` | crates/onebrain-mesh/src/store.rs:134-148 | adding brings in exactly the one id, with its date and nothing else known |
| `Peers.UpdatesReplace` | crates/onebrain-mesh/src/store.rs:153-216 | given addresses and relay replace the stored ones and missing ones keep them; the last hello is what was heard; nothing else about the peer changes |
| `Peers.RepliesTellTheEffect` | crates/onebrain-mesh/src/store.rs:114-216 | the answer is the name the peer now has, or whether its record changed |
| `PeerStores.DedupName` | crates/onebrain-mesh/src/store.rs:128-133 | the suffix loop ends after at most one candidate more than there are peers, with the first free one |
| `PeerStores.FindHolder` | crates/onebrain-mesh/src/store.rs:223-226 | walking by id finds the first holder |
| `PeerStores.PeerStore.constructor` | crates/onebrain-mesh/src/store.rs:80-85 | a handle to whatever is at the path |
| `PeerStores.SuccessIsStored` | crates/onebrain-mesh/src/store.rs:136-150 | an operation that succeeds is what every later readable load sees, applied to what was loaded; one that fails leaves the same file; it fails if and only if the file is corrupt or unreadable or a change cannot be written |
| `PeerStores.PeerStore.Contains` | crates/onebrain-mesh/src/store.rs:108-110 | whether the id is in the file now |
| `PeerStores.PeerStore.Save` | crates/onebrain-mesh/src/store.rs:247-276 | on success the file holds exactly the given peers, on failure it is the same file; it fails exactly if the write or the rename fails |
| `PeerStores.PeerStore.Add` | crates/onebrain-mesh/src/store.rs:114-151 | file and answer after adding, for every state of file and disk, as `SuccessIsStored` and `OperationIsSteps` describe them |
| `PeerStores.PeerStore.UpdateAddrs` | crates/onebrain-mesh/src/store.rs:161-187 | the file is written exactly if the record changes, and the answer says so |
| `PeerStores.PeerStore.UpdateHello` | crates/onebrain-mesh/src/store.rs:196-216 | likewise for version and build |
| `PeerStores.PeerStore.RemoveByName` | crates/onebrain-mesh/src/store.rs:220-243 | file and answer after removing; an unknown name is answered with all known names in order |
| `PeerStores.ListNames` | crates/onebrain-mesh/src/store.rs:232-237 | every name as often as there are peers with it, in order |
| `PeerSteps.OperationIsSteps` | crates/onebrain-mesh/src/store.rs:247-276 | each operation succeeds with its answer, or fails, exactly as the run of its steps (lock, load, write, rename, unlock) does, and leaves the peers which that run leaves |
| `PeerRuns.RunIsLinear` | crates/onebrain-mesh/src/store.rs:69-76 | over every interleaving and failure the events, in the order they happened, are those of a store doing one thing at a time: each answered operation took effect whole where it was answered and answers what it answers then, failed ones had no effect, loads saw exactly what was answered before them, and the file is what the answered operations come to |
| `PeerRuns.SomeTaskCanMove` | crates/onebrain-mesh/src/store.rs:69-76 | the lock never gets stuck |
| `PeerRuns.UntouchedStays` | crates/onebrain-mesh/src/store.rs:70-74 | a record stays as it is until an answered operation on that very peer |
| `PeerRuns.AnsweredIsSeen` | crates/onebrain-mesh/src/store.rs:70-74 | in any run what an answered operation left of a peer is what every later load finds, until another operation on that peer is answered |
| `PeerRuns.AbsentUntilAdded` | crates/onebrain-mesh/src/store.rs:153-160 | an absent peer stays absent until it is added |
| `PeerRuns.NeverResurrected` | crates/onebrain-mesh/src/store.rs:153-160 | in any run a peer missing from one load and present in a later one was added in between |
| `PeerRuns.NamesStayUnique` | crates/onebrain-mesh/src/store.rs:32-33 | in any run from unique names every load finds unique names |
| `Pairing.MacBinds` | crates/onebrain-proto/src/pair.rs:59-74 | whatever the ids, the two sides' MACs agree if and only if key and role agree, whichever way round the ids are given |
| `Pairing.TranscriptOfTwo` | crates/onebrain-proto/src/pair.rs:80-87 | the hashed text of two ids, the same in either order |
| `Pairing.TranscriptBindsRole` | crates/onebrain-proto/src/pair.rs:36-56 | the hashed text gives away the role for any ids |
| `Lexical.BeforeMeans` | crates/onebrain-proto/src/pair.rs:59-64 | the order of ids: the first difference decides, and a prefix comes first |
| `Pairing.TranscriptBindsIds` | crates/onebrain-proto/src/pair.rs:36-56 | with ids of one length the hashed text gives away role and pair of ids |
| `Pairing.MacBindsIds` | crates/onebrain-proto/src/pair.rs:59-104 | with ids of one length two MACs are equal if and only if key, role and pair of ids are |
| `Pairing.PairedIsGenuine` | crates/onebrain-mesh/src/pairing.rs:181-307 | in every run a side that has paired has the other's identity, name and version and they used one code; with different codes the host has not sent its confirm |
| `Pairing.NoDeadlock` | crates/onebrain-mesh/src/pairing.rs:147-321 | in every reachable state both sides have ended or one can move |
| `Pairing.AttemptEnds` | crates/onebrain-mesh/src/pairing.rs:147-321 | from every reachable state fifteen more turns for each side end the attempt |
| `Pairing.AtMostFifteenMoves` | crates/onebrain-mesh/src/pairing.rs:147-321 | in any schedule at most fifteen turns change anything |
| `Pairing.FairRunEnds` | crates/onebrain-mesh/src/pairing.rs:147-321 | every endless schedule in which each side gets a turn again and again ends the attempt |
| `Pairing.CodesDecide` | crates/onebrain-mesh/src/pairing.rs:181-307 | once ended, one code means both paired with each other, two codes mean both failed |
| `Pairing.MatchDecides` | crates/onebrain-mesh/src/pairing.rs:181-307 | whoever passes the frames on, a side pairs only if code and pair of ids match the other's, and once ended both have paired exactly then |
| `Pairing.RelayedNeverPair` | crates/onebrain-proto/src/pair.rs:55-74 | two devices, host and joiner, with any codes, whose frames are relayed but who do not have each other for a peer, never pair in any run |
| `Pairing.ProofComesFirst` | crates/onebrain-mesh/src/pairing.rs:181-243 | against any peer and any arrival of its frames, a party pairs and a host reveals its confirm only after the peer has proved the key in its own role |
| `Pairing.ReflectionIsRejected` | crates/onebrain-mesh/src/pairing.rs:18-22 | a confirm sent back to its sender proves nothing, under any key |
| `Pairing.SomeSuiteIsIdeal` | crates/onebrain-mesh/src/pairing.rs:147-175 | the laws assumed of key exchange and hash can be met |
| `Pairing.CtEq` | crates/onebrain-mesh/src/pairing.rs:127-133 | the comparison finds equality exactly if every byte is equal |
| `Calendar.CivilIsWalk` | crates/onebrain-api/src/ollama.rs:466-477 | for every day number the closed form is the valid date reached by walking from 1970-01-01 |
| `Calendar.CivilIsMonotone` | crates/onebrain-api/src/ollama.rs:466-477 | later days have later dates |
| `Calendar.ClockAddsUp` | crates/onebrain-api/src/ollama.rs:457-461 | hour, minute and second are in range and add up to the second of the day, on the date of that day |
| `Calendar.StampReadsBack` | crates/onebrain-api/src/ollama.rs:457-463 | every column of the text reads back as its field, in any year; the text has the thirty characters of RFC 3339 if and only if the year is below 10000 |
| `Calendar.Rfc3339IsFaithful` | crates/onebrain-api/src/ollama.rs:457-463 | two timestamps share a text if and only if they are equal |
| `Fnv.Inverses` | crates/onebrain-engine/src/rpc_cache.rs:34-43 | multiplying by the prime and by its inverse undo each other modulo 2^64 |
| `Fnv.MixingIsBijective` | crates/onebrain-engine/src/rpc_cache.rs:34-43 | for each byte, mixing it in is a bijection on hashes |
| `Fnv.NeverMeets` | crates/onebrain-engine/src/rpc_cache.rs:34-43 | hashing on from two hashes never meets |
| `Fnv.OneByteMatters` | crates/onebrain-engine/src/rpc_cache.rs:34-43 | equal-length payloads that differ in one byte hash apart |
| `Fnv.Fnv1a64` | crates/onebrain-engine/src/rpc_cache.rs:34-43 | the loop computes the hash |
| `Fnv.PublishedValues` | crates/onebrain-engine/src/rpc_cache.rs:60-76 | the published FNV-1a values of "", "a" and "foobar" |
| `Fnv.HexReadsBack` | crates/onebrain-engine/src/rpc_cache.rs:51-53 | the digits, lower-case, read in base sixteen are the value |
| `Fnv.HexTellsApart` | crates/onebrain-engine/src/rpc_cache.rs:51-53 | padded hex is one-to-one |
| `Fnv.NamesTellHashesApart` | crates/onebrain-engine/src/rpc_cache.rs:51-53 | a name is the hash in sixteen digits; equal names if and only if equal hashes |
| `Fnv.OneByteMovesTheFile` | crates/onebrain-engine/src/rpc_cache.rs:51-53 | payloads that differ in one byte never share a cache file |
| `Caps.TwoNodesSuffice` | xtask/src/sim.rs:4623-4645 | under the cap a node holds exactly n-1 layers, two hold the model and each the larger half |
| `Caps.SoloFallsShortIff` | xtask/src/sim.rs:4623-4645 | one node falls short if and only if copies plus rounding slack are under one layer's cost |
| `Caps.SlackIsSmall` | xtask/src/sim.rs:4209-4211 | the rounding slack is between zero and the number of layers |
| `Caps.SmallCopiesCanStillFit` | xtask/src/sim.rs:4633-4642 | copies under one layer's cost do not settle it: a model that one node holds although they are |
| `Caps.SmokeModelNumbers` | xtask/src/sim.rs:5294-5303 | the scenario's numbers for the smoke model |

## Left out

- llama.cpp, its sampler mathematics and floating point: functions at the shim boundary, reals for the mean.
- Timings, logging, HTTP, the command line, the dashboard and process driving: nothing to prove beyond one branch.
- The scheduler, admission and the engine host's held-channel backlog: only the plain step, the speculative round and the stop scan of the engine host are modelled.
- Release builds of the batch assertions: a tripped debug assertion is an outcome of its own, what a build without them does is not modelled.
- KvLanes.CopyPrefix: copying onto a sequence that is not empty is not modelled, because copying exists to share a prefix with a sequence that has none.
- 64-bit overflow in the RPC byte counters, the builder's sizes and the cap arithmetic: integers there are unbounded. The GGUF reader's overflows are modelled as an outcome of their own.
- PeerStores.DedupName: the counter is unbounded; the contract bounds it by the number of peers plus two, so a 32-bit counter overflows only with four billion peers.
- TOML and postcard encoding, SPAKE2 and BLAKE3: a store file holds a map or is corrupt, frames are values, and the cryptography is a suite of functions with stated laws.
- Lost frames, timeouts and oversized names in pairing: the streams keep what was written until it is read.
- GgufReader.ReadGgufDims: the file does not change while it is read, and reading it does not fail.
- The stack depth of nested GGUF arrays: recursion is unbounded.
- The pipeline switch, graph-size cache and buffer management of patch 0003: only the ledger, the wire and the events are modelled.

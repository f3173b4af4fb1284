# Verified model of the Langfuse Go SDK's stateful engines

A Dafny model of the small stateful engines of the SDK, and proofs of what they
promise over every byte split, every interleaving and every call history.
`dafny verify dfyconfig.toml` checks the whole project.

| engine | files |
|---|---|
| Push-mode JSON scanner | `JsonGrammar`, `JsonScanner*`, `ControlScanner` |
| Server-sent event framer and over-cap lexer | `SseBlocks`, `SseChunks`, `SseLexer`, `SseFramer` |
| Response-body lifecycle | `BodyLifecycle*`, `BodyWrapper` |
| Terminal verdict of a Responses event | `ResponsesVerdict*`, `ResponsesAlias` |
| Score delivery queue | `ScoreQueue*`, `ScoresClient` |
| Prompt cache | `PromptCache*` |
| Trace state and baggage | `TraceState*`, `BaggageExport` |
| Sampling decisions | `TraceDecision*` |
| Bounded selection, token usage, attribute budget | `BoundedKeys`, `TokenUsage`, `AttributeBudget` |

## How it is modelled

- Code that updates fields in place is a class (`ControlScanner.Scanner`,
  `SseFramer.Framer`, `SseFramer.OversizedLexer`, `BodyWrapper.Wrapper`,
  `ScoresClient.Client`, `PromptCacheClass.Cache`,
  `TraceStateClass.MutableState`, `AttributeBudget.Observation`). Each of its
  methods is proved to be one step of a specification on an abstract value, and
  the theorems are about that specification. The key selections keep their
  in-place array loops.
- Concurrency is a transition system. Every critical section is one step; the
  gap between an unlock and the signal that follows it is a program counter of
  its own; a sequence of actions is an interleaving.
- A byte is a `char` and a byte slice a `string`; the theorems hold for all of
  them. 64-bit integers are explicit bounds with clipping and wrap-around where
  the source has them.
- History variables that the code does not keep say what is meant: the logs of
  the score queue, the last use of a cache key, the bytes a body has seen, the
  span that decided a sampling bit and the context another was derived from.
- Oracles, as parameters or as nondeterministic actions: prompt fetches (which
  on success return a prompt that matches the request,
  `internal/transport/prompts.go:252-260`), clocks, delivery of a score, the
  parsers' verdicts and panics, the JSON library (unquoting, case folding,
  integer decoding), the UTF-8 and rune-count checks, the masker, the rendered
  size of a baggage member, and the tracer's fresh identifiers.

## Where the source is narrower than its comments

- The scanner rejects valid JSON with whitespace in an empty array
  (`SpacedEmptyArrayIsRejected`); the grammar theorem has exactly that
  exclusion.
- The over-cap lexer differs from the block search exactly on blocks that start
  with a blank line (`LexesBlockIff`), so `FrameAll` asks that no block long
  enough to be lexed in pieces starts with one.
- Without a sink a data block of exactly the cap is lost when a chunk ends
  between the CR and the LF of its blank line: when a read ends there
  (`SplitLosesBlock`), and in an unsplit read too, because the framer cuts its
  own chunks (`OneReadLosesBlock`). Nothing else is lost (`LossIsExact`).
- An update counts a staged metadata key whose attribute was left out when a
  plain attribute of that very name is accepted (`CountedIff`,
  `OmittedKeyIsCounted`).
- The sniffed mode depends on the read sizes exactly when more than 12 bytes of
  whitespace lead (`ModeIgnoresSplits`, `SniffBoundIsTight`).
- The buffered and the salvage path of a terminal event differ when its
  response is null or another envelope member is ill-typed (`VerdictsAgree`),
  and when a key names a field only after the JSON library's case folding
  (`VerdictsMayDiffer`).
- Observations of one trace can disagree on sampling when a start joins it from
  a context that carries no decision of it (`OneBitExactly`, `BitsMayDiffer`).
- Score-suppression authority can return on a path that leaves the trace and
  re-enters it by a parent override (`AuthorityOnlyDecreases`,
  `AuthorityOnEntry`, `AuthorityMayReturn`).
- A close asks the salvage sink whether its document is complete before the
  panic recovery is in place: a panic there leaves through Close with the body
  not finalized (`BodyLifecycle.CloseTelemetry`).

## Model

| member | source | states |
|---|---|---|
| JsonScannerTheorems.UsableIffAdmissible | contrib/openai/scanjson.go:226-458 | For every byte string, in both modes: the scan ends usable if and only if the bytes are an RFC 8259 object with surrounding whitespace, at most 64 nested containers, no empty array containing whitespace and no selected key twice |
| ControlScanner.Scan | contrib/openai/scanjson.go:195-218 | A scanner object fed a payload in any segments reports it usable exactly when some admissible document has the text of the whole |
| ControlScanner.Scanner.Feed | contrib/openai/scanjson.go:195-218 | Feeding the object one segment leaves the state that the function leaves on that segment |
| JsonScanner.FeedAppend | contrib/openai/scanjson.go:195-218 | Two segments leave the scanner where their concatenation does, so the cut of a payload into segments is irrelevant |
| ControlScanner.Scanner.Step | contrib/openai/scanjson.go:226-392 | One byte: the fields the method updates are the next state of the automaton, all of them, notes included |
| ControlScanner.Scanner.StepValue | contrib/openai/scanjson.go:411-458 | First byte of a value: container depth, literals, numbers and strings, in place |
| ControlScanner.Scanner.EndKey | contrib/openai/scanjson.go:518-565 | End of a key: selection by the decoded key, duplicate marking and the start of a capture |
| ControlScanner.Scanner.DocumentUsable | contrib/openai/scanjson.go:743-745 | Reports exactly the usable states: complete, an object, no duplicate, not invalid |
| JsonScannerTheorems.UsableText | contrib/openai/scanjson.go:518-582 | Of a well-formed bounded document, usability fails exactly when a tracked name repeats, and what is noted is a fold over the tracked members of the syntax tree |
| JsonScannerRuns.FeedDocument | contrib/openai/scanjson.go:226-392 | Completeness half: every tight, bounded object document is read to the end and leaves the notes its tree prescribes |
| JsonScannerParse.ParseDocument | contrib/openai/scanjson.go:226-392 | Soundness half: from any accepting byte string a syntax tree is rebuilt whose text is those bytes, within the depth bound |
| JsonScannerCapture.DocumentIsTracked | contrib/openai/scanjson.go:584-706 | The byte-by-byte capture and kind tracking of a document equal one note for each tracked member of its tree, in order |
| JsonScannerTheorems.CaptureIsExact | contrib/openai/scanjson.go:504-564 | On an accepted document every selected member within its cap is kept as exactly its raw bytes (a number with the byte that ended it), every other is dropped whole, and nothing else is kept |
| JsonScannerTheorems.CapturesNeverNest | contrib/openai/scanjson.go:518-565 | A key that selects a field never opens a capture while another is open |
| JsonScannerTheorems.AlwaysBounded | contrib/openai/scanjson.go:46-52 | After any input whatever, stack depth, key buffer, captured fields and their number are within their fixed caps |
| JsonScannerTheorems.SpacedEmptyArrayIsRejected | contrib/openai/scanjson.go:379-386 | A concrete well-formed object with an empty array containing a space is not usable |
| SseFramer.FrameAll | contrib/openai/internal/wiretap/sse.go:56-149 | For every stream and every cut into reads: the payloads handed over, whether the consumer stopped, and pending at the end are those of the whole stream cut into blocks, with or without a sink, under an exact condition without a sink (no chunk ended inside the CR LF behind a data block of exactly `maxEvent` bytes; a consumer that never stops otherwise lacks one payload for each such chunk) and, with a sink, when no block long enough to be lexed in pieces starts with a blank line |
| SseFramer.Framer.Feed | contrib/openai/internal/wiretap/sse.go:56-90 | One read keeps the exact-delivery invariant and the memory bound of `maxEvent` (or two bytes) between reads; and without a sink its state is that of the chunk-by-chunk function `SseChunks.Read`, whatever the stream |
| SseFramer.Framer.Take | contrib/openai/internal/wiretap/sse.go:79-88 | Buffering one chunk never exceeds `maxEvent` + 4 bytes, and delivers exactly what the chunk completes |
| SseFramer.Framer.Drain | contrib/openai/internal/wiretap/sse.go:93-149 | The drain loop reaches exactly the delivery of the buffered work, stops permanently at a terminal payload, and resynchronises after a dropped block; without a sink this is exact for every buffer |
| SseFramer.Framer.Continue | contrib/openai/internal/wiretap/sse.go:61-78 | An over-cap block streamed through the lexer ends where the block search would end it and delivers the payload the block joins |
| SseFramer.Framer.DiscardKeepingDelimiterState | contrib/openai/internal/wiretap/sse.go:157-170 | What is kept of a dropped buffer is exactly the part of a blank line it may already hold |
| SseFramer.Framer.Pending | contrib/openai/internal/wiretap/sse.go:44-46 | Before a terminal, pending is false if and only if the stream ended on a block boundary |
| SseChunks.LossIsExact | contrib/openai/internal/wiretap/sse.go:79-170 | Without a sink, for every stream and every cut into reads: if no chunk parts a block, exactly its payloads are delivered; a consumer that never stops lacks exactly one payload for each block that is parted; and a stream with no block of exactly the cap before CR LF has none |
| SseChunks.ExactChunk | contrib/openai/internal/wiretap/sse.go:79-149 | One chunk that parts no block delivers what the stream with it delivers, whether a block was being dropped or not |
| SseChunks.LossyChunk | contrib/openai/internal/wiretap/sse.go:79-149 | For a consumer that never stops one chunk adds to the payloads lacking exactly the one of a block it parts |
| SseChunks.PartsIs | contrib/openai/internal/wiretap/sse.go:97-170 | A block that is over the cap while unterminated is a complete data block within the cap exactly when it has `cap` bytes and the next byte is the LF of its CR LF |
| SseBlocks.MarkDecides | contrib/openai/internal/wiretap/sse.go:157-170 | Two partial blocks with the same delimiter state are ended by the same input and leave the same rest: what makes dropping sound |
| SseBlocks.CompleteStays | contrib/openai/internal/wiretap/sse.go:172-190 | A completed block stays the same block when more input arrives |
| SseBlocks.DeliverMore | contrib/openai/internal/wiretap/sse.go:56-149 | Delivery of a longer stream continues the delivery of its beginning, also across a stop |
| SseFramer.FindNextEvent | contrib/openai/internal/wiretap/sse.go:172-190 | The search loop returns the first block, LF LF or LF CR LF ending it, and the rest |
| SseFramer.ReadData | contrib/openai/internal/wiretap/sse.go:195-247 | The line loop returns the data fields of the block joined by newlines, and whether there was one |
| SseFramer.OversizedLexer.Feed | contrib/openai/internal/wiretap/sse.go:275-372 | The seven-state lexer object, which hands over content in runs, does what the byte-by-byte function does, for every cut into reads |
| SseLexer.LexAgrees | contrib/openai/internal/wiretap/sse.go:275-387 | From any line start, the lexer ends the event where the block search does and streams exactly the payload that joining the data fields gives |
| SseLexer.LexesBlockIff | contrib/openai/internal/wiretap/sse.go:275-387 | On a complete block the lexer agrees with the block search and the data fields if and only if the block does not start with a blank line |
| SseFramer.SplitLosesBlock | contrib/openai/internal/wiretap/sse.go:157-170 | Without a sink every block of exactly `maxEvent` bytes is lost when its CR LF is read in two pieces, though the whole stream delivers it |
| SseFramer.OneReadLosesBlock | contrib/openai/internal/wiretap/sse.go:79-88 | The framer cuts its own chunks: such a block is lost as well when it comes unsplit in one read behind a block of three bytes |
| ScoreQueueProofs.ActKeeps | internal/transport/scores.go:154-307 | Every step of every producer, flusher, shutdown and the dispatcher keeps accounting, wakeup, waiter, lifecycle and stop invariants |
| ScoreQueueTheorems.DeliveredInOrder | internal/transport/scores.go:161-185 | Over every interleaving: delivered scores are a prefix of the accepted ones, the rest is in flight or queued in order, and accepted = completed + in flight + queued |
| ScoreQueueTheorems.FlushIsABarrier | internal/transport/scores.go:191-213 | A flush that returns nil has seen everything accepted before it delivered, whatever ran in between |
| ScoreQueueTheorems.SignalledOnce | internal/transport/scores.go:291-307 | A waiter is signalled once, at the completion equal to its target, and never again |
| ScoreQueueTheorems.ShutdownDrains | internal/transport/scores.go:232-266 | When done closes, the queue is empty, everything accepted is delivered and no waiter is left; a shutdown that owns the drain returns only then |
| ScoreQueueTheorems.NoLostWakeups | internal/transport/scores.go:154-189 | In no interleaving is the dispatcher parked over queued scores without a wake token or a thread about to signal, nor, before stop, a producer blocked over an empty queue without a space token, a signal on its way or a producer about to recheck |
| ScoreQueueTheorems.NeverStuck | internal/transport/scores.go:154-307 | No deadlock: a reachable state in which no step is possible has every call returned and everything accepted delivered |
| ScoresClient.Client.TryEnqueue | internal/transport/scores.go:154-177 | The critical section of an enqueue on the object: accepted exactly when not stopped and below capacity |
| ScoresClient.Client.TryFlush | internal/transport/scores.go:194-205 | The critical section of a flush: done, or one waiter appended with the accepted count as its target |
| ScoresClient.Client.AbandonWaiter | internal/transport/scores.go:217-227 | In-place removal of the first waiter of a canceled flush, order kept |
| ScoresClient.Client.Compact | internal/transport/scores.go:291-307 | In-place compaction of the waiter array: exactly the reached waiters are closed, the others keep their order |
| ScoresClient.Client.FinishOne | internal/transport/scores.go:291-307 | The completion step on the object is the completion step of the protocol |
| PromptCacheProofs.ActKeeps | prompt_cache.go:142-483 | Every critical section of lookups, flights, direct fetches, refreshes and shutdowns keeps the cache invariants |
| PromptCacheTheorems.StoreIsOrdered | prompt_cache.go:158-214 | In every reachable state flight keys and entry keys are disjoint, the list names each entry once in last-use order, at most 256 entries, 64 foreground fetches and 8 refreshes exist, and both counters count exactly the live workers |
| PromptCacheTheorems.EvictionIsLru | prompt_cache.go:363-379 | A flight that succeeds installs its entry; at the cap it evicts exactly one entry, the one whose last use is oldest, and nothing below it |
| PromptCacheTheorems.AnswersOwnKey | prompt_cache.go:252-267 | Every entry and every prompt handed to a caller answers the key it is under |
| PromptCacheTheorems.RefreshIsGuarded | prompt_cache.go:410-449 | A refresh whose entry is still installed sees its captured generation, touches no other key and leaves the entry replaced one generation on, evicted or cooling down by its answer; any other leaves the store as it is; no key is ever added |
| PromptCacheTheorems.RefreshingMeansHeld | prompt_cache.go:392-408 | An entry is flagged exactly when a running refresh holds it, and only one does |
| PromptCacheTheorems.AbandonedForever | prompt_cache.go:296-304 | A flight is abandoned exactly when nobody waits for it, and then it is joined by nobody, ever |
| PromptCacheTheorems.ShutdownIsFinal | prompt_cache.go:467-483 | Once a shutdown has returned nil no flight, direct fetch or refresh is live, and none ever is again |
| PromptCacheTheorems.CancellationWins | prompt_cache.go:272-294 | A call whose context has ended while it is on its way returns its cancellation or a cached prompt, never a fetched one |
| PromptCacheStore.StoreEvictsOldest | prompt_cache.go:363-379 | The store loop as a whole: one removal at most, of the oldest key, and a well-formed list |
| PromptCacheClass.Cache.Store | prompt_cache.go:363-379 | The loop on the object is the store function |
| PromptCacheClass.Cache.Lookup | prompt_cache.go:158-175 | A hit moves its key to the front and admits at most one refresh when stale; a miss changes nothing |
| PromptCacheClass.Cache.MaybeRefresh | prompt_cache.go:392-404 | The admission of a background refresh on the object |
| PromptCacheClass.Cache.JoinOrStart | prompt_cache.go:222-247 | Admission to a flight: refused when closing or full, never a join of an abandoned flight, else joined or started with every counter updated |
| PromptCacheClass.Cache.CommitFlight | prompt_cache.go:252-267 | The commit of a flight on the object |
| PromptCacheClass.Cache.Leave | prompt_cache.go:296-304 | A departure on the object; the last one abandons the flight |
| PromptCacheClass.Cache.CommitRefresh | prompt_cache.go:410-449 | The guarded commit of a refresh on the object |
| ResponsesVerdict.SeverityIsTheMaximum | contrib/openai/responses.go:622-648 | The class of a terminal event is the more severe of the event and the embedded status, and a mismatch is reported exactly when an embedded status disagrees |
| ResponsesVerdictProofs.VerdictsAgree | contrib/openai/responses.go:532-612 | For every usable payload with no key that names a field only after case folding, under duplicate untracked keys, ill-typed members and dropped fields: the buffered and the salvage verdict are equal if and only if, when the envelope decodes, it is not a terminal event whose response is null, and, when another envelope member is ill-typed, the scanner kept nothing to judge (an error type, or a terminal type over a well-typed response) |
| ResponsesVerdictProofs.EnvelopeAgrees | contrib/openai/responses.go:564-599 | The scanner calls an envelope well typed exactly when the buffered validator accepts the response object |
| ResponsesVerdictProofs.KindAgrees | contrib/openai/responses.go:576-589 | The kind noted for a member is accepted exactly when that of the value the library decodes is |
| ResponsesVerdictProofs.FieldAgrees | contrib/openai/responses.go:1335-1357 | A retained or dropped string field reads the same on both paths |
| ResponsesAlias.AliasSplitsTheVerdict | contrib/openai/responses.go:1176-1238 | For every key the library folds to "status", every first and every second value: the buffered path judges by the second, the salvage path by the first |
| ResponsesAlias.VerdictsMayDiffer | contrib/openai/responses.go:1176-1238 | Hence one admissible event with "status" and "STATUS" is an error to one path and a success to the other |
| TraceStateLaws.LastImportWins | baggage.go:106-220 | For every bag: importing a namespace and then another leaves the attribute state of importing the second alone |
| TraceStateLaws.LocalLayerStays | baggage.go:128-212 | An import changes no local field and no local metadata key |
| TraceStateLaws.LocalValuesWin | context.go:346-414 | A local value stays through any sequence of imports |
| TraceStateLaws.ImportedKeys | context.go:346-414 | After an import the metadata is the local keys and the keys just normalized, at most 32 together, and the accepted keys are exactly the second |
| TraceStateLaws.HistoryIsWellFormed | context.go:251-414 | Over every history of local calls and imports: at most 32 valid metadata keys, short values, valid environment, and only set fields are accepted |
| TraceStateClass.MutableState.Import | baggage.go:128-212 | The in-place import, visiting members in any order, ends in the state the order-free import function gives; adding keys never truncates |
| TraceStateClass.MutableState.MergeImportedMetadata | context.go:346-414 | The in-place projection of the accepted metadata is the import of it |
| TraceStateClass.MutableState.RetireFields | baggage.go:189-211 | Exactly the accepted fields not confirmed by this namespace are cleared |
| TraceStateClass.MutableState.AddKeys | context.go:388-414 | Keys chosen to fit are all added, in any order, and the cap is never reached |
| BaggageExport.ExportIsBounded | baggage.go:286-400 | The header has at most 64 members and 8192 bytes, commas counted, and the Langfuse members in it are a prefix of the priority order that stops only where the next does not fit |
| BaggageExport.WireBaggageMembers | baggage.go:286-410 | From the state, the claim and the inbound bag: sorting, filtering and the budgeted loops over one list and one running total compute that header |
| BaggageExport.RoundTrip | baggage.go:149-200 | With an identity mask and no budget drop, importing the export into a fresh context recovers exactly the sender's non-empty wire-domain fields and string metadata |
| TraceDecisionProofs.AuthorityMeansOurs | observation.go:236-260 | Over every history of starts, foreign spans, rate changes and parent overrides: an authoritative decision means every ancestor up to a parentless root is an observation of this client that published the same bit |
| TraceDecisionProofs.OneBitPerOrigin | sampler.go:30-61 | Over every history, whatever the rate, foreign spans or lost authority: decisions inherited from one deciding span have its bit, and on an owned client the spans themselves are all exported or none |
| TraceDecisionProofs.OneBitExactly | sampler.go:30-61 | All spans of a trace published one bit if and only if no start that joined it from a context without a decision of it was sampled otherwise by its own rate |
| TraceDecisionProofs.CoordinatedTraceAgrees | sampler.go:30-61 | Hence where every start in a trace begins it or has a decision of it, all its decisions agree, with or without authority, and on an owned client all span flags |
| TraceDecisionProofs.BitsMayDiffer | sampler.go:44-61 | The condition is needed: a child of a sampled root, started from a context without its decision at another rate, is not sampled |
| TraceDecisionProofs.AuthorityHasTheRoot | observation.go:236-260 | An authoritative decision was decided by the one parentless root of its trace |
| TraceDecisionProofs.OneBitPerTrace | observation.go:236-260 | Hence any two authoritative decisions of one trace have the same origin and bit |
| TraceDecisionProofs.AuthorityOnlyDecreases | observation.go:214-260 | Along every path of derived contexts that all carry a decision of the trace, authority never returns, and without a parent override neither the bit nor its origin changes |
| TraceDecisionProofs.AuthorityMayReturn | observation.go:214-260 | The condition is needed: a path that leaves the trace may regain lost authority by a parent override from another trace |
| TraceDecisionProofs.AuthorityOnEntry | observation.go:214-260 | A start that enters a trace its context has no decision of is authoritative if and only if it begins the trace, or takes it from an authoritative parent override while the ambient span is in another |
| TraceDecisionProofs.ChainRoot | observation.go:236-260 | Such a chain ends in a parentless root of the same trace with the same bit |
| TraceDecisionProofs.SuppressionIsSafe | score.go:248-267 | A score is suppressed only where the ambient span and all its ancestors are unsampled observations of this client |
| TraceDecision.SamplingNests | sampler.go:71-83 | A trace selected at a fraction is selected at every larger fraction |
| BoundedKeys.BoundedMetadataKeys | internal/attributes/attributes.go:258-311 | For every iteration order, the in-place loop returns all existing valid keys sorted and then the smallest valid new keys that fit, and reports invalid and truncated exactly |
| BoundedKeys.BoundedUsageKeys | internal/attributes/attributes.go:419-449 | For every iteration order, the in-place loop returns the smallest valid usage keys, sorted |
| BoundedKeys.Keep | internal/attributes/attributes.go:289-304 | One key of the visit: the array holds the smallest keys seen so far |
| BoundedKeys.InsertAt | internal/attributes/attributes.go:296-304 | The shift and write insert the key at its place |
| BoundedKeys.SelectionIsUnique | internal/attributes/attributes.go:258-311 | Being the smallest keys, sorted, determines the list |
| BoundedKeys.OrderIsIrrelevant | internal/attributes/attributes.go:258-311 | Two visits of the same map in different orders select the same keys |
| TokenUsage.NormalizeUsage | internal/attributes/attributes.go:339-412 | 64-bit saturating accounting gives every bucket the value of unbounded integer arithmetic: base = max(0, total - sum of subsets) |
| TokenUsage.BucketsAddUp | internal/attributes/attributes.go:339-412 | The buckets of a direction sum to max(total, subsets), in unbounded integers |
| TokenUsage.BaseIsExact | internal/attributes/attributes.go:796-810 | Clipping the subsets to 64 bits does not change the base bucket |
| TokenUsage.ClipAdd | internal/attributes/attributes.go:789-794 | Saturating after every addition equals saturating once at the end |
| TokenUsage.SaturatingSub | internal/attributes/attributes.go:796-804 | Subtraction is exact whenever the difference is representable |
| AttributeBudget.FitIs | observation.go:424-453 | After any list of items used bytes equal the sum of recorded sizes, both caps hold, and the level and status are never left out |
| AttributeBudget.Observation.FitBudget | observation.go:424-453 | The loop accepts exactly the items for which there is room when they are met, and reports an omission exactly when one was left out |
| AttributeBudget.Observation.constructor | observation.go:186-194 | A start fits its attributes and counts the metadata keys among those recorded |
| AttributeBudget.Observation.Update | observation.go:331-371 | An update stages new metadata keys up to the lifetime cap of 32, the start included, fits the budget, and counts exactly the staged keys that the name of an accepted attribute trims to; every recorded metadata key is counted |
| AttributeBudget.CountedIff | observation.go:361-371 | A staged key is so counted if and only if its metadata attribute was accepted, or a plain attribute of that very name was |
| AttributeBudget.OmittedKeyIsCounted | observation.go:361-371 | A concrete update counts a metadata key whose attribute is too large to be accepted, because the accepted level has that name |
| AttributeBudget.Observation.RecordError | observation.go:512-578 | Whatever was recorded before, the level and a message of up to 64 KiB are recorded and never omitted |
| AttributeBudget.SumUpdate | observation.go:437-448 | Replacing a recorded size changes the sum by the difference |
| BodyLifecycleProofs.FinalizesOnce | contrib/openai/internal/wiretap/body.go:386-413 | Over every sequence of reads, errors, closes and parser panics there is at most one finalization and no parser callback after it |
| BodyLifecycleProofs.ParserGetsTheBytes | contrib/openai/internal/wiretap/body.go:177-268 | The parser is finished with exactly the bytes inspected, and the salvage sink and the framer are fed exactly those, the sniffed prefix and the retained buffer included |
| BodyLifecycleProofs.SeenIsRead | contrib/openai/internal/wiretap/body.go:177-268 | The bytes inspected are a prefix of the bytes read, and all of them while the body is neither finalized nor given up |
| BodyLifecycleProofs.ModeIgnoresSplits | contrib/openai/internal/wiretap/body.go:177-268 | With at most 12 bytes of leading whitespace the mode a body is in after any reads is what the concatenated bytes decide, for every cut into reads |
| BodyLifecycleProofs.SniffStays | contrib/openai/internal/wiretap/body.go:426-444 | A sniffing decision stays whatever bytes follow |
| BodyLifecycleProofs.SniffBoundIsTight | contrib/openai/internal/wiretap/body.go:426-444 | For every larger amount of leading whitespace two cuts of the same bytes leave the body in different modes |
| BodyWrapper.Wrapper.Process | contrib/openai/internal/wiretap/body.go:177-268 | The wrapper object on one read: mode, buffers and calls made are the step of the lifecycle |
| BodyWrapper.Wrapper.TerminalRead | contrib/openai/internal/wiretap/body.go:273-327 | The end of the transport on the object |
| BodyWrapper.Wrapper.CloseTelemetry | contrib/openai/internal/wiretap/body.go:333-371 | A close, or the abandonment safety net, on the object, with a completeness probe that may panic unrecovered |
| BodyWrapper.Wrapper.FinalizeLocked | contrib/openai/internal/wiretap/body.go:386-413 | Finalization on the object: once, freezing the parser on hard outcomes |

## Left out

- ResponsesVerdictProofs.VerdictsAgree: the exclusion of keys that only fold to a field name is one way, because whether such a key changes the verdict depends on its value; `AliasSplitsTheVerdict` gives both verdicts for the status.
- SseFramer.FrameAll: with a sink the condition is sufficient, not necessary, because a block lexed otherwise can still carry the same payload (`LexesBlockIff` is exact for each block); without one, a consumer that stops can stop at a repetition of the payload it lost.
- BodyLifecycleProofs.ModeIgnoresSplits: is about reads during which the parser neither panics nor ends the exchange, because those end the inspection.
- BaggageExport.RoundTrip: claims and foreign members are carried but not compared.
- AttributeBudget.Observation.Update: takes the attributes already built and their sizes; the second check of a concurrent end is the one modelled, and which keys an application set explicitly is not tracked.
- ControlScanner.Scanner.Step: presence tracking of output content and the mode of the enclosing container kept for it are not modelled; they never affect usability or capture.
- JsonGrammar: string bytes are not checked to be UTF-8, in the source as in the model.
- Score delivery itself: the HTTP exchange, retries, backoff, diagnostics and the drop of scores after cancellation are one opaque delivery step.
- A queue capacity of zero: the constructor replaces it by a default, so the queue theorems ask for a positive one.
- Prompt entries are values with an identity number and the recency list is a sequence, so pointer aliasing of entries and list elements is not modelled; prompts handed out are not deep-copied.
- Responses call state other than the terminal verdict (text items, usage, status and output accumulation) and the choice of what counts as output.
- Claim replacement on import, tags, prompt links and the propagation marker of trace state; the laws are about attribute state.
- Percent-encoding of baggage values and the order of foreign members beyond their key order; the rendered size of a member is a parameter.
- Detaching a context, remote parents and foreign spans are one action that sets the ambient span; content capture and client shutdown flags are not modelled.
- Span contexts with a trace ID but no span ID: what the tracer does with such a parent is decided outside this repository, so an ambient span is valid or none.
- Encoding of values, reflection size estimates, masking policy and diagnostics text in the attribute code.
- Fields of usage other than token counts, and cost details.
- The finalizer that abandons a body is one more close action.
- The copy of the framer and body wrapper under `contrib/googlegenai`, which is byte-identical.
- REST wrappers, exporters, prompt templating, chat and Gemini accumulators, route recognition and content sanitising: they would add only single-branch facts.

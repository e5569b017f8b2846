# Ariel: a verified model of the assistant runtime's stateful core

Ariel runs a turn by letting a language model write small programs, running them, and feeding the outcome back until
something terminal happens. This project models the parts of it whose correctness rests on invariants over many steps:

- **the agent loop** (`Window*.dfy`, `Loop*.dfy`, `Grounding.dfy`, `AgentLoop.dfy`). The conversation is one message
  list edited under three disciplines at once: a fixed budget slot, a sliding window of round spans that are
  re-indexed after each eviction, and a truncation at the tail of the last emit_value round. `AgentLoop.AgentLoop` is
  the loop with its fields updated in place; every method is proved equal to a function of `Window` and `Loop`, and
  `RunLoop` to `Loop.Run` over the answers it consumed, so the lemmas about those functions hold of every run.
  Model replies, program results and the clock are arbitrary.
- **the schema readiness cache** (`SchemaProbe*.dfy`, `SchemaReadinessProbe.dfy`): a double-checked-locking TTL cache
  as atomic steps of any number of threads, and the same object called by one thread, whose calls are shown to be
  actions of that system.
- **capture ingress** (`Capture*.dfy`): request normalisation, and interleaved transactions that lock the idempotency
  key, look it up in a snapshot or in the newest commits, insert and commit under a unique index. `CaptureIngress`
  plays one such transaction on mutable tables.
- **attachment reads** (`Text*.dfy`, `Attachment*.dfy`): the chunking loop and the layout of text in blocks, and the
  content-addressed blob store with its extraction cache under runs of reads, new sources, tombstoned blobs and lost
  files.
- **recent events** (`Compaction.dfy`, `EventLines.dfy`, `RecentEvents.dfy`, `JsonText.dfy`): the recursive JSON
  compactor, the byte-budget window, and a JSON reader that every rendered line reads back with.
- **redaction and approval ids** (`Redaction.dfy`, `DiscordActions.dfy`), on `Text.dfy` and `Json.dfy`.

## What the proofs found

- *One emit_value round in context* (the comment at `src/ariel/agent_loop.py:935-936`) is not a law of the code:
  `last_emit_value_tail` is not shifted when an older round is evicted. It holds in every run exactly when
  `live_rounds <= 1` or `max_model_calls_hard <= live_rounds + 1`; every tool call keeps its return exactly when
  `max_model_calls_hard <= live_rounds + 1`. The defaults (300 and 8, `src/ariel/config.py:137` and `:144`) meet
  neither condition. What survives in all runs: the context bound, the well-formed window, and each return right
  behind its own tool calls.
- *No approval of a failed program stays live* (the docstring of `_void_approvals`) fails exactly when the program
  that staged one repeats the non-empty errors of the one before it: that return comes before the voiding.
- *A run's result tells of its live approvals* fails exactly when the last program staged one and then repeated errors,
  emitted a message that was accepted, emitted an ungrounded one after two rejections, or staged a second one. The
  result names an approval only in its `approval` outcome, and then only the first.
- *Identical errors end the run* is checked between successive programs only: under every configuration that allows
  three calls, and no other, a run can fail with a, then b, then a, and go on.
- *Visible within the TTL* (the docstring of `SchemaReadinessProbe`) holds exactly if at most one thread calls. With two
  or more there is no bound at all: the unlocked fast path can pair an old list with a newer timestamp, so a list of
  any age can be returned. Results whose two reads saw one store are younger than the TTL in any case.
- *One capture per key* holds on every database, by the unique index. The advisory lock is there so that a call which
  comes second replays instead of failing on that index. This holds exactly where there is such a lock and lookups read
  the newest commits. The program does not run so: its engine is SERIALIZABLE (`src/ariel/app.py:979-984`), a snapshot
  is taken when the first statement starts, and the first statement is the one that waits for the lock
  (`src/ariel/capture_ingress.py:126-129`). A call that waited does not see the row it waited for, looks up nothing,
  inserts, and is refused; `src/ariel/app.py:2508-2530` does not catch that.
- *A cached extraction is what a fresh one would give* holds exactly when the calls' extractors agree on every content
  the runtime takes in. Blocks always come from that very content, but the cache key has no intent, so where two
  intents extract differently the second read gets the first one's blocks.

- *Canonical IDs survive at any nesting depth* (the docstring of `_compact_event_payload`) fails exactly below a
  top-level key `_truncated` of a payload over the cap, which the mark of that name replaces.

## Model

| member | source | states |
|---|---|---|
| AgentLoop.AgentLoop.RunLoop | src/ariel/agent_loop.py:334-1031 | The loop terminates, and its result and final state are those of the run of the answers it consumed. |
| AgentLoop.AgentLoop.constructor | src/ariel/agent_loop.py:302-333 | The state before the first iteration: the given messages are the stable prefix, no spans, no tail, earlier attempts of the turn kept. |
| AgentLoop.AgentLoop.OpenModelCall | src/ariel/agent_loop.py:344-373 | The wrap-up nudge once, the budget line in its one slot, the call counted. |
| AgentLoop.AgentLoop.HandleReply | src/ariel/agent_loop.py:401-533 | Retry, model failure, protocol failure, repeated source, or the executed program's branch. |
| AgentLoop.AgentLoop.HandleFailure | src/ariel/agent_loop.py:554-658 | A failed program: identical errors end the run before anything is voided; otherwise its approvals are voided and the failure is fed back. |
| AgentLoop.AgentLoop.HandleSuccess | src/ariel/agent_loop.py:660-1031 | A clean program: premature-synthesis and grounding rails, terminal branches, then one of the four feedback rounds. |
| AgentLoop.AgentLoop.AppendEmitBlock | src/ariel/agent_loop.py:935-966 | The messages of the last emit_value round and all after it go, with their spans, and the tail moves to the new round. |
| AgentLoop.AgentLoop.EvictOldestRound | src/ariel/agent_loop.py:1256-1288 | In-place eviction and re-indexing equal `Window.RecordRound`, tail not shifted. |
| AgentLoop.AgentLoop.VoidApprovals | src/ariel/agent_loop.py:1291-1327 | Exactly the awaiting attempts of the failed program become expired, each with one event in order; all other attempts stay. |
| LoopWindow.EveryContextIsBounded | src/ariel/agent_loop.py:935-941 | At every model call of every run the context has at most stable prefix + 2 + 4 * live_rounds messages. |
| WindowBound.ContextBound | src/ariel/agent_loop.py:1271-1288 | The window invariant caps the context: what lies outside the spans lies below the emit tail, in half-cut leftovers of earlier rounds. |
| LoopWindow.EveryWindowIsWellFormed | src/ariel/agent_loop.py:301-371 | At every model call: stable prefix untouched, this call's budget line in its slot and no other budget line, at most live_rounds spans, increasing and disjoint past the slot, each exactly the block its round appended, in round order. |
| LoopWindow.EveryReturnIsPaired | src/ariel/agent_loop.py:477-484 | At every model call each tool return sits right behind the tool calls of its own round and answers their non-empty ids. |
| LoopWindow.UnslippedContextIsFresh | src/ariel/agent_loop.py:935-941 | While no round was evicted under a set emit tail, every tool call has its return and at most one emit_value round is visible. |
| LoopWindow.TailNeverGrows | src/ariel/agent_loop.py:937-941 | Over every step of every run the emit tail, once set, never increases. |
| LoopFresh.OneValuesExactly | src/ariel/agent_loop.py:935-941 | For which configurations every context of every run holds at most one emit_value round, and at most one whose values are shown: if and only if, the same for both. |
| LoopFresh.AnsweredExactly | src/ariel/agent_loop.py:1281-1288 | For which configurations every tool call in every context, and every one with an id to return to, is followed by the return of exactly its ids: if and only if, the same for both. |
| WindowProofs.AppendRoundEvictsExactlyOldest | src/ariel/agent_loop.py:1271-1288 | In a well-formed window the two safety returns are never taken: overflow removes exactly the oldest round. |
| LoopOutcomes.CallsBounded | src/ariel/agent_loop.py:335-342 | Every run makes at most max_model_calls_hard + 1 model calls, retries and protocol failures included. |
| LoopOutcomes.EveryRunStops | src/ariel/agent_loop.py:334-342 | After max_model_calls_hard + 2 iterations every run has stopped. |
| LoopOutcomes.StuckRunsEnd | src/ariel/agent_loop.py:503-566 | No two successive programs have equal source, and the identical-errors exit is taken exactly when two successive programs fail with the same non-empty errors. |
| LoopOutcomes.AlternatingErrorsGoOn | src/ariel/agent_loop.py:560-566 | A run can fail with errors a, b, a, no clean program in between, and go on: under a valid configuration if and only if it allows three calls. |
| LoopOutcomes.MessageExactly | src/ariel/agent_loop.py:744-852 | An iteration ends the run with a message exactly when the program is clean, new, emits one, is not a first-call read, and the turn is grounded. |
| LoopOutcomes.GroundingIsSticky | src/ariel/agent_loop.py:1039-1087 | Once the turn is grounded it stays grounded however the run goes on, voided approvals included. |
| LoopOutcomes.RejectionsBounded | src/ariel/agent_loop.py:771-796 | At most two grounding rejections are fed back, and a run ends exhausted exactly at its third. |
| LoopOutcomes.ProgramEndsExactly | src/ariel/agent_loop.py:554-887 | In message mode, which of the five exits an executed program takes, each by a condition on the state and the program alone; it takes no other. |
| LoopOutcomes.BudgetExhaustedExactly | src/ariel/agent_loop.py:335-566 | An iteration ends budget-exhausted exactly past the clock or call cap, on a repeated source, or on repeated errors. |
| LoopOutcomes.DeliveredExactly | src/ariel/agent_loop.py:800-836 | A finding or operations run ends with its finding or its operations exactly when a new clean program emits one in that mode, and only those results carry one. |
| LoopFeedback.NextContextTells | src/ariel/agent_loop.py:471-1031 | At the next call the newest round of the context is the one the turn calls for: protocol failure, the failed program's errors, rejection, all emitted values, the trace with its premature flag exactly as it applies, or no output. |
| LoopFeedback.ResultExactly | src/ariel/agent_loop.py:335-887 | A run's result names its outcome by its exit, carries only what that outcome carries, its silent reason included, and counts the calls made. |
| LoopFeedback.ModelFailedExactly | src/ariel/agent_loop.py:421-453 | A failed model call ends the run exactly if the run does not retry or the error does not allow it; a retry changes nothing but the call's own head. |
| LoopFeedback.StopsAtHeadExactly | src/ariel/agent_loop.py:335-342 | An iteration ends the run before its call exactly past the hard budget or the hard cap of calls. |
| LoopFeedback.NudgedExactly | src/ariel/agent_loop.py:344-367 | The wrap-up nudge is added at the first head past a soft limit and never again; the remaining budget shown is never negative. |
| LoopFeedback.AttemptsExactly | src/ariel/agent_loop.py:1291-1327 | After an iteration all earlier attempts are as before, and those of its program are added: expired with reason and time, pending approvals with them, exactly if the program failed anew, voiding is on and they awaited approval; otherwise unchanged. |
| LoopFeedback.AttemptsStay | src/ariel/agent_loop.py:1291-1327 | No attempt is touched again later in the run. |
| LoopApprovals.HeadsHaveNoLiveApproval | src/ariel/agent_loop.py:642-649 | With voiding on, at every loop head no attempt of this run awaits approval, and exactly the staged ones have been expired, one event each in order. |
| LoopApprovals.LiveApprovalsExactly | src/ariel/agent_loop.py:554-872 | In every message run with voiding on, an iteration leaves an approval of the run live exactly when it executes a program that stages one and is clean or repeats the errors before it. |
| LoopApprovals.ReportExactly | src/ariel/agent_loop.py:554-872 | The result's `awaiting_approval` is exactly the run's live approvals unless the last program staged one and repeated errors, emitted an accepted message, exhausted the grounding rail, or staged a second one. |
| LoopApprovals.MessageCanWithhold | src/ariel/agent_loop.py:838-852 | Under every message configuration without grounding demands, a one-program run ends with its message and a live approval that the result does not carry. |
| LoopApprovals.SecondApprovalIsWithheld | src/ariel/agent_loop.py:854-872 | Under every message configuration, a program that stages two approvals ends the run reporting the first one only. |
| LoopApprovals.IdenticalErrorsCanLeak | src/ariel/agent_loop.py:560-566 | Under every message configuration with voiding some run ends by identical errors with a live approval its result does not carry. |
| LoopApprovals.ExhaustedGroundingCanLeak | src/ariel/agent_loop.py:785-796 | Under a message configuration with voiding some silent, grounding-exhausted run ends with a live approval if and only if it demands grounding and allows three calls. |
| Grounding.CheckSatisfied | src/ariel/agent_loop.py:1039-1087 | The scan answers yes exactly when no id is demanded or some succeeded read names a demanded message, thread or evidence id. |
| Grounding.MailReadGrounds | src/ariel/agent_loop.py:1068-1079 | A mail read that names one message or thread, in its message or its evidence, grounds exactly when that id is demanded. |
| Grounding.EvidenceReadGrounds | src/ariel/agent_loop.py:1059-1086 | The same of an evidence ref of a mail read and of the id of an evidence read. |
| SchemaProbeProofs.RunInv | src/ariel/db.py:362-390 | Lock ownership, the pairing of the two fields and what each thread knows hold in every interleaving. |
| SchemaProbeResults.SingleFlight | src/ariel/db.py:374-385 | In every interleaving at most one thread reflects, and it owns the lock. |
| SchemaProbeResults.ReflectionsAreSpaced | src/ariel/db.py:374-385 | Without an invalidation in between, a reflection starts at least the TTL after the timestamp of every earlier successful one. |
| SchemaProbeResults.ResultsWereCached | src/ariel/db.py:362-385 | Every returned list was computed by the call or was in the cache at some instant of the call. |
| SchemaProbeResults.UntornResultsAreFresh | src/ariel/db.py:364-373 | A cached result is younger than the TTL unless a newer store fell between its two reads. |
| SchemaProbeResults.CallsAloneAreFresh | src/ariel/db.py:362-385 | Cached results of calls that no other thread's steps overlap are younger than the TTL. |
| SchemaProbeResults.FreshnessExactly | src/ariel/db.py:362-385 | Whatever the runs of a set of threads, all cached results are younger than the TTL if and only if the set has at most one thread; every age is reached if and only if it has two or more. |
| SchemaProbeResults.TornReadHasNoAgeBound | src/ariel/db.py:364-373 | For every TTL, every age and any two threads some interleaving of the two returns a list at least that old. |
| SchemaReadinessProbe.SchemaReadinessProbe.SchemaIssues | src/ariel/db.py:362-385 | A call no other overlaps: reflects exactly when neither check finds a list of age below the TTL, stores what it found unless reflection raises, and is a sequence of actions of the interleaved system that returns the same list. |
| SchemaReadinessProbe.SchemaReadinessProbe.Invalidate | src/ariel/db.py:387-390 | No later call finds a cached list; also actions of the interleaved system. |
| CaptureNormalize.NormalizeUrls | src/ariel/capture_ingress.py:322-353 | URLs are accepted exactly when at most 16, each valid once stripped, pairwise distinct once stripped; order is kept; an error names a first offending URL. |
| CaptureNormalize.NormalizeSharedContent | src/ariel/capture_ingress.py:293-369 | Shared content is accepted exactly when its text, if given, is non-blank and in bounds, its URLs are acceptable, and one of both is there. |
| CaptureNormalize.NormalizeEnvelope | src/ariel/capture_ingress.py:427-492 | A request is accepted exactly when its note, source and content are well formed; what is kept is the same fields stripped; errors come in order. |
| CaptureNormalize.ErrorsExactly | src/ariel/capture_ingress.py:157-290 | Which error a blank, too long or non-web value gets, by kind. |
| CaptureNormalize.CanonicalExactly | src/ariel/capture_ingress.py:427-492 | The canonical payload keeps every field of the request, stripped, URLs in order, and nothing else. |
| CaptureNormalize.CanonicalIsFixed | src/ariel/capture_ingress.py:427-492 | Normalisation is a fixed point on its own output. |
| CaptureStore.LockIdExactly | src/ariel/capture_ingress.py:114-119 | Lock ids lie in [-2^63, 2^63) and are equal exactly when the 8-byte digest prefixes are. |
| CaptureProofs.RunInv | src/ariel/capture_ingress.py:495-579 | Unique keys and ids, row counts and what every transaction knows hold in all interleavings, on every database. |
| CaptureProofs.OneCapturePerKey | src/ariel/capture_ingress.py:508-579 | In all interleavings, with or without advisory locks, with or without snapshots, each key owns at most one capture, with one turn and two events for each capture. |
| CaptureProofs.CallsOfOneKeyAgree | src/ariel/capture_ingress.py:520-528 | Every success with a key returns its one capture, and an answered call conflicts exactly when the stored hash differs. |
| CaptureProofs.ConflictExactly | src/ariel/capture_ingress.py:502-528 | With a collision-free digest, an answered call conflicts exactly when the two calls' requests normalise to different payloads. |
| CaptureProofs.StoreChangesOnlyByCreation | src/ariel/capture_ingress.py:520-579 | Replays, conflicts, rejections, refusals and aborts leave the store unchanged; a creation adds one capture, one turn, two events. |
| CaptureProofs.RefusalsExactly | src/ariel/capture_ingress.py:122-129 | The unique index never refuses an insert in any interleaving if and only if the database is Postgres, where the lock is taken, and lookups read the newest commits instead of a snapshot. |
| CaptureProofs.RefusedExactly | src/ariel/capture_ingress.py:507-579 | A call is refused exactly when a capture of its key was committed between what its lookup saw and its insert or its commit. |
| CaptureIngress.CaptureIngress.RecordCapture | src/ariel/capture_ingress.py:495-579 | One uninterrupted call plays a transaction of the system to its end, is never refused, lets its lock go, and adds a capture exactly when it created one. |
| CaptureIngress.RunThenPlay | src/ariel/capture_ingress.py:495-579 | Calls played one after another are a run of the interleaved system, so all its laws hold of them. |
| TextBlocks.BoundedTextBlocks | src/ariel/attachment_content.py:798-817 | At most 4 trimmed blocks of at most 2000 characters and 6000 in all, laid out as `TextLayout.LaidFrom` says; their non-blank characters are in order a prefix of the text's, all of them unless a limit was reached; the inner break is never taken. |
| TextLayout.SpacingKept | src/ariel/attachment_content.py:799-800 | Two neighbouring non-blank characters of a block are neighbours of the text, and have white space between them in the block exactly when they have some in the text. |
| TextLayout.LayoutOnce | src/ariel/attachment_content.py:798-817 | The layout determines the blocks: runs of blanks become one space, a block holds no paragraph break and keeps to its room, and a new one starts only after a break or where the room before it was used up. |
| TextNormal.NormalizedInk | src/ariel/attachment_content.py:799-805 | Whitespace normalisation and paragraph splitting lose no non-blank character. |
| TextBlocks.ChunkSpec | src/ariel/attachment_content.py:809-816 | One chunk of a trimmed paragraph is never empty and is a prefix of it, and what remains holds the rest of the ink. |
| AttachmentReads.AttachmentStore.ExecuteRead | src/ariel/attachment_content.py:145-456 | The read on tables updated in place equals `AttachmentReads.Read`: every failure status, store, revival, cache hit and extraction. |
| AttachmentReads.AttachmentStore.Store | src/ariel/attachment_content.py:325-362 | New content gets a blob and a file; known content gets its file back and, if tombstoned, is revived. |
| AttachmentProofs.StoreIsContentAddressed | src/ariel/attachment_content.py:325-365 | After any run from empty tables: one blob per content hash, each present file hashes to its blob's hash and has its size, at most one fresh succeeded extraction per blob and modality. |
| AttachmentProofs.RunKeepsHealthy | src/ariel/attachment_content.py:145-456 | The store's invariant outlives reads, new sources, tombstones and lost files in any order on a monotone clock. |
| AttachmentFreshness.EveryReadIsGenuine | src/ariel/attachment_content.py:367-409 | After any run, every successful read reports the hash and the size of the content in the source's file, or else of the download, and blocks that some call extracted from that content in that modality. |
| AttachmentFreshness.FreshExactly | src/ariel/attachment_content.py:367-388 | For every runtime, every set of extractors and every modality: all reads of all runs report what the reading call itself would extract if and only if the extractors agree on every content the runtime takes in. |
| AttachmentFreshness.EveryReadIsFresh | src/ariel/attachment_content.py:367-409 | For a modality extracted from the content alone, a successful read after any run reports the hash, the size and the extraction of the content it is about. |
| AttachmentRereads.RereadIsFree | src/ariel/attachment_content.py:179-187 | Re-reading a source after a success, with any reads in between, gives the same outcome without download or extraction and changes no table. |
| AttachmentFreshness.CacheIgnoresIntent | src/ariel/attachment_content.py:367-388 | For every runtime and every fetchable source whose content it takes in, a second read gets the first one's blocks, whatever it would itself extract. |
| AttachmentRereads.RevivedContentIsExtractedAnew | src/ariel/attachment_content.py:355-379 | In every reached store, content that comes back later than the last event after its blob was tombstoned is extracted again from the download; older extractions are not used. |
| AttachmentRereads.FailClosedStoresNothing | src/ariel/attachment_content.py:311-324 | Under fail_closed no run creates or revives a blob or writes a file. |
| AttachmentRereads.ReadFailsUnasked | src/ariel/attachment_content.py:157-252 | Why a read fails without asking the outside: unknown source, unsupported type, too large, expired, not decryptable, in this order. |
| AttachmentRereads.ReadFailsFetched | src/ariel/attachment_content.py:253-324 | Why a read that downloads stores nothing: the download's own status, unsupported type, unsafe, fail-closed, in this order. |
| AttachmentRereads.ModalityExactly | src/ariel/attachment_content.py:578-593 | Which MIME types belong to which modality. |
| AttachmentRereads.ReadKindExactly | src/ariel/attachment_content.py:283-444 | A successful read reports the modality its content has for its source, and the type the content was taken in with, new or revived. |
| Compaction.WalkFixpoint | src/ariel/conversational_continuity.py:71-101 | Compaction changes a value exactly when it holds something to compact outside ID keys, and compacting twice is compacting once. |
| Compaction.WalkedIsCompact | src/ariel/conversational_continuity.py:71-101 | Outside ID keys the output has no string over 200 characters and no list over 50 items. |
| Compaction.IdsSurvive | src/ariel/conversational_continuity.py:65-101 | Every value under an ID key is found untouched after compaction, below a long list under `_sampled`. |
| Compaction.IdLookupsAgree | src/ariel/conversational_continuity.py:65-101 | Along short lists, lookups of ID paths agree before and after compaction, absent ones included. |
| Compaction.PlacesSurvive | src/ariel/conversational_continuity.py:71-101 | What stands at a path of other keys and indices stands there compacted, below a long list under `_sampled`. |
| Compaction.LongStringShown | src/ariel/conversational_continuity.py:77-84 | A string over 200 characters becomes its first 80 and its size in bytes. |
| Compaction.LongListShown | src/ariel/conversational_continuity.py:85-92 | A list over 50 items becomes its size and its first 50, each compacted. |
| JsonText.ReadBack | src/ariel/conversational_continuity.py:148-157 | Every rendered JSON value reads back as itself. |
| EventLines.IdShownExactly | src/ariel/conversational_continuity.py:104-114 | A canonical id of a payload is found untouched in the shown payload if and only if the payload fits the cap or the id is not below a top-level `_truncated`. |
| EventLines.LineShowsId | src/ariel/conversational_continuity.py:146-171 | Every such id is found in the row that a line reads back as, unless that row is oversize. |
| RecentEvents.LineIsShown | src/ariel/conversational_continuity.py:146-171 | A line reads back as exactly the event's five columns, its payload unchanged if it renders within the cap and else compacted and marked, or marked oversize exactly if even that row is over the cap. |
| RecentEvents.CostIsBytes | src/ariel/conversational_continuity.py:172-181 | The budget is counted in bytes of the rendered text. |
| RecentEvents.BuildRecentEventsBlock | src/ariel/conversational_continuity.py:117-181 | The block is absent exactly for an empty log; else it splits into the header and, oldest first, the lines of the newest events that fit the budget, no longer suffix fitting, or the last line alone; each line shows its event. |
| RecentEvents.WindowIsLongest | src/ariel/conversational_continuity.py:175-179 | That suffix is unique and contains every suffix that fits. |
| RecentEvents.LineWithinCap | src/ariel/conversational_continuity.py:146-171 | With a cap of at least 512 and columns of their table widths, every line is within the cap whatever its payload. |
| Redaction.MatchLongest | src/ariel/redaction.py:7-17 | The matcher finds, at a position, the longest word the six alternatives describe, or nothing exactly when there is none. |
| Redaction.RedactedIsSecretFree | src/ariel/redaction.py:29-30 | No substring of redacted text is such a word: none survives, crosses a mark or hides in one. |
| Redaction.RedactFixpoint | src/ariel/redaction.py:29-30 | Redaction changes a text exactly when it holds a secret word, and redacting twice is redacting once. |
| Redaction.OnlySecretsAreCut | src/ariel/redaction.py:29-30 | Redacted text is the text cut from left to right at every longest secret word, each replaced by one mark and nothing else changed: a character is kept only where no secret word starts. |
| Redaction.RedactedExactly | src/ariel/redaction.py:29-30 | There is only one such cut, so it determines the redacted text. |
| Redaction.RedactedJson | src/ariel/redaction.py:33-40 | JSON redaction keeps the tree and its keys, redacts every string leaf and so leaves it free of secrets, and changes nothing exactly when all were. |
| Redaction.SafeReasonSpec | src/ariel/redaction.py:20-26 | The raw message, cut to 500 characters, shows exactly when it is not blank and holds no secret, and what shows holds none. |
| DiscordActions.ParsePrinted | src/ariel/discord_actions.py:9-31 | Parsing a printed id gives back the decision and the stripped reference, colons included; printing fails exactly on blank references. |
| DiscordActions.PrintedExactly | src/ariel/discord_actions.py:9-14 | The printed id is the prefix, the decision and the stripped reference. |
| DiscordActions.PrintParsed | src/ariel/discord_actions.py:21-31 | An id parses exactly when it has the prefix, a decision and a non-blank reference, and what it parses to prints to an id that parses to the same. |
| DiscordActions.PrintInjective | src/ariel/discord_actions.py:9-14 | Two printed ids are equal exactly when decisions and stripped references are. |

## Left out

- Model adapter, sandbox, HTTP download, vision and audio extraction, judgments, memory log and embedding: foreign
  calls, whose answers are arbitrary inputs here.
- `parse_run_function_call`: an input decides whether a reply is a protocol failure or one valid `run` call.
- Events of the loop other than approval-expired, nudge wording, runtime provenance, proposal indices and
  `created_action_attempt_count`: the loop's control does not read them. A feedback message is represented by its kind.
- Action attempts and approval rows are values in one sequence in proposal order; that other code changes their status
  during a run is not modelled.
- The `IndexError` of an out-of-range budget slot is not modelled; `LoopWindow.EveryWindowIsWellFormed` shows that the
  slot is always in range.
- Settings the validators refuse (`live_rounds < 1`, soft limits above hard ones) are outside the statements about runs.
- `schema_readiness_issues`: what a reflection finds is an arbitrary list, or it raises.
- SchemaReadinessProbe.SchemaReadinessProbe.constructor: a TTL that is not positive is excluded where the code raises
  ValueError.
- URL parsing, SHA-256, MIME sniffing and the malware marker are function parameters; encryption is a flag saying
  whether the stored URL decrypts. Collision freedom is assumed only where a lemma says so.
- `urlparse` is total here: a URL on which it raises an uncaught ValueError (such as `http://[`) counts as not valid.
- Serialization failures other than on the key are aborts, which may come at any step.
- The turn-input text of a capture and its timestamps. An insert that would wait for another transaction's row of the
  same key goes ahead here and is refused, if at all, at its commit.
- SchemaReadinessProbe.SchemaReadinessProbe.SchemaIssues: speaks of calls that do not overlap; overlapping calls are
  covered by the system of `SchemaProbe`.
- CaptureIngress.CaptureIngress.RecordCapture: speaks of calls that do not interleave; interleavings are covered by the
  transaction system of `CaptureStore`.
- AttachmentReads.AttachmentStore.ExecuteRead: reads do not interleave with each other, and `LIMIT 1` without an order
  is a fixed choice; the display fields of the output (labels, snippet, timestamps) are left out.
- The intent of a read is not a value of its own: it is part of the extraction function each call carries.
- `record_discord_sources` beyond adding an unknown source with no blob.
- RecentEvents.BuildRecentEventsBlock: what it says of its lines is for payloads whose numbers are number literals
  (no NaN or Infinity) and a header of one line. The event query and its type list are not
  modelled, the rows it returns are the input; JSON numbers are carried as their literals (one that underflows to zero
  counts as true), and keys are not sorted, which does not change a size.
- Redaction.RedactedJson: dictionary keys are strings already, so `str(key)` merges none.
- Case folding covers the letters whose simple folding reaches the pattern's ASCII letters.
- `agency_daemon.py`, `config.py`, `models.py`, `ai_judgments.py`, scripts and migrations: easy members or no logic.

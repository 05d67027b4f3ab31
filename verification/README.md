# Verified model of the sharded knowledge review

The repository reviews its knowledge packs with a closed-world protocol. Every source file and
every cited document is cut into chunks and stored in a private cache. A plan divides the rules
between review shards, each shard gets a cache that holds only its own chunks, and a reviewing model reads
them through a raw event stream. The stream is replayed against the cache, its citation text is
replaced by markers, the shard verdicts are validated, and all of them are merged into one result
that may approve the packs. This project models that pipeline in Dafny, and five mechanisms beside
it, and proves what they promise.

How the model is divided:

- `Utf8`, `Chunker`, `ChunkInventory`: cutting payloads at code points, and the names chunks get.
- `CacheModel`, `FullCache`, `Surface`, `Projection`, `ShardCache`: the full cache and its validator,
  the citation surface, the two independent projections of a shard, and its private tree.
- `Json`, `Commands`, `Replay`, `Lifecycle`, `Coverage`: review events, what a command must show, the
  replay state machine, the grammar it accepts, and the end-to-end coverage theorem.
- `CommandLaws`, `ParseLaws`, `ReplayLaws`, `ReplayTrace`, `CanonicalStream`: exactly which commands, events and streams
  are accepted, what the trace says of the raw events, and the stream that every valid shard cache accepts.
- `Sanitize`, `TokenBudget`: removing citation text, and the visible-input budget.
- `Allocation`, `ShardResult`, `Aggregate`, `AggregateOrder`: sharing out rule references, validating
  verdicts, merging them, and why order does not matter.
- `PackProjection`, `SourceProjections`: splitting each pack over the shards.
- `BoundedDrain`, `StableRead`, `AtomicReplace`: concurrent and failure protocols as steps.
- `Acquisition`, `OfflineReplay`, `ReplayOrder`: acquiring citations with memo tables, replaying it offline,
  and exactly when that works.
- `FramedDigest`, `WheelRecord`: injective framings, and the SBOM in a wheel's RECORD.
- `CacheLaws`, `ProjectionLaws`, `ManifestLaws`, `SanitizeLaws`, `TokenLaws`, `AllocationLaws`, `VerdictLaws`,
  `AggregateLaws`, `ViewLaws`, `AcquisitionLaws`, `OfflineLaws`, `WheelLaws`: each operation against a statement that does not use its helper functions: when it
  succeeds, and what it then returns.
- `Sequences`, `Sorting`: what all of them share.

Conventions. A result of type `Option` stands for a value or a raised error; which error is not
modelled. Loops and objects that change state are methods and classes, each proved equal to a
specification function, and the theorems are lemmas about those functions. Bytes are numbers below
256, texts are sequences of Unicode scalar values. A hash is a function parameter: where names or
digests must differ, the statement asks that the values hashed there do not collide; nowhere is a
hash assumed to be injective on everything. The tables of rules, shards, assertions and pack paths
are parameters that satisfy what the source checks at import, for any number of entries.

Five statements have a condition that the source's own wording lacks. Each condition is proved to be exact,
and an input that fails without it is given:

- The projected manifest passes the independent validator exactly when every assigned citation is
  available (`Projection.ProjectionsAgree`); a cache with one that is not still projects
  (`Projection.UnavailableProjects`).
- The replace helper alone is not all-or-nothing when it is interrupted between replacing a file and
  recording it; the transaction around it is (`AtomicReplace.HelperRestoresExactly`,
  `AtomicReplace.ApplyAttestation`).
- The projected rules cover the plan exactly when the pack of every planned reference is the first
  one named for its path; two packs stored at one path lose a rule (`SourceProjections.RulesCoverPlan`,
  `SourceProjections.SharedPathLosesRule`).
- A closed evidence mapping replays offline, whatever the rules and the server, exactly when every topic that
  precedes a root of its publication is itself preceded by one; for any other mapping there is a server whose
  available cache the offline fetcher refuses (`ReplayOrder.ReplaysExactlyInOrder`,
  `ReplayOrder.TopicBeforeRootConflicts`).
- The auditor compares RECORD names with case folded and the injection does not
  (`WheelRecord.InjectionPassesExactly`, `WheelRecord.FoldedTwinBreaksRecord`).

`dafny verify dfyconfig.toml` checks the project.

## Model

| member | source | states |
|---|---|---|
| Utf8.EncodeDecode | tools/run_knowledge_review.py:1216-1218 | encoding undoes strict decoding of any well-formed byte string, so a text shown equal to a decoded chunk is that chunk byte for byte |
| Utf8.DecodeEncode | tools/run_knowledge_review.py:1242 | every text has a well-formed encoding that decodes back to it, so hashed names identify their texts |
| Utf8.BoundarySplits | tools/run_knowledge_review.py:1224-1229 | an index of a well-formed string is a code-point boundary exactly when the prefix up to it is well-formed; then the rest is too |
| Chunker.SplitUtf8 | tools/run_knowledge_review.py:1216-1234 | the nested loops terminate and return the recursive partition, for every byte string and every limit, with both error exits |
| Chunker.CutIsGreatest | tools/run_knowledge_review.py:1221-1229 | each cut is the greatest code-point boundary within the limit, and the chunk before it is well-formed |
| Chunker.LimitTooSmallExactly | tools/run_knowledge_review.py:1230-1231 | for any limit the "cannot contain one code point" error is raised exactly when some code point of the payload is longer than the limit |
| Chunker.ChunksFromPartition | tools/run_knowledge_review.py:1219-1234 | from any boundary on, the chunks are non-empty, contiguous, well-formed, within the limit, and join to the rest of the payload |
| Chunker.ChunksReconstruct | tools/run_knowledge_review.py:1216-1234 | for limits of 4 or more a payload is split exactly when it is well-formed UTF-8; the empty payload gives one empty chunk |
| Chunker.ReviewChunks | tools/run_knowledge_review.py:1216-1234 | with the fixed limit: chunks join to the payload, have at most 24000 bytes, and all but the last at least 23997 |
| ChunkInventory.Index6Injective | tools/run_knowledge_review.py:1246-1249 | the index padded to six digits still determines the index, also above 999999 |
| ChunkInventory.ChunkPathInjective | tools/run_knowledge_review.py:1242-1249 | a chunk path determines its origin hash and its index |
| ChunkInventory.KindsDiffer | tools/run_knowledge_review.py:1246-1249 | no source chunk path is a citation chunk path |
| ChunkInventory.ChunkPathCanonical | tools/run_knowledge_review.py:1246-1249 | every chunk path written is one the strict readers accept: canonical, under its prefix, with its suffix |
| ChunkInventory.RecordedRowsAccepted | tools/run_knowledge_review.py:1237-1260 | whatever rows the cache writer records, the independent suite validator accepts: contiguous ranges covering the payload, distinct canonical names |
| FullCache.CheckChunkRows | tools/knowledge_review_suite_cache.py:173-202 | accepts a chunk list exactly when its indices, byte ranges, paths and sizes are contiguous and canonical under the prefix |
| FullCache.DeclarePayload | tools/knowledge_review_suite_cache.py:228-245 | accepts one declared file exactly when the tree holds those bytes under a canonical name, and records it once |
| FullCache.DeclareChunks | tools/knowledge_review_suite_cache.py:274-282 | the chunks are accepted exactly when the tree holds each as UTF-8, and what is rebuilt is their join in order |
| FullCache.DeclareFile | tools/knowledge_review_suite_cache.py:251-293 | accepts a source row exactly when its payload is held and its chunks rebuild it under its own hash and size |
| FullCache.DeclareArtifacts | tools/knowledge_review_suite_cache.py:320-330 | accepts the resolver artifacts exactly when every body is held |
| FullCache.DeclareInspection | tools/knowledge_review_suite_cache.py:331-352 | accepts the inspection chunks exactly when they rebuild the stored text under its own hash and size |
| FullCache.DeclareCitation | tools/knowledge_review_suite_cache.py:299-356 | accepts a citation row exactly when body, text, artifacts and chunks are held and agree |
| FullCache.DeclareFiles | tools/knowledge_review_suite_cache.py:247-293 | accepts the source rows exactly when each is valid and no path repeats, declaring exactly their files |
| FullCache.DeclareCitations | tools/knowledge_review_suite_cache.py:295-356 | accepts the citation rows exactly when each is valid and no URL repeats, declaring exactly their files |
| FullCache.ValidatedFullPayloads | tools/knowledge_review_suite_cache.py:205-359 | accepts exactly the valid closed caches, and then returns the whole tree: nothing declared is missing and nothing undeclared is left |
| CacheLaws.EncodingTable | tools/run_knowledge_review.py:1216-1218 | the encoding of a code point is the one form that the bit distribution of RFC 3629, section 3, gives it |
| CacheLaws.RowsRecordedExactly | tools/run_knowledge_review.py:1237-1260 | rows are recorded for a payload exactly when it is UTF-8; then each row holds its range, at most 24000 bytes, under the name made of origin hash, six-digit index and chunk hash, and the last row ends the payload |
| CacheLaws.CanonicalExactly | tools/run_knowledge_review.py:2203-2210 | a path is canonical exactly when it has no backslash and no drive, and is the dot or has only components that are not empty, a dot or two dots |
| CacheLaws.CutUpExactly | tools/knowledge_review_suite_cache.py:173-202 | the chunk checks pass exactly when each chunk file is its own consecutive range of the original and the last one ends it |
| CacheLaws.ValidExactly | tools/knowledge_review_suite_cache.py:205-359 | a full cache is accepted exactly when manifest, source files, citations and chunks are there as the manifest says, and no file or directory besides |
| Surface.SurfaceRowNormal | tools/run_knowledge_review_suite.py:188-223 | normalising a citation row twice is normalising it once, and an acceptable row stays acceptable |
| Surface.SurfaceIdempotent | tools/run_knowledge_review_suite.py:188-223 | the surface of a surface is itself |
| Surface.SurfaceIgnoresOrder | tools/run_knowledge_review_suite.py:188-235 | the surface, and whether there is one, depends only on which citations there are |
| Projection.LoadedFileMatches | tools/run_knowledge_review_suite.py:238-248 | the file row the projector writes is the one the validator reconstructs |
| Projection.LoadedCitationMatches | tools/run_knowledge_review_suite.py:334-345 | the citation row the projector selects is in surface form, and once available it is the row the validator reconstructs |
| Projection.AssignmentIgnoresOrder | tools/knowledge_review_suite_cache.py:485-499 | the references assigned to a URL, and the assigned URLs, do not depend on the order of the rule references |
| Projection.WholeSurfaceAgrees | tools/knowledge_review_suite_cache.py:529-539 | the evidence digest over all citations is the same whether cache order or URL order is hashed |
| Projection.SelectionIsSurface | tools/run_knowledge_review_suite.py:334-345 | the selected rows are their own surface, one an assigned URL, ascending |
| Projection.AssignedPathsDistinct | tools/knowledge_review_suite_cache.py:563-565 | the chunk paths of all assigned files and citations are pairwise different, when the names of their origins do not collide under the hash |
| Projection.ProjectionsAgree | tools/knowledge_review_suite_cache.py:449-570 | a manifest projected from a loaded cache passes the independent validator exactly when every citation assigned to the shard is available |
| ManifestLaws.ValidatesExactly | tools/knowledge_review_suite_cache.py:449-570 | for a cache whose rows are distinct, the independent check passes exactly when the manifest is bound to the cache and the contracts, its inventories ascend, its rows repeat the cached ones with exactly the assigned references, and no chunk file is assigned twice |
| Projection.UnavailableProjects | tools/knowledge_review_suite_cache.py:545-549 | a concrete loaded cache with an unavailable assigned citation: it projects, and the validator refuses the manifest |
| ProjectionLaws.ManifestProjectsExactly | tools/run_knowledge_review_suite.py:251-368 | a manifest is projected exactly when plan and cache tables are well formed, every assigned file and reference has its cached row to inspect, and all citations can stand on the surface |
| ProjectionLaws.ManifestRowsExactly | tools/run_knowledge_review_suite.py:283-368 | the manifest has one row for each assigned path and URL, ascending, which is the public row of the cached one with its chunks and the assigned references, and the two digests are of the assigned and of the whole surface |
| ProjectionLaws.SurfaceRowIsPublic | tools/run_knowledge_review_suite.py:156-223 | the surface row of a citation has its public fields and no private path, with artifacts and chunks in order |
| ShardCache.Directory.MakeParents | tools/knowledge_review_suite_cache.py:865-879 | creates exactly the ancestors of a path, and fails exactly when a file is in the way |
| ShardCache.Directory.AddEntry | tools/knowledge_review_suite_cache.py:864-882 | adds one file with its ancestors, and fails exactly when a name would be both file and directory |
| ShardCache.Directory.Materialize | tools/knowledge_review_suite_cache.py:833-882 | the finished tree holds exactly the given files and their ancestor directories, in whatever order they are written |
| ShardCache.NoNameConflict | tools/knowledge_review_suite_cache.py:923-945 | copies of a valid full cache never need one name as both a file and a directory, so writing cannot fail on names |
| ShardCache.ValidateShardCache | tools/knowledge_review_suite_cache.py:573-606 | accepts exactly the trees that hold the manifest, the assigned chunks of the full cache, and nothing else |
| ShardCache.ValidShardCacheIsUnique | tools/knowledge_review_suite_cache.py:573-606 | a tree passes if and only if it is the one shard tree (manifest, assigned chunks, ancestors) and the manifest fits the read limit |
| ShardCache.MaterializeShardCache | tools/knowledge_review_suite_cache.py:897-945 | succeeds exactly when the inputs are valid and the manifest fits, the result is that one tree, and it validates |
| CacheLaws.ShardCacheExactly | tools/knowledge_review_suite_cache.py:573-606 | a shard cache is accepted exactly when it is the canonical manifest and a copy of every assigned chunk with its recorded hash and size, and no file or directory besides |
| Commands.KeyedIsInventory | tools/run_knowledge_review.py:2645-2665 | the target table exists exactly when no chunk path repeats, and then holds every listed chunk and no other |
| Commands.CacheTargets | tools/run_knowledge_review.py:2645-2665 | the two loops build that table |
| Commands.CanonicalIsFixedPoint | tools/run_knowledge_review.py:2203-2210 | a path is canonical exactly when normalising it returns it |
| Commands.LinesJoin | tools/run_knowledge_review.py:2696-2698 | lines kept with their ends join back to the text, for every line separator of `splitlines` |
| Commands.ExpectedHashes | tools/run_knowledge_review.py:2734-2767 | the hash loop prints one line a path and fails on the first path that is not an assigned chunk |
| Commands.ExpectedCommand | tools/run_knowledge_review.py:2677-2768 | computes the output, operations and redaction flag of a command, or refuses it, for every command text |
| Commands.HeadShowsWholeChunk | tools/run_knowledge_review.py:2685-2733 | an accepted `head` command reads one assigned chunk and its expected output is the whole chunk, byte for byte |
| Commands.WrapUnwrap | tools/run_knowledge_review.py:2225-2246 | wrapping and unwrapping the shell event are inverse wherever either succeeds |
| Commands.AcceptedOutputs | tools/knowledge_review_suite_replay.py:422-434 | exactly two outputs of a command are ever accepted: the expected one, and for citation text its marker; both yield the same operations |
| CommandLaws.SplitCounts | tools/run_knowledge_review.py:2696 | a text splits into as many lines as it has line ends, and one more for text after the last |
| CommandLaws.HeadExactly | tools/run_knowledge_review.py:2685-2733 | a `head` on an assigned chunk is accepted exactly when the chunk is readable text with at most COUNT lines; it must show the whole text, and reads that chunk alone |
| CommandLaws.PrescribedReadAccepted | tools/run_knowledge_review.py:2697-2700 | the read that the prompt prescribes is accepted for every assigned text chunk within the byte limit |
| CommandLaws.HashesExactly | tools/run_knowledge_review.py:2734-2767 | a `sha256sum` is accepted exactly when every path names a readable assigned chunk; it must print one line for each, in order, and reads none |
| CommandLaws.AcceptedGrammar | tools/run_knowledge_review.py:2677-2768 | no other command is accepted |
| Replay.ConsumeNotice | tools/knowledge_review_suite_replay.py:480-495 | a transport notice is taken exactly when its message is recoverable, the limit is not reached and no final message was seen |
| Replay.ConsumeCommand | tools/knowledge_review_suite_replay.py:549-584 | a command event is parsed on its own and then moves the state as its action says, or is refused |
| Replay.ConsumeItem | tools/knowledge_review_suite_replay.py:530-584 | an item event splits into what it means alone and what the state allows |
| Replay.Consume | tools/knowledge_review_suite_replay.py:478-584 | every event is a parse that ignores the state followed by a step that ignores the event |
| Replay.ConsumeAll | tools/knowledge_review_suite_replay.py:478-584 | the loop over the events is the run of their steps, refusing at the first refused event |
| Replay.ChunkInventory | tools/knowledge_review_suite_replay.py:287-321 | succeeds exactly when every assigned source has chunks and no chunk path repeats, and returns exactly those paths |
| Replay.ValidateProjectedCache | tools/knowledge_review_suite_replay.py:324-419 | accepts exactly the caches whose manifest is the shard manifest and whose files are the assigned chunks |
| Replay.EmitTrace | tools/knowledge_review_suite_replay.py:633-657 | numbers notices, operations and the result from 1 in that order |
| Replay.Replay | tools/knowledge_review_suite_replay.py:437-675 | the whole replay of a stream, with every refusal, is the run, the settling, the exact-read check and the result check |
| ParseLaws.ParsesExactly | tools/knowledge_review_suite_replay.py:83-185 | an event is accepted as a step exactly when it has the fields of its kind and no other, no compaction key at any depth, and says what the step says |
| ParseLaws.StripsExactly | tools/knowledge_review_suite_replay.py:536-541 | the final text is the message text without the white space around it, and there is one such text |
| ReplayLaws.ServesExactly | tools/knowledge_review_suite_replay.py:324-419 | the cache is accepted exactly when its manifest says what the shard manifest says and it holds every assigned chunk under its own path, with the recorded hash and size |
| ReplayLaws.AcceptedExactly | tools/knowledge_review_suite_replay.py:437-621 | a stream is accepted exactly when the cache serves the shard, the stream is framed, and its events mean the steps of a well-formed stream that reads each assigned chunk once, nothing else, and ends in a text the result parser takes |
| ReplayTrace.TraceShowsStream | tools/knowledge_review_suite_replay.py:633-657 | from the raw events: the trace has one numbered row for each transport notice with its position, then one for each operation of each completed command in stream order, then the result, and no other |
| ReplayTrace.ReviewIsOfStream | tools/knowledge_review_suite_replay.py:616-675 | the result is what the parser says of the message before the last event, the usage is the four fields of the last event, each under its own name, and the thread is that of the first |
| Lifecycle.RunsExactly | tools/knowledge_review_suite_replay.py:478-584 | the state machine runs exactly the streams each of whose steps is allowed by the steps before it, said without any state |
| Lifecycle.AcceptsExactly | tools/knowledge_review_suite_replay.py:478-597 | running and settling accepts exactly the streams of a declarative grammar: one thread, one turn, agreeing identities, paired commands, one final message |
| Lifecycle.WellFormedCallsPaired | tools/knowledge_review_suite_replay.py:555-584 | in such a stream every call ID has exactly one start, followed by exactly one completion of the same command |
| Lifecycle.FinalIsPenultimate | tools/knowledge_review_suite_replay.py:535-554 | in such a stream the single agent message is exactly the last event but one |
| Lifecycle.ReplayLifecycle | tools/knowledge_review_suite_replay.py:437-597 | all of this holds of the raw events of every accepted stream: thread start first, turn start second, turn completion last, each once |
| Lifecycle.TraceIsNumbered | tools/knowledge_review_suite_replay.py:633-657 | the trace of an accepted stream is numbered 1 to n and its only result row is the last |
| Coverage.ExpectedReads | tools/run_knowledge_review.py:2685-2767 | an accepted command reads at most one chunk, an assigned one, and only `head` reads |
| Coverage.CompletedIsParsed | tools/knowledge_review_suite_replay.py:555-584 | a completed step carries the literal call ID, command and output of its event |
| Coverage.AcceptedReadsExactly | tools/knowledge_review_suite_replay.py:599-614 | in an accepted stream every assigned chunk is read by exactly one completed command and nothing else is read |
| Coverage.MarkedChunk | tools/run_knowledge_review.py:2771-2776 | an accepted citation output is the chunk, or a marker committing to its recorded hash and size |
| Coverage.AssignedSourceBytes | tools/knowledge_review_suite_replay.py:599-610 | the outputs shown for one assigned file, in chunk order, join to the file as stored in the full cache |
| Coverage.AssignedCitationBytes | tools/knowledge_review_suite_replay.py:603-614 | the same for a citation whose outputs are not redacted |
| Coverage.ProjectedShardIsShownOnce | tools/knowledge_review_suite_cache.py:897-945 | composed: a projected manifest with its assigned citations available is accepted, its materialised tree validates, and an accepted replay over that tree showed everything assigned once |
| Coverage.EveryAssignedByteShownOnce | tools/knowledge_review_suite_replay.py:437-614 | end to end: over a shard cache taken from a valid full cache, an accepted stream showed every assigned file exactly, every citation exactly or as markers committing to it, no chunk twice and no foreign chunk |
| CanonicalStream.CanonicalStreamAccepted | tools/knowledge_review_suite_replay.py:437-675 | over every valid shard cache, in whatever order the assigned chunks are read, the stream of the prescribed reads is accepted |
| CanonicalStream.ReadPerforms | tools/knowledge_review_suite_replay.py:422-434 | each prescribed read must show its chunk and performs the one read of it |
| Sanitize.RewriteEvent | tools/execute_knowledge_review_suite.py:506-528 | one event is left alone, turned into its marker form, or refused |
| Sanitize.RewriteInPlace | tools/execute_knowledge_review_suite.py:505-528 | overwriting the outputs in the array gives the event-wise rewriting of the old array |
| Sanitize.SanitizeStream | tools/execute_knowledge_review_suite.py:500-547 | the retained lines are those of the rewritten events, refused when any citation text is left in them |
| Sanitize.SameParsedCommand | tools/knowledge_review_suite_replay.py:549-584 | a completed citation read parses to the same call, command and operations with the text or with its marker |
| Sanitize.CitationsBecomeMarkers | tools/execute_knowledge_review_suite.py:512-528 | in a sanitised stream each citation output is the marker of the expected text and every other event is unchanged |
| Sanitize.SanitizingCommutesWithReplay | tools/execute_knowledge_review_suite.py:505-529 | replaying the sanitised events gives the same acceptance, trace and result as replaying the originals |
| SanitizeLaws.SanitizesExactly | tools/execute_knowledge_review_suite.py:500-547 | a stream is retained exactly when each completed command showed what the cache expects and no citation chunk stands in the printed lines, as bytes or as JSON-escaped text; what is retained has markers in place of citation outputs and every other event unchanged |
| SanitizeLaws.RetainedLinesHoldNoCitation | tools/execute_knowledge_review_suite.py:530-546 | no slice of retained lines is a citation chunk of the manifest, nor the escaped form of its text |
| TokenBudget.AssignedChunkMaterial | tools/execute_knowledge_review_suite.py:416-457 | lists every assigned chunk once, with its canonical command and verified payload, or refuses |
| TokenLaws.MaterialExactly | tools/execute_knowledge_review_suite.py:416-457 | the material exists exactly when the shard has chunks, no path repeats and each chunk is there as text with its hash and size; then it lists each path once, ascending, with the quoted read and the bytes |
| TokenBudget.EnforceTokenBudget | tools/knowledge_review_shards.py:1443-1519 | the charge is the sum of prompt, chunk, command and fixed costs; it is accepted exactly when every text is valid and the visible total leaves the required reserve |
| TokenBudget.CompletedCommandInventory | tools/execute_knowledge_review_suite.py:469-482 | the observed inventory is the list of commands of the completed events |
| TokenBudget.InventoryIsPermutation | tools/execute_knowledge_review_suite.py:492-494 | two inventories are equal once sorted exactly when one is a rearrangement of the other |
| TokenLaws.InventoryExactly | tools/execute_knowledge_review_suite.py:469-497 | a stream matches the budget exactly when the commands of its completed command events are the budgeted ones, each once, in any order |
| TokenBudget.CanonicalReadShowsPayload | tools/execute_knowledge_review_suite.py:423-439 | the canonical command of a chunk is accepted, and shows exactly the payload that was budgeted |
| TokenBudget.ShownTokensAreBudgeted | tools/execute_knowledge_review_suite.py:485-497 | when inventory check and sanitiser accept a stream, its commands and outputs cost exactly the budgeted command and chunk tokens, one event a chunk |
| TokenBudget.StreamStaysWithinBudget | tools/knowledge_review_shards.py:1497-1519 | so the visible total of that stream is the charged one, and at least the required reserve of the window is left |
| Allocation.TakeRule | tools/knowledge_review_shards.py:927-953 | one more rule is taken exactly when it fits its table entry and repeats neither rule, reference nor foreign URL |
| Allocation.GatherRules | tools/knowledge_review_shards.py:907-953 | the loop keeps its five tables consistent, and reports unknown rules exactly when there are some |
| Allocation.AllocateRuleReferences | tools/knowledge_review_shards.py:894-971 | succeeds exactly when the audit rows match the fixed table, and every shard gets its sorted share |
| Allocation.AllocationPartitions | tools/knowledge_review_shards.py:894-971 | every rule reference reaches exactly one shard, shards get nothing else, and no reference, rule or URL is shared |
| Allocation.AllocationIgnoresOrder | tools/knowledge_review_shards.py:894-971 | the order of the audit rows changes neither success nor the shares |
| AllocationLaws.AllocatesExactly | tools/knowledge_review_shards.py:894-971 | an audit is allocated exactly when each rule row follows its plan entry, no rule or reference ID repeats, every planned rule has a row, and one URL belongs to one shard |
| AllocationLaws.SharesExactly | tools/knowledge_review_shards.py:955-971 | a shard is given exactly one reference for each of its rule rows, with the row's own ID, surface, URL and section, by ascending ID |
| ShardResult.SortedRowsAscend | tools/run_knowledge_review_suite.py:509-511 | the "rows are sorted" comparison holds exactly when the keys ascend |
| ShardResult.ValidateAssertions | tools/run_knowledge_review_suite.py:470-512 | accepts exactly one well-formed row for each expected assertion, ascending, and reports whether all are verified |
| ShardResult.EvidenceTable | tools/run_knowledge_review_suite.py:523-528 | maps each reference to its citation, refused exactly when a reference is listed twice |
| ShardResult.CheckCitation | tools/run_knowledge_review_suite.py:530-572 | accepts a citation row exactly when it repeats the shard's reference and evidence and its verdict is consistent with availability |
| ShardResult.ValidateRuleCitations | tools/run_knowledge_review_suite.py:515-579 | accepts exactly one such row for each assigned reference, ascending, and reports whether all are verified |
| ShardResult.ValidateShardResult | tools/run_knowledge_review_suite.py:582-620 | a verdict comes back unchanged, exactly when it answers its shard and its approval and issues are consistent |
| VerdictLaws.VerdictExactly | tools/run_knowledge_review_suite.py:582-620 | a verdict is returned exactly when it is of this shard and plan, judges each assertion and answers each reference once and in order, raises only listed issues, and approves exactly when all is verified and nothing is raised |
| VerdictLaws.AnswersAllExactly | tools/run_knowledge_review_suite.py:515-579 | a reference is verified only with all five findings, no issue, and a citation that is available, identified, to be inspected and in chunks; it is refused only for listed reasons |
| VerdictLaws.JudgesAllExactly | tools/run_knowledge_review_suite.py:470-512 | each expected assertion has one row, verified without issues or rejected for listed ones |
| Aggregate.VerdictTable | tools/run_knowledge_review_suite.py:665-674 | keys the verdicts by shard, refused exactly when a shard answers twice |
| Aggregate.CheckShards | tools/run_knowledge_review_suite.py:676-689 | all shards validate in their fixed order and no rule reference is cited twice |
| Aggregate.AddRuleRows | tools/run_knowledge_review_suite.py:685-689 | adding the rows of one shard fails exactly when a reference would be repeated |
| Aggregate.SplitReferences | tools/run_knowledge_review_suite.py:691-709 | splits the audit into rules and documents, refusing exactly repeats, unknown kinds and wrong counts |
| Aggregate.DocumentResults | tools/run_knowledge_review_suite.py:728-737 | computes all document rows, their conjunction and their issues in one pass |
| Aggregate.AggregateShardResults | tools/run_knowledge_review_suite.py:654-767 | the whole aggregation, with every refusal, in the order of the source |
| Aggregate.InventoryCloses | tools/run_knowledge_review_suite.py:763-764 | the result rows carry exactly the audit's reference IDs |
| Aggregate.ClosingGuardsNeverFire | tools/run_knowledge_review_suite.py:763-766 | the last two guards are unreachable: aggregation succeeds exactly when the checks before them pass |
| Aggregate.RowOrigins | tools/run_knowledge_review_suite.py:722-755 | every result row is a rule row of a validated shard or a document row, and all of those are there |
| Aggregate.ApprovalExactly | tools/run_knowledge_review_suite.py:744 | approved if and only if every shard approved and every audited document is available with a verified identity |
| Aggregate.ApprovalIsSound | tools/run_knowledge_review_suite.py:744-766 | an approved result has no issue, every citation verified, and all assertions assigned to every shard verified |
| AggregateLaws.ApprovalRestsOnEvidence | tools/run_knowledge_review_suite.py:561-569 | when a result approves, the cache holds available, identified, inspected text in chunks for every rule of the audit, and its row has all five findings, no issue and the rule's own surface |
| AggregateLaws.RowsAreSound | tools/run_knowledge_review_suite.py:623-651 | in every result, a verified rule row rests on such evidence, any other has a reason, and a document row says exactly whether the document was acquired and identified |
| AggregateLaws.IssuesExactly | tools/run_knowledge_review_suite.py:722-743 | the issues of a result are exactly those of the shard verdicts and one for each document not acquired or not identified, each once and in order |
| AggregateLaws.ResultExactly | tools/run_knowledge_review_suite.py:722-766 | a result approves exactly when every verdict does and every document was acquired and identified, repeats the snapshot, and holds exactly the rows of the verdicts and one for each document, by reference ID |
| AggregateLaws.PlanIs | tools/knowledge_review_shards.py:974-992 | the plan has one entry for each shard, with its fixed sources and assertions and its share of the references |
| AggregateLaws.AggregatesExactly | tools/run_knowledge_review_suite.py:654-767 | aggregation succeeds exactly when the audit is whole and allocated, the plan is the one built from it, the cache is that of the snapshot, and each shard has one verdict that answers it |
| AggregateOrder.RowsBijectReferences | tools/run_knowledge_review_suite.py:755-764 | the result rows ascend by reference ID and pair off one to one with the audit references |
| AggregateOrder.RuleGuardsNeverFire | tools/run_knowledge_review_suite.py:685-711 | with an allocated plan and validated shards, neither the repeated-rule guard nor the incomplete-inventory guard can fire |
| AggregateOrder.ProjectionIgnoresCitationOrder | tools/run_knowledge_review_suite.py:251-368 | a shard projection does not depend on the order of the cache citations |
| AggregateOrder.AggregationIgnoresOrder | tools/run_knowledge_review_suite.py:654-767 | rearranging shard results, audit references or cache citations changes neither success nor the value |
| PackProjection.SelectRules | tools/knowledge_review_shards.py:1095-1107 | keeps exactly the assigned rules in pack order |
| PackProjection.SelectEntries | tools/knowledge_review_shards.py:1125-1145 | cuts rule entries down to the shard's rules and passes other entries to the governing shard only |
| PackProjection.SelectTargets | tools/knowledge_review_shards.py:1147-1161 | cuts bound targets down to the shard's bindings and passes other targets to the governing shard only |
| PackProjection.ProjectPackSource | tools/knowledge_review_shards.py:1070-1219 | one shard's view of one pack, with every refusal |
| PackProjection.ViewRows | tools/knowledge_review_shards.py:1078-1118 | a view holds exactly the rules its references name, and exactly their bindings |
| PackProjection.RuleEntryView | tools/knowledge_review_shards.py:1130-1143 | each of the view's rules listed by a pack entry is listed by that entry's own row, cut down to the view's rules |
| PackProjection.BindingsStayCovered | tools/knowledge_review_shards.py:1169-1174 | every selected binding is listed by a coverage entry of the view, and no other binding is |
| PackProjection.GovernanceRows | tools/knowledge_review_shards.py:1144-1161 | entries and targets that are not about rules are in a view exactly when its shard governs the pack |
| ViewLaws.TargetsExactly | tools/knowledge_review_shards.py:1147-1161 | a bound target has a row exactly when it lists a selected binding, and the row is the target with exactly its selected bindings; other targets are kept whole by the governing shard; no other row, in pack order |
| ViewLaws.EntriesExactly | tools/knowledge_review_shards.py:1125-1145 | the same for the coverage rows, with their rules and bindings |
| ViewLaws.PlainRowsExactly | tools/knowledge_review_shards.py:1095-1118 | the rules and bindings of a view are those of the assigned rules, its documents those that its rules and coverage belong to, in pack order |
| ViewLaws.ProjectsExactly | tools/knowledge_review_shards.py:1070-1219 | a pack projects exactly when it is the named one, has assigned rules, holds each of them once and no two selected bindings with one ID, its shown coverage lists all of them and nothing else, and the documents are there |
| SourceProjections.ProjectShard | tools/knowledge_review_shards.py:1369-1387 | succeeds exactly when every pack of the shard projects, adding exactly those views |
| SourceProjections.BuildSourceProjections | tools/knowledge_review_shards.py:1222-1397 | succeeds exactly when every pack of every shard projects, and returns exactly those views |
| SourceProjections.RulesAreDisjoint | tools/knowledge_review_shards.py:1265-1277 | no rule is visible to two shards, nor in two packs of one shard |
| SourceProjections.RulesCoverPlan | tools/knowledge_review_shards.py:1378-1390 | the visible rules cover the plan exactly when the pack of every planned reference is the first one named for its path; two packs on one path would lose rules |
| SourceProjections.SharedPathLosesRule | tools/knowledge_review_shards.py:1378-1390 | a concrete audit with two packs on one path: it projects without an error and a planned rule is visible nowhere |
| SourceProjections.PlannedIsVisible | tools/knowledge_review_shards.py:1378-1387 | some shard sees a rule in a pack exactly when the audit allocates the rule and gives it to the pack that the path stands for |
| SourceProjections.EntryIsDivided | tools/knowledge_review_shards.py:1130-1143 | each rule ID of a coverage entry that the audit allocates to its pack is in that entry's row of exactly one shard; any other is in none |
| SourceProjections.BindingsAreDivided | tools/knowledge_review_shards.py:1111-1118 | each binding of a rule that the audit allocates to its pack reaches exactly one shard, where an entry lists it; any other reaches none |
| ViewLaws.TargetSharedExactly | tools/knowledge_review_shards.py:1151-1159 | a shard lists an ID in the row of a bound target exactly when it sees a binding of that ID |
| ViewLaws.TargetsAreDivided | tools/knowledge_review_shards.py:1147-1161 | each binding of a bound target that the audit allocates to its pack is in that target's row of exactly one shard, when no binding of another rule has its ID |
| ViewLaws.BuildsExactly | tools/knowledge_review_shards.py:1222-1397 | the views are built exactly when the audit can be allocated, its packs are stored at the governed paths, and every pack of every shard fits |
| SourceProjections.GovernanceRowsReachOneShard | tools/knowledge_review_shards.py:1120-1161 | every other entry and every unbound target of a pack reaches its governing shard and no other |
| BoundedDrain.NextKeepsSafe | tools/run_knowledge_review.py:1599-1661 | every step of child, either drain thread or supervisor keeps the invariant that accounts for every byte |
| BoundedDrain.RunIsSafe | tools/run_knowledge_review.py:1599-1661 | so it holds in every state of every interleaving |
| BoundedDrain.BuffersAreBoundedPrefixes | tools/run_knowledge_review.py:1604-1616 | at all times each buffer is a prefix of its stream and within its limit |
| BoundedDrain.ReturnIsComplete | tools/run_knowledge_review.py:1632-1653 | a normal return means the child exited unstopped and in time, and both buffers are the complete streams |
| BoundedDrain.OverflowIsReal | tools/run_knowledge_review.py:1610-1615 | the overflow flag means some stream really is longer than its limit |
| BoundedDrain.RaisedForReason | tools/run_knowledge_review.py:1632-1661 | nothing is raised unless the deadline passed, a stream is longer than its limit, a drain failed or one was still at work; the last test never raises |
| BoundedDrain.WithinLimitsCanReturn | tools/run_knowledge_review.py:1599-1653 | whatever the child writes within the limits, and whatever its exit code, some run returns exactly that |
| StableRead.Forward | tools/audit_release.py:805-880 | for either reader: between two instants with the same ctime an inode never changed, whatever other writers did |
| StableRead.StableReadIsSnapshot | tools/run_knowledge_review.py:1365-1404 | for either reader and any metadata checks, when content changes advance ctime, a normal return is the content the file held throughout an interval during the call, within the limit, for any interleaving and any short reads |
| StableRead.ReturnPassesChecks | tools/run_knowledge_review.py:1365-1404 | a normal return means that the path looked the same in the first and the last look, that path and open file passed the checks, that the file was as long as what was read, and that the parent was still the same |
| StableRead.UndisturbedReadReturns | tools/audit_release.py:815-880 | a file that passes the checks and that nobody touches can be read to its end |
| StableRead.TornReadWithoutCtime | tools/run_knowledge_review.py:1393-1402 | without that assumption a run exists that returns bytes the file never held |
| AtomicReplace.Checkout.Replace | tools/run_knowledge_review.py:4248 | one replacement changes one file and nothing else |
| AtomicReplace.Recover | tools/run_knowledge_review.py:4250-4255 | taking back the recorded replacements restores exactly those files |
| AtomicReplace.ReplaceAll | tools/run_knowledge_review.py:4232-4255 | for every failure point, which files are left updated; success exactly when no failure strikes |
| AtomicReplace.HelperRestoresExactly | tools/run_knowledge_review.py:4246-4255 | a failed helper leaves all originals exactly when it did not strike between changing a file and recording it, nor after the last one |
| AtomicReplace.HelperCanLeaveOneFileUpdated | tools/run_knowledge_review.py:4247-4249 | a concrete failure after which one file of two is updated |
| AtomicReplace.ApplyAttestation | tools/apply_knowledge_review_suite_attestation.py:636-669 | the transaction around the helper is all-or-nothing: all updated on return, all original on exception, no other file touched, for every failure point |
| Acquisition.ProcessRow | tools/run_knowledge_review.py:1945-2110 | one evidence row: the memo tables, the body, text and chunk files, and every way to become unavailable |
| Acquisition.AcquireCitations | tools/run_knowledge_review.py:1935-2110 | the pass over all rows threads the five tables in order |
| AcquisitionLaws.RowExactly | tools/run_knowledge_review.py:1975-2110 | each row says only what the calls made up to it answered, and a row that is not available has one of the listed reasons |
| AcquisitionLaws.PassIsTrue | tools/run_knowledge_review.py:1935-2110 | so does every row of a whole pass, and each evidence URL is in one of the two memo tables |
| AcquisitionLaws.PrimaryCalledOnce | tools/run_knowledge_review.py:1975-1987 | a direct URL is called at most once in a pass, and exactly when it is the evidence URL of a row |
| AcquisitionLaws.SharedFailure | tools/run_knowledge_review.py:1976-1986 | rows that share a refused URL are all unavailable, without facts, text, chunks or artifacts |
| AcquisitionLaws.AvailableUnlessUnusable | tools/run_knowledge_review.py:1988-2110 | a row is available unless its URL was refused or the response could not be stored, read, identified or turned into new chunks |
| AcquisitionLaws.OnlyNeeded | tools/run_knowledge_review.py:1941-2110 | nothing is called but evidence URLs and the map and pages of topics |
| OfflineReplay.RegisterEach | tools/knowledge_review_suite_cache.py:411-412 | registers a row's resolver responses, refusing a conflicting one |
| OfflineReplay.FrozenCacheFetcher | tools/knowledge_review_suite_cache.py:380-412 | builds the offline table from all rows, refusing exactly when two responses to one URL conflict |
| OfflineLaws.FetcherExactly | tools/knowledge_review_suite_cache.py:383-432 | the offline fetcher exists exactly when every row has a response, all bodies are stored and no URL has two responses; it then answers a URL with the one recorded for it, and no other URL |
| OfflineReplay.ResolveFrozen | tools/knowledge_review_suite_cache.py:394-402 | a row does not change when the responses it needs are replaced by their frozen forms |
| OfflineReplay.AcquisitionResolves | tools/run_knowledge_review.py:1941-2110 | in an available acquisition every row is explained by one response a URL |
| OfflineReplay.RowsRegister | tools/knowledge_review_suite_cache.py:403-412 | registering those rows never conflicts, and freezes exactly the responses they need |
| OfflineReplay.OfflineRows | tools/knowledge_review_suite_cache.py:414-432 | acquiring through the table gives exactly the rows the table leads to |
| OfflineReplay.OfflineReplayAgrees | tools/knowledge_review_suite_cache.py:369-432 | for an available acquisition with UTF-8 texts and AMD roots before their topics, whatever the hash, the offline fetcher is built without conflict and acquiring through it gives identical rows |
| OfflineReplay.AvailableWrites | tools/run_knowledge_review.py:1263-1276 | an acquisition with every row available created every chunk file once |
| ReplayOrder.RowsAnswered | tools/knowledge_review_suite_cache.py:383-412 | a table that registers all rows answers each of them with its own facts, so rows that differ on a URL are refused |
| ReplayOrder.TopicBeforeRootConflicts | tools/run_knowledge_review.py:1936-1944 | for every closed evidence mapping out of order some server gives a cache whose rows are all available in UTF-8 and whose offline fetcher is refused |
| ReplayOrder.ReplaysExactlyInOrder | tools/knowledge_review_suite_cache.py:369-432 | a closed evidence mapping replays offline for all rules and all servers if and only if it is in order |
| FramedDigest.FramesInjective | tools/knowledge_review_surface.py:50-59 | name, NUL, hash, NUL over NUL-free names is uniquely decodable on whole tables |
| FramedDigest.NulNamesCollide | tools/audit_release.py:685-693 | a name with a NUL inside breaks it: one row frames like two |
| FramedDigest.PayloadDigest | tools/audit_release.py:685-693 | the digest fed piece by piece is the digest of the framed table |
| FramedDigest.DigestIdentifiesPayload | tools/audit_release.py:685-693 | when nothing hashed collides, two payloads with NUL-free names have equal digests exactly when they are equal |
| FramedDigest.BigEndianInjective | tools/knowledge_review_shards.py:210-214 | fixed-width big-endian numbers that fit are injective |
| FramedDigest.RankFramesInjective | tools/knowledge_review_shards.py:200-214 | 8-byte length, token, 8-byte rank is uniquely decodable on whole tables |
| WheelRecord.KeepRows | build_backend.py:110-111 | keeps exactly the rows that name neither RECORD nor the SBOM |
| WheelRecord.InjectSbom | build_backend.py:92-133 | the whole rewriting of the wheel, with every refusal |
| WheelRecord.OutputRecord | build_backend.py:110-118 | the output's RECORD parses back to the kept rows plus the two added ones, in order |
| WheelLaws.RecordLast | build_backend.py:110-116 | RECORD's own row is the last and the only one of its name; before it stand the other rows unchanged and the SBOM's with its digest and size, by name |
| WheelLaws.WheelWritten | build_backend.py:71-133 | the wheel written has the old members and the SBOM, package files before dist-info files and each group by name, with their bytes, and a member is executable exactly when it was a Unix executable file |
| WheelLaws.InjectsExactly | build_backend.py:92-108 | injection succeeds exactly on distinct member names, one metadata directory and a readable RECORD in it |
| WheelLaws.AuditsExactly | tools/audit_release.py:4492-4519 | the auditor passes RECORD exactly when its rows differ once case is folded, name members only, and give every other member its digest and size |
| WheelRecord.ResortIsStable | build_backend.py:110-114 | dropping the added elements, adding them again and sorting changes nothing, for any total preorder |
| WheelRecord.InjectionIsIdempotent | build_backend.py:92-133 | injecting twice is injecting once: rows, members, order, times and modes |
| WheelRecord.DuplicatesExactly | tools/audit_release.py:465-474 | the output's RECORD has a duplicate exactly when a kept name and an added one are equal once case is folded |
| WheelRecord.InjectionPassesExactly | tools/audit_release.py:4492-4519 | if the auditor accepts a wheel's RECORD it accepts the RECORD after injection, SBOM included, exactly when there is no such clash |
| WheelRecord.FoldedTwinBreaksRecord | build_backend.py:110-118 | a concrete wheel, with a file whose name folds to the SBOM's, whose RECORD passes before and fails after injection |

## Left out

- Coverage.ProjectedShardIsShownOnce: what loading a full cache and validating it establish is assumed of the cache, and the names of assigned origins must not collide under the hash.
- Lifecycle.ReplayLifecycle: event streams are lists of parsed JSON objects; parsing lines, the byte limit, the raw hash and the invocation ID made from it are not modelled.
- Sanitize.SanitizingCommutesWithReplay: is about event lists, so raw hash, invocation ID and byte limit are outside it.
- TokenBudget.ShownTokensAreBudgeted: assumes that the shell splits `head -n 100000000` and a chunk path into those four words; the tokenizer is a function parameter.
- TokenBudget.StreamStaysWithinBudget: rests on the same assumption about splitting.
- BoundedDrain.ReturnIsComplete: is a safety property; that every run of the supervisor terminates is not stated, only that one does (`BoundedDrain.WithinLimitsCanReturn`), and joining and waiting are steps without clocks.
- StableRead.StableReadIsSnapshot: owner and modes are one opaque field of a file and one of its parent, compared and checked by arbitrary predicates; path and parent are looked at in one step, and the resolution of symbolic links is not modelled.
- AtomicReplace.ApplyAttestation: one failure in the forward pass or in a check after it; recovery steps succeed, nobody else writes the checkout meanwhile, and the order by file name is any order.
- OfflineReplay.OfflineReplayAgrees: AMD identity checks are predicates over mapping and body, the PDF check is one that accepts the content type `application/pdf`; the condition on the order is `OfflineReplay.RootsFirst`, and a text in another charset is outside it.
- Acquisition.ProcessRow: error codes are reduced to failure, the parser's command and version fields to one, exceptions the source does not catch are not modelled, and URLs are a datatype rather than text.
- CanonicalStream.CanonicalStreamAccepted: assumes that the shell splits the wrapped reads into their words, that case folding leaves the ASCII keys of an event alone, and that the call IDs are short enough to be call IDs.
- ParseLaws.ParsesExactly: word splitting, case folding and the grammar of a recoverable transport notice are parameters.
- ViewLaws.PlainRowsExactly: the `qualified_rule_id` that a projected rule row repeats is not a field of the model's row.
- Commands.ExpectedCommand: word splitting is a parameter, and Python's limit of 4300 digits in an integer literal is not modelled.
- SourceProjections.BuildSourceProjections: projects the knowledge packs; the views of the citation audit and of the citation evidence mapping are not part of this model.
- Replay.Replay: takes parsed events and the shard manifest; the raw byte limit, JSON parsing, the comparison with the fixed plan tables and the invocation ID made from the raw hash are not modelled.
- Replay.ValidateProjectedCache: the fixed rule assignment tables, schema version strings and snapshot hash binding are not modelled.
- WheelRecord.InjectSbom: CSV and zip are parameters; writing rows and parsing them again gives the same rows, and compression and the temporary file are not modelled.
- Rows are typed, so checks that a JSON value has the wrong shape do not appear, except in review events, where they do.
- File modes, owners, symbolic links, hard links, junctions and descriptor walking of the cache tree: only paths, bytes and directories are kept.
- Network, subprocess launch, sandbox profile, argument parsing, printing and schema literals: nothing to state about them here.
- `_redact_shard_payloads`: replaces payloads one after another and does not check that none is left, so nothing is claimed of it.
- `_publish_artifacts` and `load_review_cache` as a whole: only what loading establishes about chunk rows is used.
- `normalize_trace` of the evaluation tooling, its command policy and scoring.
- Secret scanning, release notes and SBOM contents in the release audit, and the `hlsgraph` package itself.

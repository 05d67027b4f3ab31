/** End to end: an accepted stream over a shard cache taken from a valid full cache showed
    every assigned byte, exactly once, and nothing else. */
module Coverage {
  import opened Sequences
  import opened Utf8
  import opened CacheModel
  import opened ChunkInventory
  import opened FullCache
  import opened Json
  import opened Projection
  import opened Surface
  import opened ShardCache
  import opened Commands
  import opened Replay
  import opened Lifecycle

  function StepOperations(step: Step): seq<Operation> {
    if step.action.CommandCompleted? then step.action.operations else []
  }

  /** The chunk paths one step reads, for one kind of read. */
  function StepReads(kind: Operation -> seq<string>, step: Step): seq<string> {
    FlatMap(kind, StepOperations(step))
  }

  lemma {:induction false} RunOperations(steps: seq<Step>)
    requires Run(steps).Some?
    ensures Run(steps).value.operations == FlatMap(StepOperations, steps)
  {
    hide Enabled;
    if steps != [] {
      var front, last := steps[..|steps| - 1], steps[|steps| - 1];
      RunOperations(front);
      FlatMapSnoc(StepOperations, front, last);
      assert front + [last] == steps;
    }
  }

  lemma {:induction false} FlatMapFuses<R, S, T>(f: S -> seq<T>, g: R -> seq<S>, h: R -> seq<T>, s: seq<R>)
    requires forall r :: r in s ==> h(r) == FlatMap(f, g(r))
    ensures FlatMap(f, FlatMap(g, s)) == FlatMap(h, s)
  {
    if s != [] {
      FlatMapFuses(f, g, h, s[1..]);
      FlatMapConcat(f, g(s[0]), FlatMap(g, s[1..]));
    }
  }

  // ---- A completed command reads one chunk or none ----

  lemma {:induction false} HashesReadNothing(c: Cache, paths: seq<string>)
    requires HashCommand(c, paths).Some?
    ensures FlatMap(SourceRead, HashCommand(c, paths).value.operations) == []
    ensures FlatMap(CitationRead, HashCommand(c, paths).value.operations) == []
  {
    hide FindTarget;
    if paths != [] {
      var last := paths[|paths| - 1];
      HashesReadNothing(c, paths[..|paths| - 1]);
      var front := HashCommand(c, paths[..|paths| - 1]).value.operations;
      FlatMapSnoc(SourceRead, front, HashOperation(FindTarget(c, last).value));
      FlatMapSnoc(CitationRead, front, HashOperation(FindTarget(c, last).value));
    }
  }

  /** The reads of one expected command: at most one path, shown whole. */
  predicate OneRead(c: Cache, e: Command) {
    && |FlatMap(SourceRead, e.operations)| + |FlatMap(CitationRead, e.operations)| <= 1
    && (forall p :: p in FlatMap(SourceRead, e.operations) ==>
          !e.citationContent && p in c.tree.files && Encode(e.output) == c.tree.files[p])
    && (forall p :: p in FlatMap(CitationRead, e.operations) ==>
          p in c.tree.files && Encode(e.output) == c.tree.files[p])
  }

  lemma ExpectedReads(c: Cache, command: string)
    requires Expected(c, command).Some?
    ensures OneRead(c, Expected(c, command).value)
  {
    hide FindTarget, Keyed, HashCommand, HeadCommand, Encode;
    var parts := c.split(command).value;
    if parts[0] == "head" {
      HeadReads(c, parts);
    } else {
      HashesReadNothing(c, parts[1..]);
    }
  }

  lemma HeadReads(c: Cache, parts: seq<string>)
    requires HeadCommand(c, parts).Some?
    ensures OneRead(c, HeadCommand(c, parts).value)
  {
    hide FindTarget, Encode, WellFormed, FirstLines, SplitLines;
    HeadShowsWholeChunk(c, parts);
    var t, e := FindTarget(c, parts[3]).value, HeadCommand(c, parts).value;
    var op := ReadOperation(t, c.manifest.chunkContract);
    FlatMapOne(SourceRead, op);
    FlatMapOne(CitationRead, op);
  }

  ghost predicate ReadsWell(c: Cache, step: Step) {
    && |StepReads(SourceRead, step)| + |StepReads(CitationRead, step)| <= 1
    && (forall p :: p in StepReads(SourceRead, step) ==>
          step.action.CommandCompleted? && p in c.tree.files && Encode(step.action.output) == c.tree.files[p])
    && (forall p :: p in StepReads(CitationRead, step) ==>
          step.action.CommandCompleted? && p in c.tree.files && ShownOrMarked(c, p, step.action.output))
  }

  /** The bytes themselves, or the marker that names their hash and length. */
  ghost predicate ShownOrMarked(c: Cache, path: string, output: string)
    requires path in c.tree.files
  {
    || Encode(output) == c.tree.files[path]
    || exists text :: Encode(text) == c.tree.files[path] && output == Marker(text, c.sha)
  }

  lemma CompletionReads(x: Context, callId: string, command: string, item: Object)
    requires ParseCompletion(x, callId, command, item).Some?
    ensures forall thread, invocation :: ReadsWell(x.cache, Step(thread, invocation, ParseCompletion(x, callId, command, item).value))
  {
    hide Expected, Encode, Marker, Unwrap;
    var output := CommandOutput(item).value;
    AcceptedOutputs(x.cache, command, output);
    var inner := Unwrap(command, x.cache.split).value;
    ExpectedReads(x.cache, inner);
    assert FlatMap(SourceRead, []) == [] && FlatMap(CitationRead, []) == [];
  }

  lemma NoReads(c: Cache, step: Step)
    requires !step.action.CommandCompleted?
    ensures ReadsWell(c, step)
  {
  }

  lemma ParsedReads(x: Context, e: Object)
    requires Parse(x, e).Some?
    ensures ReadsWell(x.cache, Parse(x, e).value)
  {
    hide NoCompaction, ParseUsage, IsToken, IsCallId, ContentText, ParseCompletion, ReadsWell;
    var step := Parse(x, e).value;
    if step.action.CommandCompleted? {
      CompletedIsParsed(x, e);
      var item := Get(e, "item").fields;
      CompletionReads(x, CallId(item).s, Get(item, "command").s, item);
      assert step == Step(step.thread, step.invocation, step.action);
    } else {
      NoReads(x.cache, step);
    }
  }

  /** A completed command is the literal command and output of its event. */
  lemma CompletedIsParsed(x: Context, e: Object)
    requires Parse(x, e).Some? && Parse(x, e).value.action.CommandCompleted?
    ensures Get(e, "type") == Str("item.completed") && Get(e, "item").Obj?
    ensures var item, a := Get(e, "item").fields, Parse(x, e).value.action;
      && CallId(item) == Str(a.callId) && Get(item, "command") == Str(a.command)
      && Get(item, "aggregated_output") == Str(a.output)
      && ParseCompletion(x, a.callId, a.command, item) == Some(a)
  {
    hide NoCompaction, ParseUsage, IsToken, IsCallId, ContentText, CommandOperations;
  }

  // ---- Counting reads ----

  lemma {:induction false} CountedOnce(kind: Step -> seq<string>, steps: seq<Step>, path: string)
    requires forall i :: 0 <= i < |steps| ==> |kind(steps[i])| <= 1
    ensures multiset(FlatMap(kind, steps))[path] == Tally(s => path in kind(s), steps)
  {
    if steps != [] {
      var front, last := steps[..|steps| - 1], steps[|steps| - 1];
      assert forall i :: 0 <= i < |front| ==> front[i] == steps[i];
      CountedOnce(kind, front, path);
      FlatMapSnoc(kind, front, last);
      assert front + [last] == steps;
      if kind(last) != [] { assert kind(last) == [kind(last)[0]]; }
    }
  }

  /** `p` is read by exactly one step when listed, and by none otherwise. */
  predicate ReadAsListed(kind: Operation -> seq<string>, steps: seq<Step>, paths: seq<string>, p: string) {
    && (p in paths ==> exists i :: 0 <= i < |steps| && p in StepReads(kind, steps[i]))
    && (forall i, j :: 0 <= i < j < |steps| && p in StepReads(kind, steps[i]) ==> p !in StepReads(kind, steps[j]))
    && forall i :: 0 <= i < |steps| && p in StepReads(kind, steps[i]) ==> p in paths
  }

  ghost predicate ReadExactly(kind: Operation -> seq<string>, steps: seq<Step>, paths: seq<string>) {
    forall p :: ReadAsListed(kind, steps, paths, p)
  }

  lemma ReadPathExactly(kind: Operation -> seq<string>, steps: seq<Step>, paths: seq<string>, p: string)
    requires forall i :: 0 <= i < |steps| ==> |StepReads(kind, steps[i])| <= 1
    requires NoDuplicates(paths)
    requires multiset(FlatMap(kind, FlatMap(StepOperations, steps))) == multiset(paths)
    ensures ReadAsListed(kind, steps, paths, p)
  {
    hide Tally, StepReads;
    var shown := (s: Step) => StepReads(kind, s);
    FusedReads(kind, shown, steps);
    CountedOnce(shown, steps, p);
    CountDistinct(paths, p);
    var reading := s => p in shown(s);
    TallyNone(reading, steps);
    forall i | 0 <= i < |steps| && p in StepReads(kind, steps[i])
      ensures p in paths && forall j :: 0 <= j < |steps| && i != j ==> p !in StepReads(kind, steps[j])
    {
      TallyOne(reading, steps, i);
      forall j | 0 <= j < |steps| && i != j ensures p !in StepReads(kind, steps[j]) { assert !reading(steps[j]); }
    }
    if p in paths {
      var i :| 0 <= i < |steps| && reading(steps[i]);
    }
  }

  lemma FusedReads(kind: Operation -> seq<string>, shown: Step -> seq<string>, steps: seq<Step>)
    requires forall s :: shown(s) == StepReads(kind, s)
    ensures FlatMap(kind, FlatMap(StepOperations, steps)) == FlatMap(shown, steps)
  {
    FlatMapFuses(kind, StepOperations, shown, steps);
  }

  lemma PathsDistinct(m: ShardManifest)
    requires DistinctPaths(AssignedChunks(m))
    ensures NoDuplicates(AssignedSources(m)) && NoDuplicates(AssignedCitations(m))
  {
    hide FlatMap;
    var a, b := FlatMap(FileChunks, m.files), FlatMap(CitationChunks, m.citations);
    forall i, j | 0 <= i < j < |a| ensures a[i].path != a[j].path { assert (a + b)[i] == a[i] && (a + b)[j] == a[j]; }
    forall i, j | 0 <= i < j < |b| ensures b[i].path != b[j].path {
      assert (a + b)[|a| + i] == b[i] && (a + b)[|a| + j] == b[j];
    }
  }

  /** Every assigned chunk was read by exactly one completed command, and no other chunk was read. */
  lemma AcceptedReadsExactly(x: Context, m: ShardManifest, events: seq<Object>)
    requires Replayed(x, m, events).Some?
    ensures Steps(x, events).Some?
    ensures ReadExactly(SourceRead, Steps(x, events).value, AssignedSources(m))
    ensures ReadExactly(CitationRead, Steps(x, events).value, AssignedCitations(m))
    ensures forall i :: 0 <= i < |events| ==> ReadsWell(x.cache, Steps(x, events).value[i])
  {
    hide Tally, StepReads, WellFormedStream, OrderedLifecycle, ReadsWell, Parse, ChunkPresent, Keyed, AssignedChunks, AssignedSources, AssignedCitations;
    ReplaySteps(x, m, events);
    var steps := Steps(x, events).value;
    AcceptsExactly(steps);
    RunOperations(steps);
    PathsDistinct(m);
    forall i | 0 <= i < |steps| ensures ReadsWell(x.cache, steps[i]) {
      assert Parse(x, events[i]) == Some(steps[i]);
      ParsedReads(x, events[i]);
    }
    forall i | 0 <= i < |steps| ensures |StepReads(SourceRead, steps[i])| <= 1 && |StepReads(CitationRead, steps[i])| <= 1 {
      ReadsAtMostOne(x.cache, steps[i]);
    }
    ReadAll(SourceRead, steps, AssignedSources(m));
    ReadAll(CitationRead, steps, AssignedCitations(m));
  }

  lemma ReadsAtMostOne(c: Cache, step: Step)
    requires ReadsWell(c, step)
    ensures |StepReads(SourceRead, step)| <= 1 && |StepReads(CitationRead, step)| <= 1
  {
  }

  lemma ReadAll(kind: Operation -> seq<string>, steps: seq<Step>, paths: seq<string>)
    requires forall i :: 0 <= i < |steps| ==> |StepReads(kind, steps[i])| <= 1
    requires NoDuplicates(paths)
    requires multiset(FlatMap(kind, FlatMap(StepOperations, steps))) == multiset(paths)
    ensures ReadExactly(kind, steps, paths)
  {
    forall p ensures ReadAsListed(kind, steps, paths, p) {
      ReadPathExactly(kind, steps, paths, p);
    }
  }

  // ---- From reads to bytes ----

  /** What the stream showed for a chunk path. */
  function OutputFor(kind: Operation -> seq<string>, steps: seq<Step>, path: string): string {
    if steps == [] then ""
    else if path in StepReads(kind, steps[0]) && steps[0].action.CommandCompleted? then steps[0].action.output
    else OutputFor(kind, steps[1..], path)
  }

  lemma {:induction false} OutputFrom(kind: Operation -> seq<string>, steps: seq<Step>, path: string) returns (i: nat)
    requires exists k :: 0 <= k < |steps| && path in StepReads(kind, steps[k])
    ensures i < |steps| && path in StepReads(kind, steps[i])
    ensures steps[i].action.CommandCompleted? && OutputFor(kind, steps, path) == steps[i].action.output
  {
    if path in StepReads(kind, steps[0]) {
      i := 0;
    } else {
      var k :| 0 <= k < |steps| && path in StepReads(kind, steps[k]);
      assert steps[1..][k - 1] == steps[k];
      i := OutputFrom(kind, steps[1..], path);
      i := i + 1;
    }
  }

  lemma SourceShown(c: Cache, steps: seq<Step>, path: string, paths: seq<string>)
    requires forall i :: 0 <= i < |steps| ==> ReadsWell(c, steps[i])
    requires ReadAsListed(SourceRead, steps, paths, path) && path in paths
    ensures path in c.tree.files && Encode(OutputFor(SourceRead, steps, path)) == c.tree.files[path]
  {
    hide StepReads, Encode;
    var i := OutputFrom(SourceRead, steps, path);
    assert ReadsWell(c, steps[i]);
  }

  lemma CitationShown(c: Cache, steps: seq<Step>, path: string, paths: seq<string>)
    requires forall i :: 0 <= i < |steps| ==> ReadsWell(c, steps[i])
    requires ReadAsListed(CitationRead, steps, paths, path) && path in paths
    ensures path in c.tree.files && ShownOrMarked(c, path, OutputFor(CitationRead, steps, path))
  {
    hide StepReads, Encode;
    var i := OutputFrom(CitationRead, steps, path);
    assert ReadsWell(c, steps[i]);
  }

  lemma InPathList(chunks: seq<ChunkRow>, c: ChunkRow)
    requires c in chunks
    ensures c.path in ChunkPathList(chunks)
  {
    var k :| 0 <= k < |chunks| && chunks[k] == c;
    assert ChunkPathList(chunks)[k] == c.path;
  }

  lemma Copied(t: Tree, full: map<string, Bytes>, m: ShardManifest, codec: Codec<ShardManifest>, sha: Bytes -> string, c: ChunkRow)
    requires ShardCacheOk(t, full, m, codec, sha) && c in AssignedChunks(m)
    ensures c.path in t.files && t.files[c.path] == Payload(full, c.path)
    ensures |t.files[c.path]| == c.size && sha(t.files[c.path]) == c.sha256
  {
    hide AssignedChunks;
    var i :| 0 <= i < |AssignedChunks(m)| && AssignedChunks(m)[i] == c;
    assert ChunkCopied(t, full, c, sha);
  }

  /** The outputs shown for these chunks, joined in chunk order. */
  function ShownBytes(kind: Operation -> seq<string>, steps: seq<Step>, chunks: seq<ChunkRow>): Bytes {
    FlatMap((c: ChunkRow) => Encode(OutputFor(kind, steps, c.path)), chunks)
  }

  lemma ShownIsRebuilt(kind: Operation -> seq<string>, steps: seq<Step>, chunks: seq<ChunkRow>, files: map<string, Bytes>)
    requires forall c :: c in chunks ==> Encode(OutputFor(kind, steps, c.path)) == Payload(files, c.path)
    ensures ShownBytes(kind, steps, chunks) == Rebuilt(files, chunks)
  {
    FlatMapAgrees((c: ChunkRow) => Encode(OutputFor(kind, steps, c.path)), (c: ChunkRow) => Payload(files, c.path), chunks);
  }

  /** The cached payload of an assigned source file. */
  function SourcePayload(files: map<string, Bytes>, full: FullManifest, path: string): Bytes {
    match FindFile(full.files, path)
    case None => []
    case Some(f) => Payload(files, f.cache.path)
  }

  /** The text of an assigned citation, as the acquisition stored it. */
  function InspectionPayload(files: map<string, Bytes>, full: FullManifest, url: string): Bytes {
    match FindCitation(full.citations, url)
    case Some(c) => if c.inspection.Some? then Payload(files, c.inspection.value.path) else []
    case None => []
  }

  lemma FileRebuilt(source: Tree, full: FullManifest, sha: Bytes -> string, m: ShardManifest, budget: string,
                    digest: seq<ShardCitation> -> string, i: nat)
    requires FilesValid(source, full.files, sha) && ShardManifestOk(full, m, budget, digest) && i < |m.files|
    ensures Rebuilt(source.files, m.files[i].chunks) == SourcePayload(source.files, full, m.files[i].path)
  {
    hide Rebuilt, Holds, ChunkHeld, ChunkRowsOk, SurfaceDigest, AssignedChunks;
    assert FileMatches(full, m.files[i]);
    var f := FindFile(full.files, m.files[i].path).value;
    assert FileValid(source, f, sha);
  }

  lemma CitationRebuilt(source: Tree, full: FullManifest, sha: Bytes -> string, m: ShardManifest, budget: string,
                        digest: seq<ShardCitation> -> string, i: nat)
    requires CitationsValid(source, full.citations, sha) && ShardManifestOk(full, m, budget, digest) && i < |m.citations|
    ensures Rebuilt(source.files, m.citations[i].chunks) == InspectionPayload(source.files, full, m.citations[i].requestedUrl)
  {
    hide Rebuilt, Holds, ChunkHeld, ChunkRowsOk, SurfaceDigest, AssignedChunks;
    assert CitationMatches(full, m.ruleReferences, m.citations[i]);
    var c := FindCitation(full.citations, m.citations[i].requestedUrl).value;
    assert CitationValid(source, c, sha);
  }

  predicate LooksRedacted(output: string) { StartsWith(output, MARKER) }

  predicate Unredacted(steps: seq<Step>, chunks: seq<ChunkRow>) {
    forall c :: c in chunks ==> !LooksRedacted(OutputFor(CitationRead, steps, c.path))
  }

  /** A citation output is the chunk, or a marker with the chunk's recorded hash and size. */
  lemma MarkedChunk(c: Cache, row: ChunkRow, output: string)
    requires row.path in c.tree.files && ShownOrMarked(c, row.path, output)
    requires |c.tree.files[row.path]| == row.size && c.sha(c.tree.files[row.path]) == row.sha256
    ensures Encode(output) == c.tree.files[row.path] || (row.size >= 0 && output == MarkerFor(row.sha256, row.size))
    ensures !LooksRedacted(output) ==> Encode(output) == c.tree.files[row.path]
  {
    hide Encode;
  }

  lemma AssignedSourceBytes(x: Context, source: Tree, full: FullManifest, m: ShardManifest, codec: Codec<ShardManifest>,
                            budget: string, digest: seq<ShardCitation> -> string, steps: seq<Step>, i: nat)
    requires FilesValid(source, full.files, x.cache.sha) && ShardManifestOk(full, m, budget, digest)
    requires ShardCacheOk(x.cache.tree, source.files, m, codec, x.cache.sha)
    requires forall k :: 0 <= k < |steps| ==> ReadsWell(x.cache, steps[k])
    requires ReadExactly(SourceRead, steps, AssignedSources(m)) && i < |m.files|
    ensures ShownBytes(SourceRead, steps, m.files[i].chunks) == SourcePayload(source.files, full, m.files[i].path)
  {
    hide ReadAsListed, ReadsWell, OutputFor, Encode, ShownBytes, Rebuilt, ShardManifestOk, ShardCacheOk, FilesValid, SourcePayload, Payload;
    forall c | c in m.files[i].chunks ensures Encode(OutputFor(SourceRead, steps, c.path)) == Payload(source.files, c.path) {
      FlatMember(FileChunks, m.files, c);
      InPathList(FlatMap(FileChunks, m.files), c);
      assert ReadAsListed(SourceRead, steps, AssignedSources(m), c.path);
      SourceShown(x.cache, steps, c.path, AssignedSources(m));
      Copied(x.cache.tree, source.files, m, codec, x.cache.sha, c);
    }
    ShownIsRebuilt(SourceRead, steps, m.files[i].chunks, source.files);
    FileRebuilt(source, full, x.cache.sha, m, budget, digest, i);
  }

  lemma AssignedCitationChunk(x: Context, source: Tree, m: ShardManifest, codec: Codec<ShardManifest>, steps: seq<Step>, i: nat, c: ChunkRow)
    requires ShardCacheOk(x.cache.tree, source.files, m, codec, x.cache.sha)
    requires forall k :: 0 <= k < |steps| ==> ReadsWell(x.cache, steps[k])
    requires ReadExactly(CitationRead, steps, AssignedCitations(m)) && i < |m.citations| && c in m.citations[i].chunks
    ensures var output := OutputFor(CitationRead, steps, c.path);
      && (Encode(output) == Payload(source.files, c.path) || (c.size >= 0 && output == MarkerFor(c.sha256, c.size)))
      && (!LooksRedacted(output) ==> Encode(output) == Payload(source.files, c.path))
  {
    hide ReadAsListed, ReadsWell, OutputFor, Encode, ShardCacheOk, Payload, LooksRedacted, ShownOrMarked;
    FlatMember(CitationChunks, m.citations, c);
    InPathList(FlatMap(CitationChunks, m.citations), c);
    assert ReadAsListed(CitationRead, steps, AssignedCitations(m), c.path);
    CitationShown(x.cache, steps, c.path, AssignedCitations(m));
    Copied(x.cache.tree, source.files, m, codec, x.cache.sha, c);
    MarkedChunk(x.cache, c, OutputFor(CitationRead, steps, c.path));
  }

  lemma AssignedCitationBytes(x: Context, source: Tree, full: FullManifest, m: ShardManifest, codec: Codec<ShardManifest>,
                              budget: string, digest: seq<ShardCitation> -> string, steps: seq<Step>, i: nat)
    requires CitationsValid(source, full.citations, x.cache.sha) && ShardManifestOk(full, m, budget, digest)
    requires ShardCacheOk(x.cache.tree, source.files, m, codec, x.cache.sha)
    requires forall k :: 0 <= k < |steps| ==> ReadsWell(x.cache, steps[k])
    requires ReadExactly(CitationRead, steps, AssignedCitations(m)) && i < |m.citations|
    requires Unredacted(steps, m.citations[i].chunks)
    ensures ShownBytes(CitationRead, steps, m.citations[i].chunks) == InspectionPayload(source.files, full, m.citations[i].requestedUrl)
  {
    hide OutputFor, Encode, ShownBytes, Rebuilt, ShardManifestOk, ShardCacheOk, CitationsValid, InspectionPayload, Payload, ReadsWell, ReadExactly, LooksRedacted;
    forall c | c in m.citations[i].chunks ensures Encode(OutputFor(CitationRead, steps, c.path)) == Payload(source.files, c.path) {
      AssignedCitationChunk(x, source, m, codec, steps, i, c);
    }
    ShownIsRebuilt(CitationRead, steps, m.citations[i].chunks, source.files);
    CitationRebuilt(source, full, x.cache.sha, m, budget, digest, i);
  }

  /** For every assigned file, what was shown is the file; for every assigned citation it is the stored text, or
      markers committing to it; and nothing was read twice or from outside the assignment. */
  ghost predicate ShownOnce(source: Tree, full: FullManifest, m: ShardManifest, steps: seq<Step>) {
    && ReadExactly(SourceRead, steps, AssignedSources(m))
    && ReadExactly(CitationRead, steps, AssignedCitations(m))
    && (forall i :: 0 <= i < |m.files| ==>
          ShownBytes(SourceRead, steps, m.files[i].chunks) == SourcePayload(source.files, full, m.files[i].path))
    && (forall i, c :: 0 <= i < |m.citations| && c in m.citations[i].chunks ==>
          var output := OutputFor(CitationRead, steps, c.path);
          Encode(output) == Payload(source.files, c.path) || (c.size >= 0 && output == MarkerFor(c.sha256, c.size)))
    && forall i :: 0 <= i < |m.citations| && Unredacted(steps, m.citations[i].chunks) ==>
         ShownBytes(CitationRead, steps, m.citations[i].chunks)
           == InspectionPayload(source.files, full, m.citations[i].requestedUrl)
  }

  /** Over a shard cache taken from a valid full cache, an accepted stream showed everything assigned once. */
  lemma EveryAssignedByteShownOnce(
      x: Context, source: Tree, full: FullManifest, fullCodec: Codec<FullManifest>, m: ShardManifest,
      codec: Codec<ShardManifest>, budget: string, digest: seq<ShardCitation> -> string, events: seq<Object>)
    requires FullValid(source, full, fullCodec, x.cache.sha) && ShardManifestOk(full, m, budget, digest)
    requires ShardCacheOk(x.cache.tree, source.files, m, codec, x.cache.sha)
    requires Replayed(x, m, events).Some?
    ensures Steps(x, events).Some? && ShownOnce(source, full, m, Steps(x, events).value)
  {
    hide FilesValid, CitationsValid, ShardManifestOk, ShardCacheOk, Replayed, ReadExactly, ReadsWell, OutputFor, ShownBytes, Encode,
      SourcePayload, InspectionPayload, Payload, LooksRedacted, MarkerFor;
    AcceptedReadsExactly(x, m, events);
    var steps := Steps(x, events).value;
    forall i | 0 <= i < |m.files|
      ensures ShownBytes(SourceRead, steps, m.files[i].chunks) == SourcePayload(source.files, full, m.files[i].path)
    {
      AssignedSourceBytes(x, source, full, m, codec, budget, digest, steps, i);
    }
    forall i, c | 0 <= i < |m.citations| && c in m.citations[i].chunks
      ensures var output := OutputFor(CitationRead, steps, c.path);
        Encode(output) == Payload(source.files, c.path) || (c.size >= 0 && output == MarkerFor(c.sha256, c.size))
    {
      AssignedCitationChunk(x, source, m, codec, steps, i, c);
    }
    forall i | 0 <= i < |m.citations| && Unredacted(steps, m.citations[i].chunks)
      ensures ShownBytes(CitationRead, steps, m.citations[i].chunks) == InspectionPayload(source.files, full, m.citations[i].requestedUrl)
    {
      AssignedCitationBytes(x, source, full, m, codec, budget, digest, steps, i);
    }
  }

  /** Project, materialise, replay: from a loaded and valid full cache whose assigned citations are available,
      the projected manifest is accepted, its shard tree validates, and an accepted replay over that tree
      showed everything assigned once. */
  lemma ProjectedShardIsShownOnce(
      x: Context, source: Tree, full: FullManifest, fullCodec: Codec<FullManifest>, plan: ShardPlan, m: ShardManifest,
      codec: Codec<ShardManifest>, budget: string, digest: seq<ShardCitation> -> string, events: seq<Object>)
    requires HexHash(x.cache.sha) && HexDigest(digest) && RoundTrips(codec)
    requires FullValid(source, full, fullCodec, x.cache.sha) && Loaded(source, full, x.cache.sha)
    requires IsSha256(plan.planSha256) && Project(full, plan, budget, digest) == Some(m) && AssignedAvailable(full, plan)
    requires CollisionFree(x.cache.sha, OriginNames(m)) && |codec.encode(m)| <= MAX_CITATION_BYTES
    requires x.cache.tree == ShardTree(source.files, m, codec.encode(m))
    ensures ShardManifestOk(full, m, budget, digest) && ShardCacheOk(x.cache.tree, source.files, m, codec, x.cache.sha)
    ensures Replayed(x, m, events).Some? ==>
              Steps(x, events).Some? && ShownOnce(source, full, m, Steps(x, events).value)
  {
    hide FullValid, Loaded, Project, AssignedAvailable, CollisionFree, OriginNames, ShardManifestOk, ShardCacheOk, ShardTree, Replayed,
      ReadExactly, OutputFor, ShownBytes, Encode, SourcePayload, InspectionPayload, Payload, MarkerFor, Unredacted;
    ProjectionsAgree(source, full, x.cache.sha, plan, budget, digest, m);
    ValidShardCacheIsUnique(x.cache.tree, source, full, fullCodec, m, codec, budget, digest, x.cache.sha);
    if Replayed(x, m, events).Some? {
      EveryAssignedByteShownOnce(x, source, full, fullCodec, m, codec, budget, digest, events);
    }
  }
}

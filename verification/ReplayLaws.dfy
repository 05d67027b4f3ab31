/** Which streams a shard replay accepts, all its checks together: the cache, the lifecycle, the reads and the result. */
module ReplayLaws {
  import opened Sequences
  import opened CacheModel
  import opened Json
  import opened Projection
  import opened Commands
  import opened Replay
  import opened Lifecycle
  import opened Coverage
  import opened CacheLaws
  import opened CanonicalStream
  import opened ParseLaws
  import opened ReplayTrace

  // ---- The cache ----

  /** The cache's own manifest says what the shard manifest says. */
  predicate SameManifest(a: ShardManifest, b: ShardManifest) {
    && a.files == b.files && a.citations == b.citations && a.chunkContract == b.chunkContract && a.protocolId == b.protocolId
    && a.snapshotSha256 == b.snapshotSha256 && a.planSha256 == b.planSha256 && a.shardId == b.shardId
    && a.citationSurfaceSha256 == b.citationSurfaceSha256 && a.fullSurfaceSha256 == b.fullSurfaceSha256
  }

  /** The chunk's file is there, small enough to read, with the recorded hash and size. */
  predicate Held(c: Cache, chunk: ChunkRow) {
    && chunk.path in c.tree.files && |c.tree.files[chunk.path]| <= 33554432
    && c.sha(c.tree.files[chunk.path]) == chunk.sha256 && |c.tree.files[chunk.path]| == chunk.size
  }

  /** The cache serves this shard: every file is to be inspected and has chunks, no chunk path repeats, and every chunk is held. */
  ghost predicate Serves(c: Cache, m: ShardManifest) {
    && SameManifest(c.manifest, m)
    && (forall i :: 0 <= i < |m.files| ==> m.files[i].inspectionRequired && m.files[i].chunks != [])
    && DistinctPaths(AssignedChunks(m))
    && forall chunk :: Assigned(m, chunk) ==> Held(c, chunk)
  }

  /** A file that needs no inspection has no targets, so its chunks would be missing from them. */
  lemma TargetsInspected(c: Cache, i: nat)
    requires Keyed(AllTargets(c.manifest)).Some? && DistinctPaths(AssignedChunks(c.manifest))
    requires Keyed(AllTargets(c.manifest)).value.Keys == ChunkPaths(AssignedChunks(c.manifest))
    requires i < |c.manifest.files| && c.manifest.files[i].chunks != []
    ensures c.manifest.files[i].inspectionRequired
  {
    hide Keyed, AllTargets, AssignedChunks;
    var m := c.manifest;
    var chunk := m.files[i].chunks[0];
    AssignedExactly(m, chunk);
    KeyedIsInventory(AllTargets(m));
    assert chunk.path in Keyed(AllTargets(m)).value;
    var t := Keyed(AllTargets(m)).value[chunk.path];
    TargetIsAssigned(m, t);
    SamePath(AssignedChunks(m), chunk, t.chunk);
    TargetOfFile(m, t, i);
  }

  lemma SamePath(chunks: seq<ChunkRow>, a: ChunkRow, b: ChunkRow)
    requires DistinctPaths(chunks) && a in chunks && b in chunks && a.path == b.path
    ensures a == b
  {
    var i :| 0 <= i < |chunks| && chunks[i] == a;
    var j :| 0 <= j < |chunks| && chunks[j] == b;
  }

  lemma TargetIsAssigned(m: ShardManifest, t: Target)
    requires t in AllTargets(m)
    ensures t.chunk in AssignedChunks(m)
    ensures t.SourceChunk? ==> t.source in m.files && t.source.inspectionRequired && t.chunk in t.source.chunks
    ensures t.CitationChunk? ==> t.entry in m.citations && t.chunk in t.entry.chunks
  {
    hide AssignedChunks;
    FlatMember(FileTargets, m.files, t);
    FlatMember(CitationTargets, m.citations, t);
    AssignedExactly(m, t.chunk);
    if k :| 0 <= k < |m.files| && t in FileTargets(m.files[k]) {
      var n :| 0 <= n < |FileTargets(m.files[k])| && FileTargets(m.files[k])[n] == t;
      assert t.chunk in m.files[k].chunks;
    } else {
      var k :| 0 <= k < |m.citations| && t in CitationTargets(m.citations[k]);
      var n :| 0 <= n < |CitationTargets(m.citations[k])| && CitationTargets(m.citations[k])[n] == t;
      assert t.chunk in m.citations[k].chunks;
    }
  }

  /** Chunk positions: two places with one chunk would repeat its path. */
  lemma TargetOfFile(m: ShardManifest, t: Target, i: nat)
    requires DistinctPaths(AssignedChunks(m)) && t in AllTargets(m) && i < |m.files| && t.chunk in m.files[i].chunks
    ensures t.SourceChunk? && m.files[i].inspectionRequired
  {
    hide AllTargets, AssignedChunks;
    TargetIsAssigned(m, t);
    if t.CitationChunk? {
      var k :| 0 <= k < |m.citations| && m.citations[k] == t.entry;
      InTwoParts(m, i, k, t.chunk);
    } else {
      var k :| 0 <= k < |m.files| && m.files[k] == t.source;
      if k != i { InTwoFiles(m, i, k, t.chunk); }
    }
  }

  lemma PathTwice(a: seq<ChunkRow>, b: seq<ChunkRow>, c: ChunkRow)
    requires c in a && c in b
    ensures !DistinctPaths(a + b)
  {
    var i :| 0 <= i < |a| && a[i] == c;
    var j :| 0 <= j < |b| && b[j] == c;
    assert (a + b)[i] == c && (a + b)[|a| + j] == c;
  }

  lemma InTwoParts(m: ShardManifest, i: nat, k: nat, c: ChunkRow)
    requires i < |m.files| && c in m.files[i].chunks && k < |m.citations| && c in m.citations[k].chunks
    ensures !DistinctPaths(AssignedChunks(m))
  {
    hide DistinctPaths, FlatMap;
    FlatMember(FileChunks, m.files, c);
    FlatMember(CitationChunks, m.citations, c);
    PathTwice(FlatMap(FileChunks, m.files), FlatMap(CitationChunks, m.citations), c);
  }

  lemma InTwoFiles(m: ShardManifest, i: nat, k: nat, c: ChunkRow)
    requires i < |m.files| && k < |m.files| && i != k && c in m.files[i].chunks && c in m.files[k].chunks
    ensures !DistinctPaths(AssignedChunks(m))
  {
    hide DistinctPaths, FlatMap;
    var first, second := if i < k then i else k, if i < k then k else i;
    var a, b := FlatMap(FileChunks, m.files[..second]), FlatMap(FileChunks, m.files[second..]);
    FlatMapSplit(FileChunks, m.files, second);
    FlatMember(FileChunks, m.files[..second], c);
    FlatMember(FileChunks, m.files[second..], c);
    assert m.files[..second][first] == m.files[first] && m.files[second..][0] == m.files[second];
    PathTwice(a, b, c);
    if DistinctPaths(AssignedChunks(m)) { DistinctPrefix(a + b, FlatMap(CitationChunks, m.citations)); }
  }

  /** The replay's own validation of the cache is exactly that it serves the shard. */
  lemma ServesExactly(c: Cache, m: ShardManifest)
    ensures ProjectedCacheOk(c, m) <==> Serves(c, m)
  {
    hide Keyed, AllTargets, AssignedChunks, DistinctPaths, ChunkPresent, Held, Assigned, ChunkPaths;
    if ProjectedCacheOk(c, m) {
      SameTargets(c.manifest, m);
      forall i | 0 <= i < |m.files| ensures m.files[i].inspectionRequired { TargetsInspected(c, i); }
      forall chunk | Assigned(m, chunk) ensures Held(c, chunk) {
        AssignedExactly(m, chunk);
        HeldByKey(c, m, chunk);
      }
    }
    if Serves(c, m) {
      SameTargets(c.manifest, m);
      AllTargeted(m);
      var targets, chunks := AllTargets(m), AssignedChunks(m);
      TargetsApart(targets, chunks);
      KeyedChunks(targets, chunks);
      forall path | path in Keyed(targets).value ensures ChunkPresent(c, Keyed(targets).value[path].chunk) {
        TargetIsAssigned(m, Keyed(targets).value[path]);
        AssignedExactly(m, Keyed(targets).value[path].chunk);
        HeldIs(c, Keyed(targets).value[path].chunk);
      }
    }
  }

  lemma SameTargets(a: ShardManifest, b: ShardManifest)
    requires a.files == b.files && a.citations == b.citations
    ensures AllTargets(a) == AllTargets(b) && AssignedChunks(a) == AssignedChunks(b)
  {
  }

  lemma HeldIs(c: Cache, chunk: ChunkRow)
    ensures Held(c, chunk) <==> ChunkPresent(c, chunk)
  {
  }

  lemma TargetsApart(targets: seq<Target>, chunks: seq<ChunkRow>)
    requires MapEach(ChunkOf, targets) == chunks && DistinctPaths(chunks)
    ensures forall i, j :: 0 <= i < j < |targets| ==> targets[i].chunk.path != targets[j].chunk.path
  {
    hide MapEach;
    forall i, j | 0 <= i < j < |targets| ensures targets[i].chunk.path != targets[j].chunk.path {
      assert ChunkOf(targets[i]) == chunks[i] && ChunkOf(targets[j]) == chunks[j];
    }
  }

  lemma HeldByKey(c: Cache, m: ShardManifest, chunk: ChunkRow)
    requires ProjectedCacheOk(c, m) && chunk in AssignedChunks(m)
    ensures Held(c, chunk)
  {
    hide Keyed, AllTargets, AssignedChunks, DistinctPaths, ChunkPresent, Held;
    SameTargets(c.manifest, m);
    KeyedIsInventory(AllTargets(c.manifest));
    var t := Keyed(AllTargets(c.manifest)).value[chunk.path];
    TargetIsAssigned(m, t);
    SamePath(AssignedChunks(m), chunk, t.chunk);
    HeldIs(c, chunk);
  }

  // ---- The reads ----

  /** When each step reads at most one path and no listed path repeats, the reads are the list exactly when each listed path is
      read by one step and nothing else is read. */
  lemma ReadsExactly(kind: Operation -> seq<string>, steps: seq<Step>, paths: seq<string>)
    requires forall i :: 0 <= i < |steps| ==> |StepReads(kind, steps[i])| <= 1
    requires NoDuplicates(paths)
    ensures multiset(FlatMap(kind, FlatMap(StepOperations, steps))) == multiset(paths) <==> ReadExactly(kind, steps, paths)
  {
    hide ReadAsListed, StepReads, FlatMap, NoDuplicates, Tally;
    if multiset(FlatMap(kind, FlatMap(StepOperations, steps))) == multiset(paths) { ReadAll(kind, steps, paths); }
    if ReadExactly(kind, steps, paths) {
      var shown := (s: Step) => StepReads(kind, s);
      FusedReads(kind, shown, steps);
      forall p ensures multiset(FlatMap(shown, steps))[p] == multiset(paths)[p] {
        assert ReadAsListed(kind, steps, paths, p);
        CountedOnce(shown, steps, p);
        CountDistinct(paths, p);
        ReadCount(kind, steps, paths, p);
        TallyAgrees(s => p in shown(s), (s: Step) => p in StepReads(kind, s), steps);
      }
    }
  }

  lemma {:induction false} TallyAgrees(p: Step -> bool, q: Step -> bool, steps: seq<Step>)
    requires forall s :: p(s) <==> q(s)
    ensures Tally(p, steps) == Tally(q, steps)
  {
    if steps != [] { TallyAgrees(p, q, steps[..|steps| - 1]); }
  }

  lemma ReadCount(kind: Operation -> seq<string>, steps: seq<Step>, paths: seq<string>, p: string)
    requires ReadAsListed(kind, steps, paths, p)
    ensures Tally((s: Step) => p in StepReads(kind, s), steps) == if p in paths then 1 else 0
  {
    hide StepReads, Tally;
    var reading := (s: Step) => p in StepReads(kind, s);
    if p in paths {
      var i :| 0 <= i < |steps| && p in StepReads(kind, steps[i]);
      TallyOne(reading, steps, i);
      assert forall j :: 0 <= j < |steps| && j != i ==> !reading(steps[j]);
    } else {
      TallyNone(reading, steps);
    }
  }

  /** No completed command reads more than one chunk. */
  lemma StepsReadOne(x: Context, events: seq<Object>, steps: seq<Step>)
    requires |steps| == |events| && forall i :: 0 <= i < |events| ==> Parse(x, events[i]) == Some(steps[i])
    ensures forall i :: 0 <= i < |steps| ==> |StepReads(SourceRead, steps[i])| <= 1 && |StepReads(CitationRead, steps[i])| <= 1
  {
    hide Parse, StepReads, ReadsWell;
    forall i | 0 <= i < |steps| ensures |StepReads(SourceRead, steps[i])| <= 1 && |StepReads(CitationRead, steps[i])| <= 1 {
      ParsedReads(x, events[i]);
      ReadsAtMostOne(x.cache, steps[i]);
    }
  }

  // ---- Acceptance ----

  /** Every event means its step. */
  ghost predicate AllMean(x: Context, events: seq<Object>, steps: seq<Step>) {
    |steps| == |events| && forall i :: 0 <= i < |events| ==> Means(x, events[i], steps[i])
  }

  /** The stream opens with its thread and turn and closes with the turn. */
  predicate Framed(events: seq<Object>) {
    && |events| >= 4
    && Get(events[0], "type") == Str("thread.started") && Get(events[1], "type") == Str("turn.started")
    && Get(events[|events| - 1], "type") == Str("turn.completed")
  }

  /** The steps are those of an acceptable stream: well formed, reading each assigned chunk once and nothing else, with a final
      text that the result parser accepts. */
  ghost predicate Acceptable(x: Context, m: ShardManifest, steps: seq<Step>) {
    && WellFormedStream(steps)
    && ReadExactly(SourceRead, steps, AssignedSources(m)) && ReadExactly(CitationRead, steps, AssignedCitations(m))
    && exists k :: 0 <= k < |steps| && Finals(steps[k]) && x.judge(steps[k].action.text).Some?
  }

  lemma StepsExactly(x: Context, events: seq<Object>, steps: seq<Step>)
    ensures Steps(x, events) == Some(steps) <==> AllMean(x, events, steps)
  {
    hide Parse, Means;
    forall i | 0 <= i < |events| && i < |steps| ensures Parse(x, events[i]) == Some(steps[i]) <==> Means(x, events[i], steps[i]) {
      ParsesExactly(x, events[i], steps[i]);
    }
    if AllMean(x, events, steps) { CollectIs((e: Object) => Parse(x, e), events, steps); }
  }

  /** The final text of settled steps is that of their one final message. */
  lemma JudgedText(x: Context, steps: seq<Step>, s: State)
    requires Run(steps) == Some(s) && |s.messages| == 1
    ensures x.judge(s.messages[0]).Some? <==> exists k :: 0 <= k < |steps| && Finals(steps[k]) && x.judge(steps[k].action.text).Some?
  {
    hide Run;
    RunRemembers(steps);
    if x.judge(s.messages[0]).Some? {
      FlatMember(Texts, steps, s.messages[0]);
      var k :| 0 <= k < |steps| && s.messages[0] in Texts(steps[k]);
    }
    if k :| 0 <= k < |steps| && Finals(steps[k]) && x.judge(steps[k].action.text).Some? { OneText(steps, k); }
  }

  lemma SettledExactly(x: Context, m: ShardManifest, events: seq<Object>, steps: seq<Step>)
    requires |steps| == |events| && (forall i :: 0 <= i < |events| ==> Parse(x, events[i]) == Some(steps[i])) && DistinctPaths(AssignedChunks(m))
    ensures Run(steps).Some? && Conclude(x, m, Run(steps).value).Some? <==> Acceptable(x, m, steps)
  {
    hide Parse, Run, Settled, WellFormedStream, ReadExactly, StepReads, AssignedSources, AssignedCitations, Entries, Numbered, AssignedChunks;
    AcceptsExactly(steps);
    if Run(steps).Some? && Settled(Run(steps).value) {
      var s := Run(steps).value;
      RunOperations(steps);
      StepsReadOne(x, events, steps);
      PathsDistinct(m);
      ReadsExactly(SourceRead, steps, AssignedSources(m));
      ReadsExactly(CitationRead, steps, AssignedCitations(m));
      SettledFields(s);
      JudgedText(x, steps, s);
    }
  }

  /** A stream is accepted exactly when the cache serves the shard, the stream is framed, every event means a step, and the
      steps are acceptable. */
  lemma AcceptedExactly(x: Context, m: ShardManifest, events: seq<Object>)
    ensures Replayed(x, m, events).Some? <==>
      Serves(x.cache, m) && Framed(events) && exists steps :: AllMean(x, events, steps) && Acceptable(x, m, steps)
  {
    hide Parse, Run, Conclude, ProjectedCacheOk, Acceptable, AllMean;
    ServesExactly(x.cache, m);
    if Serves(x.cache, m) {
      forall steps ensures Steps(x, events) == Some(steps) <==> AllMean(x, events, steps) { StepsExactly(x, events, steps); }
      if Steps(x, events).Some? {
        var steps := Steps(x, events).value;
        SettledExactly(x, m, events, steps);
      }
    }
  }
}

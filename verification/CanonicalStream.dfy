/** The stream that a reviewing model following its instructions produces: the thread, the turn, one `head` read of each assigned
    chunk in any order, the result, the usage. Over a valid shard cache it is accepted. */
module CanonicalStream {
  import opened Sequences
  import opened Utf8
  import opened CacheModel
  import opened FullCache
  import opened ChunkInventory
  import opened Json
  import opened Surface
  import opened Projection
  import opened ShardCache
  import opened Commands
  import opened CommandLaws
  import opened Replay
  import opened Lifecycle
  import opened Coverage

  // ---- A cache ready for reading ----

  /** Every assigned chunk is there as text under a distinct canonical name, with the recorded hash and size. */
  predicate Prepared(c: Cache) {
    && Distinguishable(c)
    && (forall t :: t in AllTargets(c.manifest) ==>
          ReadableText(c, t) && ChunkPresent(c, t.chunk) && CanonicalRelative(t.chunk.path))
    && forall i :: 0 <= i < |c.manifest.files| ==> c.manifest.files[i].inspectionRequired && c.manifest.files[i].chunks != []
  }

  function ChunkOf(t: Target): ChunkRow { t.chunk }

  lemma FileTargetChunks(f: ShardFile)
    requires f.inspectionRequired
    ensures MapEach(ChunkOf, FileTargets(f)) == FileChunks(f)
  {
  }

  lemma CitationTargetChunks(e: ShardCitation)
    ensures MapEach(ChunkOf, CitationTargets(e)) == CitationChunks(e)
  {
  }

  /** With every file to be inspected, the targets are the assigned chunks, one for one. */
  lemma {:induction false} FilesTargeted(files: seq<ShardFile>)
    requires forall i :: 0 <= i < |files| ==> files[i].inspectionRequired
    ensures MapEach(ChunkOf, FlatMap(FileTargets, files)) == FlatMap(FileChunks, files)
  {
    hide FileTargets;
    if files != [] {
      FilesTargeted(files[1..]);
      FileTargetChunks(files[0]);
      MapEachConcat(ChunkOf, FileTargets(files[0]), FlatMap(FileTargets, files[1..]));
    }
  }

  lemma {:induction false} CitationsTargeted(cs: seq<ShardCitation>)
    ensures MapEach(ChunkOf, FlatMap(CitationTargets, cs)) == FlatMap(CitationChunks, cs)
  {
    hide CitationTargets;
    if cs != [] {
      CitationsTargeted(cs[1..]);
      CitationTargetChunks(cs[0]);
      MapEachConcat(ChunkOf, CitationTargets(cs[0]), FlatMap(CitationTargets, cs[1..]));
    }
  }

  lemma AllTargeted(m: ShardManifest)
    requires forall i :: 0 <= i < |m.files| ==> m.files[i].inspectionRequired
    ensures MapEach(ChunkOf, AllTargets(m)) == AssignedChunks(m)
  {
    FilesTargeted(m.files);
    CitationsTargeted(m.citations);
    MapEachConcat(ChunkOf, FlatMap(FileTargets, m.files), FlatMap(CitationTargets, m.citations));
  }

  /** A valid shard cache is ready for reading. */
  lemma ValidCacheIsPrepared(
      c: Cache, source: Tree, full: FullManifest, fullCodec: Codec<FullManifest>,
      codec: Codec<ShardManifest>, budget: string, digest: seq<ShardCitation> -> string)
    requires FullValid(source, full, fullCodec, c.sha) && ShardManifestOk(full, c.manifest, budget, digest)
    requires ShardCacheOk(c.tree, source.files, c.manifest, codec, c.sha)
    ensures Prepared(c)
  {
    hide FilesValid, CitationsValid, ShardManifestOk, AllTargets, AssignedChunks, ChunkHeld, ManifestHeld, ClosedTree, WellFormed, CanonicalRelative;
    var m := c.manifest;
    var targets, chunks := AllTargets(m), AssignedChunks(m);
    ManifestFiles(full, m, budget, digest);
    AllTargeted(m);
    forall i, j | 0 <= i < j < |targets| ensures targets[i].chunk.path != targets[j].chunk.path {
      assert ChunkOf(targets[i]) == chunks[i] && ChunkOf(targets[j]) == chunks[j];
    }
    forall t | t in targets ensures ReadableText(c, t) && ChunkPresent(c, t.chunk) && CanonicalRelative(t.chunk.path) {
      var i :| 0 <= i < |targets| && targets[i] == t;
      assert ChunkOf(targets[i]) == chunks[i] && ChunkCopied(c.tree, source.files, chunks[i], c.sha);
      AssignedChunkHeld(source, full, m, budget, digest, c.sha, t.chunk);
      HeldChunkFacts(source, t.chunk, c.sha);
      HeldIsCanonical(source, t.chunk, c.sha);
    }
  }

  lemma HeldIsCanonical(t: Tree, c: ChunkRow, sha: Bytes -> string)
    requires ChunkHeld(t, c, "chunks/source/", sha) || ChunkHeld(t, c, "chunks/citation/", sha)
    ensures CanonicalRelative(c.path)
  {
    hide CanonicalRelative, WellFormed;
  }

  lemma ManifestFiles(full: FullManifest, m: ShardManifest, budget: string, digest: seq<ShardCitation> -> string)
    requires ShardManifestOk(full, m, budget, digest)
    ensures forall i :: 0 <= i < |m.files| ==> m.files[i].inspectionRequired && m.files[i].chunks != []
    ensures DistinctPaths(AssignedChunks(m))
  {
    hide FindFile, FindCitation, SurfaceDigest, SortedInventory, ReferencesAscend, AssignedChunks, DistinctPaths, AssignedUrls, ChunkRowsOk;
    forall i | 0 <= i < |m.files| ensures m.files[i].inspectionRequired && m.files[i].chunks != [] { assert FileMatches(full, m.files[i]); }
  }

  /** Keying lists each target under its path and nothing else. */
  lemma KeyedPaths(targets: seq<Target>)
    requires forall i, j :: 0 <= i < j < |targets| ==> targets[i].chunk.path != targets[j].chunk.path
    ensures Keyed(targets).Some?
    ensures forall i :: 0 <= i < |targets| ==> targets[i].chunk.path in Keyed(targets).value
    ensures forall p :: p in Keyed(targets).value ==>
              Keyed(targets).value[p] in targets && Keyed(targets).value[p].chunk.path == p
  {
    hide Keyed;
    KeyedIsInventory(targets);
  }

  lemma TargetPaths(targets: seq<Target>, chunks: seq<ChunkRow>)
    requires MapEach(ChunkOf, targets) == chunks
    requires forall i, j :: 0 <= i < j < |targets| ==> targets[i].chunk.path != targets[j].chunk.path
    ensures ChunkPaths(chunks) == (set t | t in targets :: t.chunk.path) && DistinctPaths(chunks)
  {
    hide MapEach;
    forall i | 0 <= i < |targets| ensures targets[i].chunk == chunks[i] { assert ChunkOf(targets[i]) == chunks[i]; }
    forall p | p in ChunkPaths(chunks) ensures p in (set t | t in targets :: t.chunk.path) {
      var i :| 0 <= i < |chunks| && chunks[i].path == p;
      assert targets[i] in targets;
    }
    forall t | t in targets ensures t.chunk.path in ChunkPaths(chunks) {
      var i :| 0 <= i < |targets| && targets[i] == t;
      assert chunks[i] in chunks;
    }
  }

  lemma KeyedChunks(targets: seq<Target>, chunks: seq<ChunkRow>)
    requires MapEach(ChunkOf, targets) == chunks
    requires forall i, j :: 0 <= i < j < |targets| ==> targets[i].chunk.path != targets[j].chunk.path
    ensures Keyed(targets).Some? && Keyed(targets).value.Keys == ChunkPaths(chunks) && DistinctPaths(chunks)
    ensures forall p :: p in Keyed(targets).value ==> Keyed(targets).value[p] in targets
  {
    hide Keyed, MapEach, ChunkPaths, DistinctPaths;
    KeyedPaths(targets);
    TargetPaths(targets, chunks);
    forall t | t in targets ensures t.chunk.path in Keyed(targets).value {
      var i :| 0 <= i < |targets| && targets[i] == t;
    }
  }

  /** A cache ready for reading passes the replay's own validation against its manifest. */
  lemma PreparedIsProjected(c: Cache)
    requires Prepared(c)
    ensures ProjectedCacheOk(c, c.manifest)
  {
    hide AllTargets, AssignedChunks, ChunkPresent, ReadableText, CanonicalRelative, Keyed, DistinctPaths, ChunkPaths;
    AllTargeted(c.manifest);
    KeyedChunks(AllTargets(c.manifest), AssignedChunks(c.manifest));
  }

  // ---- The events ----

  function ReadText(t: Target): string { "head -n 100000000 " + t.chunk.path }

  function Wrapped(t: Target): string { WRAPPER + ReadText(t) + "'" }

  /** The shell splits the read of each assigned chunk into its four words, and its wrapped form into some. */
  predicate PlainShell(c: Cache) {
    forall t :: t in AllTargets(c.manifest) ==>
      && c.split(ReadText(t)) == Some(["head", "-n", "100000000", t.chunk.path])
      && '\'' !in t.chunk.path && c.split(Wrapped(t)).Some?
  }

  const KEYS := {"type", "thread_id", "item", "usage", "id", "command", "status", "exit_code", "aggregated_output", "text",
                 "input_tokens", "cached_input_tokens", "output_tokens", "reasoning_output_tokens"}

  /** Case folding leaves lower-case ASCII keys alone. */
  predicate PlainFold(x: Context) { forall k :: k in KEYS ==> x.fold(k) == k }

  function Call(i: nat): string { "call" + Decimal(i) }

  function ThreadEvent(thread: string): Object { map["type" := Str("thread.started"), "thread_id" := Str(thread)] }

  function TurnEvent(): Object { map["type" := Str("turn.started")] }

  function StartItem(i: nat, t: Target): Object {
    map["id" := Str(Call(i)), "type" := Str("command_execution"), "command" := Str(Wrapped(t))]
  }

  function StartEvent(i: nat, t: Target): Object { map["type" := Str("item.started"), "item" := Obj(StartItem(i, t))] }

  function DoneItem(i: nat, t: Target, output: string): Object {
    map["id" := Str(Call(i)), "type" := Str("command_execution"), "command" := Str(Wrapped(t)),
        "status" := Str("completed"), "exit_code" := Int(0), "aggregated_output" := Str(output)]
  }

  function DoneEvent(i: nat, t: Target, output: string): Object {
    map["type" := Str("item.completed"), "item" := Obj(DoneItem(i, t, output))]
  }

  function MessageItem(text: string): Object { map["type" := Str("agent_message"), "text" := Str(text)] }

  function MessageEvent(text: string): Object { map["type" := Str("item.completed"), "item" := Obj(MessageItem(text))] }

  function UsageObject(u: Usage): Object {
    map["input_tokens" := Int(u.input), "cached_input_tokens" := Int(u.cachedInput),
        "output_tokens" := Int(u.output), "reasoning_output_tokens" := Int(u.reasoningOutput)]
  }

  function UsageEvent(u: Usage): Object { map["type" := Str("turn.completed"), "usage" := Obj(UsageObject(u))] }

  // ---- No key mentions compaction ----

  lemma {:induction false} MentionHas(s: string)
    requires Mentions(s, "compact")
    ensures exists i :: 0 <= i < |s| - 3 && s[i] == 'c' && s[i + 3] == 'p'
  {
    if StartsWith(s, "compact") {
      assert s[..7][0] == 'c' && s[..7][3] == 'p';
      assert s[0] == 'c' && s[3] == 'p';
    } else {
      MentionHas(s[1..]);
      var i :| 0 <= i < |s[1..]| - 3 && s[1..][i] == 'c' && s[1..][i + 3] == 'p';
      assert s[i + 1] == 'c' && s[i + 4] == 'p';
    }
  }

  /** Three letters after each `c` there is no `p`. */
  predicate Plain(k: string) { forall i :: 0 <= i < |k| - 3 && k[i] == 'c' ==> k[i + 3] != 'p' }

  lemma PlainMentionsNothing(k: string)
    requires Plain(k)
    ensures !Mentions(k, "compact")
  {
    hide Mentions;
    if Mentions(k, "compact") { MentionHas(k); }
  }

  lemma PlainKeys()
    ensures Plain("type") && Plain("thread_id") && Plain("item") && Plain("usage") && Plain("id") && Plain("command")
    ensures Plain("status") && Plain("exit_code") && Plain("text")
  {
  }

  lemma PlainUsageKeys()
    ensures Plain("aggregated_output")
    ensures Plain("input_tokens") && Plain("cached_input_tokens") && Plain("output_tokens") && Plain("reasoning_output_tokens")
  {
  }

  lemma KeyIsPlain(k: string)
    requires k in KEYS
    ensures !Mentions(k, "compact")
  {
    hide Mentions, Plain;
    PlainKeys();
    PlainUsageKeys();
    PlainMentionsNothing(k);
  }

  lemma FlatIsPlain(x: Context, o: Object)
    requires PlainFold(x) && o.Keys <= KEYS && forall k :: k in o ==> o[k].Str? || o[k].Int?
    ensures NoCompaction(Obj(o), x.fold)
  {
    hide Mentions;
    forall k | k in o ensures !Mentions(x.fold(k), "compact") && NoCompaction(o[k], x.fold) { KeyIsPlain(k); }
  }

  lemma NestedIsPlain(x: Context, o: Object, key: string)
    requires PlainFold(x) && o.Keys <= KEYS && key in o && forall k :: k in o && k != key ==> o[k].Str?
    requires NoCompaction(o[key], x.fold)
    ensures NoCompaction(Obj(o), x.fold)
  {
    hide Mentions;
    forall k | k in o ensures !Mentions(x.fold(k), "compact") && NoCompaction(o[k], x.fold) { KeyIsPlain(k); }
  }

  // ---- What each event means ----

  lemma ThreadParses(x: Context, thread: string)
    requires PlainFold(x) && IsToken(thread)
    ensures Parse(x, ThreadEvent(thread)) == Some(Step(Some(thread), None, ThreadStarted(thread)))
  {
    hide NoCompaction;
    FlatIsPlain(x, ThreadEvent(thread));
  }

  lemma TurnParses(x: Context)
    requires PlainFold(x)
    ensures Parse(x, TurnEvent()) == Some(Step(None, None, TurnStarted))
  {
    hide NoCompaction;
    FlatIsPlain(x, TurnEvent());
  }

  lemma UsageParses(x: Context, u: Usage)
    requires PlainFold(x) && u.cachedInput <= u.input && u.reasoningOutput <= u.output
    ensures Parse(x, UsageEvent(u)) == Some(Step(None, None, TurnCompleted(u)))
  {
    hide NoCompaction;
    FlatIsPlain(x, UsageObject(u));
    NestedIsPlain(x, UsageEvent(u), "usage");
  }

  lemma MessageParses(x: Context, text: string)
    requires PlainFold(x) && text != "" && StripText(text) == text
    ensures Parse(x, MessageEvent(text)) == Some(Step(None, None, FinalMessage(text)))
  {
    hide NoCompaction, StripText;
    FlatIsPlain(x, MessageItem(text));
    NestedIsPlain(x, MessageEvent(text), "item");
    assert ContentText(Obj(MessageItem(text))) == Some(text);
  }

  lemma StartParses(x: Context, i: nat, t: Target)
    requires PlainFold(x) && PlainShell(x.cache) && t in AllTargets(x.cache.manifest) && IsCallId(Call(i))
    ensures Parse(x, StartEvent(i, t)) == Some(Step(None, None, CommandStarted(Call(i), Wrapped(t))))
  {
    hide NoCompaction, IsCallId, AllTargets, Wrapped, Call;
    FlatIsPlain(x, StartItem(i, t));
    NestedIsPlain(x, StartEvent(i, t), "item");
    CallNotEmpty(i);
  }

  lemma CallNotEmpty(i: nat)
    ensures Call(i) != ""
  {
  }

  /** The read, wrapped for the shell, unwraps to itself. */
  lemma ReadUnwraps(c: Cache, t: Target)
    requires PlainShell(c) && t in AllTargets(c.manifest)
    ensures Unwrap(Wrapped(t), c.split) == Some(ReadText(t))
  {
    hide Unwrap, AllTargets;
    assert '\'' !in ReadText(t) by { assert '\'' !in "head -n 100000000 "; }
    WrapUnwrap(ReadText(t), Wrapped(t), c.split);
  }

  /** The read of an assigned chunk must show its text and is one read of that chunk. */
  lemma ReadExpected(c: Cache, t: Target)
    requires Prepared(c) && PlainShell(c) && t in AllTargets(c.manifest)
    ensures Expected(c, ReadText(t)).Some?
    ensures Expected(c, ReadText(t)).value.output == TextOf(c, t)
    ensures Expected(c, ReadText(t)).value.operations == [ReadOperation(t, c.manifest.chunkContract)]
  {
    hide Expected, AllTargets, WellFormed, Decode, LineCount, CanonicalRelative, Normalise, Distinguishable;
    CanonicalIsFixedPoint(t.chunk.path);
    PrescribedCount();
    PrescribedReadAccepted(c, ReadText(t), t.chunk.path, t);
    HeadExactly(c, ReadText(t), "100000000", t.chunk.path, t);
  }

  lemma ReadPerforms(c: Cache, t: Target)
    requires Prepared(c) && PlainShell(c) && t in AllTargets(c.manifest)
    ensures CommandOperations(c, Wrapped(t), TextOf(c, t)) == Some([ReadOperation(t, c.manifest.chunkContract)])
  {
    hide Expected, AllTargets, Unwrap, CommandOperations, Wrapped, ReadText, TextOf, PlainShell;
    hide ReadableText, ChunkPresent, CanonicalRelative, Distinguishable;
    ReadUnwraps(c, t);
    ReadExpected(c, t);
    AcceptedOutputs(c, Wrapped(t), TextOf(c, t));
  }

  lemma DoneParses(x: Context, i: nat, t: Target)
    requires PlainFold(x) && Prepared(x.cache) && PlainShell(x.cache) && t in AllTargets(x.cache.manifest) && IsCallId(Call(i))
    ensures var text := TextOf(x.cache, t);
      Parse(x, DoneEvent(i, t, text)) ==
        Some(Step(None, None, CommandCompleted(Call(i), Wrapped(t), text, [ReadOperation(t, x.cache.manifest.chunkContract)])))
  {
    hide NoCompaction, IsCallId, AllTargets, Wrapped, Call, CommandOperations, TextOf, PlainShell;
    hide ReadableText, ChunkPresent, CanonicalRelative, Distinguishable;
    var text := TextOf(x.cache, t);
    FlatIsPlain(x, DoneItem(i, t, text));
    NestedIsPlain(x, DoneEvent(i, t, text), "item");
    CallNotEmpty(i);
    ReadPerforms(x.cache, t);
    DoneItemParses(x, i, t, text);
  }

  lemma DoneItemParses(x: Context, i: nat, t: Target, text: string)
    requires IsCallId(Call(i)) && Call(i) != "" && CommandOperations(x.cache, Wrapped(t), text).Some?
    ensures ParseItem(x, DoneItem(i, t, text), false) ==
              Some(CommandCompleted(Call(i), Wrapped(t), text, CommandOperations(x.cache, Wrapped(t), text).value))
  {
    hide IsCallId, Wrapped, Call, CommandOperations;
  }

  // ---- Call IDs ----

  lemma {:induction false} DecimalLength(a: nat, b: nat)
    requires a <= b
    ensures 1 <= |Decimal(a)| <= |Decimal(b)|
  {
    if b >= 10 { DecimalLength(a / 10, b / 10); }
  }

  lemma CallsAreIds(i: nat)
    requires |Decimal(i)| <= 124
    ensures IsCallId(Call(i))
  {
    DecimalValue(i);
    DecimalLength(0, i);
  }

  lemma CallsDiffer(i: nat, j: nat)
    requires Call(i) == Call(j)
    ensures i == j
  {
    assert Call(i)[4..] == Decimal(i) && Call(j)[4..] == Decimal(j);
    DecimalValue(i);
    DecimalValue(j);
  }

  // ---- The stream ----

  /** A start and a completion for the read of each target, in the given order. */
  function Reads(c: Cache, order: seq<Target>): seq<Object>
    requires forall t :: t in order ==> ReadableText(c, t)
  {
    if order == [] then []
    else
      var n := |order| - 1;
      Reads(c, order[..n]) + [StartEvent(n, order[n]), DoneEvent(n, order[n], TextOf(c, order[n]))]
  }

  function Opening(thread: string): seq<Object> { [ThreadEvent(thread), TurnEvent()] }

  function Canonical(c: Cache, order: seq<Target>, thread: string, text: string, usage: Usage): seq<Object>
    requires forall t :: t in order ==> ReadableText(c, t)
  {
    Opening(thread) + Reads(c, order) + [MessageEvent(text), UsageEvent(usage)]
  }

  function Calls(order: seq<Target>): map<string, string> {
    if order == [] then map[] else Calls(order[..|order| - 1])[Call(|order| - 1) := Wrapped(order[|order| - 1])]
  }

  lemma {:induction false} CallsListed(order: seq<Target>, id: string)
    requires id in Calls(order)
    ensures exists i :: 0 <= i < |order| && id == Call(i)
  {
    hide Call;
    if order != [] && id != Call(|order| - 1) { CallsListed(order[..|order| - 1], id); }
  }

  lemma CallIsFresh(order: seq<Target>)
    ensures Call(|order|) !in Calls(order)
  {
    hide Call, Calls;
    if Call(|order|) in Calls(order) {
      CallsListed(order, Call(|order|));
      var i :| 0 <= i < |order| && Call(|order|) == Call(i);
      CallsDiffer(|order|, i);
    }
  }

  function ReadOf(contract: string): Target -> Operation { t => ReadOperation(t, contract) }

  /** The state after the reads of `order`. */
  function After(thread: string, order: seq<Target>, contract: string): State {
    INITIAL.(threadIds := [thread], referenced := {thread}, started := Calls(order), completed := Calls(order).Keys,
             operations := MapEach(ReadOf(contract), order), turnStarted := 1)
  }

  lemma OpeningRuns(x: Context, thread: string)
    requires PlainFold(x) && IsToken(thread)
    ensures RunEvents(x, Opening(thread)) == Some(After(thread, [], x.cache.manifest.chunkContract))
  {
    hide RunEvents, Parse, ThreadEvent, TurnEvent, PlainFold, IsToken;
    NothingRun(x);
    RunSnoc(x, [], ThreadEvent(thread));
    RunSnoc(x, [ThreadEvent(thread)], TurnEvent());
    assert [] + [ThreadEvent(thread)] == [ThreadEvent(thread)];
    assert [ThreadEvent(thread)] + [TurnEvent()] == Opening(thread);
    ThreadParses(x, thread);
    TurnParses(x);
    assert [] + [thread] == [thread] && {} + {thread} == {thread};
    assert After(thread, [], x.cache.manifest.chunkContract).completed == {};
  }

  /** One more read from the state after the reads before it. */
  lemma ReadRuns(x: Context, thread: string, order: seq<Target>, t: Target, index: nat)
    requires PlainFold(x) && Prepared(x.cache) && PlainShell(x.cache) && t in AllTargets(x.cache.manifest) && IsCallId(Call(|order|))
    ensures var contract, n := x.cache.manifest.chunkContract, |order|;
      var s := Consumed(x, After(thread, order, contract), StartEvent(n, t), index);
      s.Some? && Consumed(x, s.value, DoneEvent(n, t, TextOf(x.cache, t)), index + 1) == Some(After(thread, order + [t], contract))
  {
    hide Parse, StartEvent, DoneEvent, PlainFold, IsCallId, AllTargets, PlainShell, Call, Wrapped, TextOf, MapEach, ReadOperation;
    hide ReadableText, ChunkPresent, CanonicalRelative, Distinguishable;
    StartParses(x, |order|, t);
    DoneParses(x, |order|, t);
    CallIsFresh(order);
    AfterSnoc(thread, order, t, x.cache.manifest.chunkContract);
  }

  lemma AfterSnoc(thread: string, order: seq<Target>, t: Target, contract: string)
    ensures After(thread, order + [t], contract) ==
              var s := After(thread, order, contract);
              s.(started := s.started[Call(|order|) := Wrapped(t)], completed := s.completed + {Call(|order|)},
                 operations := s.operations + [ReadOperation(t, contract)])
  {
    hide Call, Wrapped, ReadOperation;
    assert (order + [t])[..|order|] == order;
    MapEachConcat(ReadOf(contract), order, [t]);
  }

  lemma {:induction false} ReadsRun(x: Context, thread: string, order: seq<Target>)
    requires PlainFold(x) && IsToken(thread) && Prepared(x.cache) && PlainShell(x.cache)
    requires |Decimal(|order|)| <= 124 && forall t :: t in order ==> t in AllTargets(x.cache.manifest)
    ensures RunEvents(x, Opening(thread) + Reads(x.cache, order)) == Some(After(thread, order, x.cache.manifest.chunkContract))
  {
    hide RunEvents, Consumed, PlainFold, IsToken, PlainShell, AllTargets, After, Call, Opening, StartEvent, DoneEvent, TextOf;
    hide ReadableText, ChunkPresent, CanonicalRelative, Distinguishable, Decimal;
    if order == [] {
      assert Opening(thread) + Reads(x.cache, order) == Opening(thread);
      OpeningRuns(x, thread);
    } else {
      var n := |order| - 1;
      var front, t := order[..n], order[n];
      DecimalLength(n, |order|);
      ReadsRun(x, thread, front);
      CallsAreIds(n);
      var before := Opening(thread) + Reads(x.cache, front);
      var start, done := StartEvent(n, t), DoneEvent(n, t, TextOf(x.cache, t));
      ReadRuns(x, thread, front, t, |before| + 1);
      RunSnoc(x, before, start);
      RunSnoc(x, before + [start], done);
      assert before + [start] + [done] == Opening(thread) + Reads(x.cache, order);
      assert front + [t] == order;
    }
  }

  /** The state after the whole stream. */
  function Finished(thread: string, order: seq<Target>, contract: string, text: string, usage: Usage): State {
    After(thread, order, contract).(messages := [text], finalMessageSeen := true, turnCompleted := 1, usage := Some(usage))
  }

  /** What the final text, the thread and the usage must be. */
  predicate Concludes(x: Context, thread: string, text: string, usage: Usage) {
    && IsToken(thread) && text != "" && StripText(text) == text && x.judge(text).Some?
    && usage.cachedInput <= usage.input && usage.reasoningOutput <= usage.output
  }

  lemma ClosingRuns(x: Context, s: State, text: string, usage: Usage, index: nat)
    requires PlainFold(x) && text != "" && StripText(text) == text
    requires usage.cachedInput <= usage.input && usage.reasoningOutput <= usage.output
    requires !s.finalMessageSeen && s.usage == None && s.messages == [] && s.turnCompleted == 0
    ensures var t := Consumed(x, s, MessageEvent(text), index);
      t.Some? && Consumed(x, t.value, UsageEvent(usage), index + 1)
        == Some(s.(messages := [text], finalMessageSeen := true, turnCompleted := 1, usage := Some(usage)))
  {
    hide Parse, MessageEvent, UsageEvent, PlainFold, StripText;
    MessageParses(x, text);
    UsageParses(x, usage);
    assert s.messages + [text] == [text];
  }

  lemma CanonicalRuns(x: Context, thread: string, order: seq<Target>, text: string, usage: Usage)
    requires PlainFold(x) && Prepared(x.cache) && PlainShell(x.cache) && Concludes(x, thread, text, usage)
    requires |Decimal(|order|)| <= 124 && forall t :: t in order ==> t in AllTargets(x.cache.manifest)
    ensures RunEvents(x, Canonical(x.cache, order, thread, text, usage))
              == Some(Finished(thread, order, x.cache.manifest.chunkContract, text, usage))
  {
    hide RunEvents, Consumed, PlainFold, IsToken, PlainShell, AllTargets, Opening, StripText, MessageEvent, UsageEvent;
    hide ReadableText, ChunkPresent, CanonicalRelative, Distinguishable, Decimal, Reads, Calls;
    ReadsRun(x, thread, order);
    var before := Opening(thread) + Reads(x.cache, order);
    var s := After(thread, order, x.cache.manifest.chunkContract);
    ClosingRuns(x, s, text, usage, |before| + 1);
    RunSnoc(x, before, MessageEvent(text));
    RunSnoc(x, before + [MessageEvent(text)], UsageEvent(usage));
    assert before + [MessageEvent(text)] + [UsageEvent(usage)] == Canonical(x.cache, order, thread, text, usage);
  }

  // ---- Every assigned chunk once ----

  function SourcePathOf(t: Target): seq<string> { if t.SourceChunk? then [t.chunk.path] else [] }

  function CitationPathOf(t: Target): seq<string> { if t.CitationChunk? then [t.chunk.path] else [] }

  lemma {:induction false} FlatMapRemove<S, T>(f: S -> seq<T>, s: seq<S>, k: nat)
    requires k < |s|
    ensures multiset(FlatMap(f, s)) == multiset(FlatMap(f, s[..k] + s[k + 1..])) + multiset(f(s[k]))
  {
    hide FlatMap;
    FlatMapConcat(f, s[..k], s[k + 1..]);
    FlatMapConcat(f, s[..k], s[k..]);
    FlatMapCons(f, s[k], s[k + 1..]);
    assert s == s[..k] + s[k..] && s[k..] == [s[k]] + s[k + 1..];
  }

  lemma {:induction false} FlatMapPermutes<S, T>(f: S -> seq<T>, a: seq<S>, b: seq<S>)
    requires multiset(a) == multiset(b)
    ensures multiset(FlatMap(f, a)) == multiset(FlatMap(f, b))
  {
    if a == [] {
      assert |b| == |multiset(b)| == 0;
    } else {
      var k := TakeFirst(a, b);
      FlatMapPermutes(f, a[1..], b[..k] + b[k + 1..]);
      FlatMapRemove(f, b, k);
    }
  }

  lemma {:induction false} ReadPaths(contract: string, order: seq<Target>)
    ensures FlatMap(SourceRead, MapEach(ReadOf(contract), order)) == FlatMap(SourcePathOf, order)
    ensures FlatMap(CitationRead, MapEach(ReadOf(contract), order)) == FlatMap(CitationPathOf, order)
  {
    if order != [] {
      ReadPaths(contract, order[1..]);
      var rest := MapEach(ReadOf(contract), order[1..]);
      assert MapEach(ReadOf(contract), order) == [ReadOperation(order[0], contract)] + rest;
      FlatMapCons(SourceRead, ReadOperation(order[0], contract), rest);
      FlatMapCons(CitationRead, ReadOperation(order[0], contract), rest);
    }
  }

  lemma {:induction false} ChunkSources(f: ShardFile, chunks: seq<ChunkRow>)
    ensures var targets := MapEach((c: ChunkRow) => SourceChunk(f, c), chunks);
      FlatMap(SourcePathOf, targets) == ChunkPathList(chunks) && FlatMap(CitationPathOf, targets) == []
  {
    if chunks != [] {
      ChunkSources(f, chunks[1..]);
      var rest := MapEach((c: ChunkRow) => SourceChunk(f, c), chunks[1..]);
      FlatMapCons(SourcePathOf, SourceChunk(f, chunks[0]), rest);
      FlatMapCons(CitationPathOf, SourceChunk(f, chunks[0]), rest);
    }
  }

  lemma {:induction false} ChunkCitations(e: ShardCitation, chunks: seq<ChunkRow>)
    ensures var targets := MapEach((c: ChunkRow) => CitationChunk(e, c), chunks);
      FlatMap(CitationPathOf, targets) == ChunkPathList(chunks) && FlatMap(SourcePathOf, targets) == []
  {
    if chunks != [] {
      ChunkCitations(e, chunks[1..]);
      var rest := MapEach((c: ChunkRow) => CitationChunk(e, c), chunks[1..]);
      FlatMapCons(SourcePathOf, CitationChunk(e, chunks[0]), rest);
      FlatMapCons(CitationPathOf, CitationChunk(e, chunks[0]), rest);
    }
  }

  lemma {:induction false} FilePaths(files: seq<ShardFile>)
    requires forall i :: 0 <= i < |files| ==> files[i].inspectionRequired
    ensures FlatMap(SourcePathOf, FlatMap(FileTargets, files)) == ChunkPathList(FlatMap(FileChunks, files))
    ensures FlatMap(CitationPathOf, FlatMap(FileTargets, files)) == []
  {
    hide MapEach;
    if files == [] {
      assert ChunkPathList([]) == [];
    } else {
      FilePaths(files[1..]);
      ChunkSources(files[0], files[0].chunks);
      FlatMapConcat(SourcePathOf, FileTargets(files[0]), FlatMap(FileTargets, files[1..]));
      FlatMapConcat(CitationPathOf, FileTargets(files[0]), FlatMap(FileTargets, files[1..]));
      PathListConcat(files[0].chunks, FlatMap(FileChunks, files[1..]));
    }
  }

  lemma {:induction false} CitationPaths(cs: seq<ShardCitation>)
    ensures FlatMap(CitationPathOf, FlatMap(CitationTargets, cs)) == ChunkPathList(FlatMap(CitationChunks, cs))
    ensures FlatMap(SourcePathOf, FlatMap(CitationTargets, cs)) == []
  {
    hide MapEach;
    if cs == [] {
      assert ChunkPathList([]) == [];
    } else {
      CitationPaths(cs[1..]);
      ChunkCitations(cs[0], cs[0].chunks);
      FlatMapConcat(SourcePathOf, CitationTargets(cs[0]), FlatMap(CitationTargets, cs[1..]));
      FlatMapConcat(CitationPathOf, CitationTargets(cs[0]), FlatMap(CitationTargets, cs[1..]));
      PathListConcat(cs[0].chunks, FlatMap(CitationChunks, cs[1..]));
    }
  }

  lemma PathListConcat(a: seq<ChunkRow>, b: seq<ChunkRow>)
    ensures ChunkPathList(a + b) == ChunkPathList(a) + ChunkPathList(b)
  {
    hide MapEach;
    MapEachConcat((c: ChunkRow) => c.path, a, b);
  }

  lemma TargetReads(m: ShardManifest)
    requires forall i :: 0 <= i < |m.files| ==> m.files[i].inspectionRequired
    ensures FlatMap(SourcePathOf, AllTargets(m)) == AssignedSources(m)
    ensures FlatMap(CitationPathOf, AllTargets(m)) == AssignedCitations(m)
  {
    hide FlatMap, ChunkPathList;
    var a, b := FlatMap(FileTargets, m.files), FlatMap(CitationTargets, m.citations);
    FilePaths(m.files);
    CitationPaths(m.citations);
    FlatMapConcat(SourcePathOf, a, b);
    FlatMapConcat(CitationPathOf, a, b);
  }

  /** Reading the assigned chunks in any order reads each once. */
  lemma OrderReadsOnce(m: ShardManifest, order: seq<Target>)
    requires multiset(order) == multiset(AllTargets(m))
    requires forall i :: 0 <= i < |m.files| ==> m.files[i].inspectionRequired
    ensures EachReadOnce(MapEach(ReadOf(m.chunkContract), order), m)
  {
    hide FlatMap, AllTargets, AssignedSources, AssignedCitations, MapEach;
    ReadPaths(m.chunkContract, order);
    FlatMapPermutes(SourcePathOf, order, AllTargets(m));
    FlatMapPermutes(CitationPathOf, order, AllTargets(m));
    TargetReads(m);
  }

  // ---- Acceptance ----

  lemma OrderIsAssigned(order: seq<Target>, targets: seq<Target>)
    requires multiset(order) == multiset(targets)
    ensures forall t :: t in order ==> t in targets
  {
    forall t | t in order ensures t in targets { assert t in multiset(order); }
  }

  lemma CanonicalIsOrdered(c: Cache, order: seq<Target>, thread: string, text: string, usage: Usage)
    requires forall t :: t in order ==> ReadableText(c, t)
    ensures OrderedLifecycle(Canonical(c, order, thread, text, usage))
  {
    hide ReadableText, Reads;
    var events := Canonical(c, order, thread, text, usage);
    assert events[0] == ThreadEvent(thread) && events[1] == TurnEvent() && events[|events| - 1] == UsageEvent(usage);
  }

  lemma FinishedSettles(thread: string, order: seq<Target>, contract: string, text: string, usage: Usage)
    ensures Settled(Finished(thread, order, contract, text, usage))
  {
    hide Calls, MapEach;
  }

  /** Over a cache ready for reading, the canonical stream in any order of the assigned chunks is accepted. */
  lemma CanonicalAccepted(x: Context, order: seq<Target>, thread: string, text: string, usage: Usage)
    requires PlainFold(x) && Prepared(x.cache) && PlainShell(x.cache) && Concludes(x, thread, text, usage)
    requires multiset(order) == multiset(AllTargets(x.cache.manifest)) && |Decimal(|order|)| <= 124
    ensures forall t :: t in order ==> ReadableText(x.cache, t)
    ensures Replayed(x, x.cache.manifest, Canonical(x.cache, order, thread, text, usage)).Some?
  {
    hide RunEvents, OrderedLifecycle, ProjectedCacheOk, Settled, EachReadOnce, PlainFold, PlainShell, AllTargets, Canonical, MapEach;
    hide ReadableText, ChunkPresent, CanonicalRelative, Distinguishable, Decimal, Calls, IsToken, StripText, Entries, Numbered, Replayed;
    var m := x.cache.manifest;
    OrderIsAssigned(order, AllTargets(m));
    PreparedIsProjected(x.cache);
    CanonicalIsOrdered(x.cache, order, thread, text, usage);
    CanonicalRuns(x, thread, order, text, usage);
    FinishedSettles(thread, order, m.chunkContract, text, usage);
    OrderReadsOnce(m, order);
    ReplayedByEvents(x, m, Canonical(x.cache, order, thread, text, usage));
  }

  /** Over a valid shard cache, whatever order the reviewing model reads its assigned chunks in, its stream is accepted. */
  lemma CanonicalStreamAccepted(
      x: Context, source: Tree, full: FullManifest, fullCodec: Codec<FullManifest>, codec: Codec<ShardManifest>,
      budget: string, digest: seq<ShardCitation> -> string, order: seq<Target>, thread: string, text: string, usage: Usage)
    requires FullValid(source, full, fullCodec, x.cache.sha) && ShardManifestOk(full, x.cache.manifest, budget, digest)
    requires ShardCacheOk(x.cache.tree, source.files, x.cache.manifest, codec, x.cache.sha)
    requires PlainFold(x) && PlainShell(x.cache) && Concludes(x, thread, text, usage)
    requires multiset(order) == multiset(AllTargets(x.cache.manifest)) && |Decimal(|order|)| <= 124
    ensures forall t :: t in order ==> ReadableText(x.cache, t)
    ensures Replayed(x, x.cache.manifest, Canonical(x.cache, order, thread, text, usage)).Some?
  {
    hide FullValid, ShardManifestOk, ShardCacheOk, PlainFold, PlainShell, Concludes, AllTargets, Decimal, Prepared, Replayed, Canonical, ReadableText;
    ValidCacheIsPrepared(x.cache, source, full, fullCodec, codec, budget, digest);
    CanonicalAccepted(x, order, thread, text, usage);
  }
}

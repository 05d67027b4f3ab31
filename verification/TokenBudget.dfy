/** The visible-input budget of one shard, and why what was budgeted is what was shown. */
module TokenBudget {
  import opened Sequences
  import opened Sorting
  import opened Utf8
  import opened CacheModel
  import opened FullCache
  import opened Surface
  import opened Json
  import opened Projection
  import opened Commands
  import opened CommandLaws
  import opened Replay
  import opened Sanitize

  const CONTEXT_WINDOW := 372000
  const MAX_VISIBLE_INPUT := 250000
  const MIN_CONTEXT_RESERVE := 122000
  const TOOL_EVENT_OVERHEAD := 192
  const RUNTIME_ENVELOPE_ALLOWANCE := 32000

  // ---- The material of a shard ----

  datatype Material = Material(paths: seq<string>, commands: seq<string>, payloads: seq<Bytes>)

  const HEAD := "head -n 100000000 "

  function TargetPath(t: Target): string { t.chunk.path }

  function ReadCommand(c: Cache, path: string): Option<string> { Wrap(HEAD + path, c.split) }

  /** The bytes of an assigned chunk, if they still match its row and are text. */
  function FreshPayload(c: Cache, targets: map<string, Target>, path: string): Option<Bytes> {
    if path in targets && ChunkPresent(c, targets[path].chunk) && WellFormed(c.tree.files[targets[path].chunk.path])
    then Some(c.tree.files[targets[path].chunk.path])
    else None
  }

  /** `assigned_chunk_material`: one command and one payload a chunk, by sorted path. */
  function MaterialOf(c: Cache): Option<Material> {
    match Keyed(AllTargets(c.manifest))
    case None => None
    case Some(targets) =>
      if targets == map[] then None
      else
        var paths := SortStrings(MapEach(TargetPath, AllTargets(c.manifest)));
        var commands := Collect((p: string) => ReadCommand(c, p), paths);
        var payloads := Collect((p: string) => FreshPayload(c, targets, p), paths);
        if commands == None || payloads == None then None else Some(Material(paths, commands.value, payloads.value))
  }

  /** The commands first, then the payloads, each loop stopping at the first bad path. */
  method AssignedChunkMaterial(c: Cache) returns (r: Option<Material>)
    ensures r == MaterialOf(c)
  {
    hide Keyed, AllTargets, ReadCommand, FreshPayload, SortStrings;
    var targets := CacheTargets(c.manifest);
    if targets == None || targets.value == map[] { return None; }
    var paths := SortStrings(MapEach(TargetPath, AllTargets(c.manifest)));
    var commands: seq<string> := [];
    var i := 0;
    while i < |paths|
      invariant 0 <= i <= |paths| && |commands| == i
      invariant forall k :: 0 <= k < i ==> ReadCommand(c, paths[k]) == Some(commands[k])
    {
      var command := ReadCommand(c, paths[i]);
      if command == None { return None; }
      commands := commands + [command.value];
      i := i + 1;
    }
    CollectIs((p: string) => ReadCommand(c, p), paths, commands);
    var payloads: seq<Bytes> := [];
    i := 0;
    while i < |paths|
      invariant 0 <= i <= |paths| && |payloads| == i
      invariant forall k :: 0 <= k < i ==> FreshPayload(c, targets.value, paths[k]) == Some(payloads[k])
    {
      var payload := FreshPayload(c, targets.value, paths[i]);
      if payload == None { return None; }
      payloads := payloads + [payload.value];
      i := i + 1;
    }
    CollectIs((p: string) => FreshPayload(c, targets.value, p), paths, payloads);
    return Some(Material(paths, commands, payloads));
  }

  // ---- Sums ----

  function Sum<T>(cost: T -> nat, s: seq<T>): nat {
    if s == [] then 0 else cost(s[0]) + Sum(cost, s[1..])
  }

  lemma {:induction false} SumConcat<T>(cost: T -> nat, a: seq<T>, b: seq<T>)
    ensures Sum(cost, a + b) == Sum(cost, a) + Sum(cost, b)
  {
    if a == [] {
      assert a + b == b;
    } else {
      SumConcat(cost, a[1..], b);
      assert (a + b)[1..] == a[1..] + b;
    }
  }

  lemma SumRemove<T>(cost: T -> nat, s: seq<T>, k: nat)
    requires k < |s|
    ensures Sum(cost, s) == Sum(cost, s[..k] + s[k + 1..]) + cost(s[k])
  {
    SumConcat(cost, s[..k], s[k..]);
    SumConcat(cost, s[..k], s[k + 1..]);
    assert s == s[..k] + s[k..];
  }

  lemma {:induction false} SumPermutes<T>(cost: T -> nat, a: seq<T>, b: seq<T>)
    requires multiset(a) == multiset(b)
    ensures Sum(cost, a) == Sum(cost, b)
  {
    if a == [] {
      assert |b| == |multiset(b)| == 0;
    } else {
      var k := TakeFirst(a, b);
      SumPermutes(cost, a[1..], b[..k] + b[k + 1..]);
      SumRemove(cost, b, k);
    }
  }

  lemma {:induction false} SumAgrees<S, T>(f: S -> nat, a: seq<S>, g: T -> nat, b: seq<T>)
    requires |a| == |b| && forall i :: 0 <= i < |a| ==> f(a[i]) == g(b[i])
    ensures Sum(f, a) == Sum(g, b)
  {
    if a != [] { SumAgrees(f, a[1..], g, b[1..]); }
  }

  // ---- The budget ----

  datatype Budget = Budget(
    promptTokens: nat, chunkTokens: nat, commandTokens: nat, eventCount: nat,
    eventOverhead: nat, runtimeAllowance: nat, visible: nat, reserve: int)

  function TokensIn(tokens: string -> nat, b: Bytes): nat {
    if WellFormed(b) then tokens(Decode(b)) else 0
  }

  function TextTokens(tokens: string -> nat): Bytes -> nat { (b: Bytes) => TokensIn(tokens, b) }

  /** Every token a shard is charged for. */
  function Charged(prompt: Bytes, chunks: seq<Bytes>, commands: seq<string>, tokens: string -> nat): nat
    requires WellFormed(prompt)
  {
    tokens(Decode(prompt)) + Sum(TextTokens(tokens), chunks) + Sum(tokens, commands)
    + TOOL_EVENT_OVERHEAD * |commands| + RUNTIME_ENVELOPE_ALLOWANCE
  }

  /** `within_budget` */
  predicate WithinBudget(b: Budget) { b.visible <= MAX_VISIBLE_INPUT && b.reserve >= MIN_CONTEXT_RESERVE }

  /** `calculate_token_budget` followed by its ceiling. */
  method EnforceTokenBudget(prompt: Bytes, chunks: seq<Bytes>, commands: seq<string>, tokens: string -> nat)
    returns (r: Option<Budget>)
    ensures r.Some? ==>
      && |chunks| == |commands| && WellFormed(prompt)
      && r.value.promptTokens == tokens(Decode(prompt))
      && r.value.chunkTokens == Sum(TextTokens(tokens), chunks) && r.value.commandTokens == Sum(tokens, commands)
      && r.value.eventCount == |commands| && r.value.eventOverhead == 192 * |commands| && r.value.runtimeAllowance == 32000
      && r.value.visible == r.value.promptTokens + r.value.chunkTokens + r.value.commandTokens + 192 * |commands| + 32000 <= 250000
      && r.value.reserve == 372000 - r.value.visible >= 122000
    ensures r.Some? <==>
      && |chunks| == |commands| && WellFormed(prompt) && (forall i :: 0 <= i < |chunks| ==> WellFormed(chunks[i]))
      && (forall i :: 0 <= i < |commands| ==> commands[i] != "")
      && tokens(Decode(prompt)) + Sum(TextTokens(tokens), chunks) + Sum(tokens, commands) + 192 * |commands| + 32000 <= 250000
  {
    hide WellFormed, Decode;
    if |chunks| != |commands| || !WellFormed(prompt) { return None; }
    var promptTokens := tokens(Decode(prompt));
    var chunkTokens: nat := 0;
    var i := 0;
    while i < |chunks|
      invariant 0 <= i <= |chunks|
      invariant chunkTokens == Sum(TextTokens(tokens), chunks[..i])
      invariant forall k :: 0 <= k < i ==> WellFormed(chunks[k])
    {
      if !WellFormed(chunks[i]) { return None; }
      SumSnoc(TextTokens(tokens), chunks, i);
      chunkTokens := chunkTokens + tokens(Decode(chunks[i]));
      i := i + 1;
    }
    assert chunks[..i] == chunks;
    var commandTokens: nat := 0;
    i := 0;
    while i < |commands|
      invariant 0 <= i <= |commands|
      invariant commandTokens == Sum(tokens, commands[..i])
      invariant forall k :: 0 <= k < i ==> commands[k] != ""
    {
      if commands[i] == "" { return None; }
      SumSnoc(tokens, commands, i);
      commandTokens := commandTokens + tokens(commands[i]);
      i := i + 1;
    }
    assert commands[..i] == commands;
    var overhead := |commands| * TOOL_EVENT_OVERHEAD;
    var visible := promptTokens + chunkTokens + commandTokens + overhead + RUNTIME_ENVELOPE_ALLOWANCE;
    var budget := Budget(promptTokens, chunkTokens, commandTokens, |commands|, overhead,
                         RUNTIME_ENVELOPE_ALLOWANCE, visible, CONTEXT_WINDOW - visible);
    if !WithinBudget(budget) { return None; }
    return Some(budget);
  }

  lemma SumSnoc<T>(cost: T -> nat, s: seq<T>, i: nat)
    requires i < |s|
    ensures Sum(cost, s[..i + 1]) == Sum(cost, s[..i]) + cost(s[i])
  {
    assert s[..i + 1] == s[..i] + [s[i]];
    SumConcat(cost, s[..i], [s[i]]);
    assert [s[i]][1..] == [];
  }

  // ---- The commands the stream completed ----

  function CompletedCommands(events: seq<Object>): seq<Object> { Filter(CompletedCommand, events) }

  predicate LiteralCommand(e: Object) {
    CompletedCommand(e) && Get(e["item"].fields, "command").Str?
  }

  function CommandOf(e: Object): string {
    if LiteralCommand(e) then e["item"].fields["command"].s else ""
  }

  function OutputOf(e: Object): string {
    if CompletedCommand(e) && CommandOutput(e["item"].fields).Some? then CommandOutput(e["item"].fields).value else ""
  }

  function Listed(completed: seq<Object>): Option<seq<string>> {
    if exists i :: 0 <= i < |completed| && !LiteralCommand(completed[i]) then None
    else Some(MapEach(CommandOf, completed))
  }

  /** `_completed_command_inventory` */
  function Observed(events: seq<Object>): Option<seq<string>> { Listed(CompletedCommands(events)) }

  method CompletedCommandInventory(events: seq<Object>) returns (r: Option<seq<string>>)
    ensures r == Observed(events)
  {
    var commands: seq<string> := [];
    var i := 0;
    while i < |events|
      invariant 0 <= i <= |events|
      invariant Observed(events[..i]) == Some(commands)
    {
      assert events[..i + 1] == events[..i] + [events[i]];
      ObservedSnoc(events[..i], events[i]);
      if CompletedCommand(events[i]) {
        if !LiteralCommand(events[i]) {
          assert events == events[..i + 1] + events[i + 1..];
          ObservedFails(events[..i + 1], events[i + 1..]);
          return None;
        }
        commands := commands + [CommandOf(events[i])];
      }
      i := i + 1;
    }
    assert events[..i] == events;
    return Some(commands);
  }

  lemma ObservedSnoc(events: seq<Object>, e: Object)
    ensures Observed(events + [e]) ==
              match Observed(events)
              case None => None
              case Some(commands) =>
                if !CompletedCommand(e) then Some(commands)
                else if LiteralCommand(e) then Some(commands + [CommandOf(e)])
                else None
  {
    hide CompletedCommand, CommandOf, LiteralCommand, Listed;
    var front := CompletedCommands(events);
    FilterConcat(CompletedCommand, events, [e]);
    assert CompletedCommands(events + [e]) == front + if CompletedCommand(e) then [e] else [];
    if CompletedCommand(e) { ListedSnoc(front, e); } else { assert front + [] == front; }
  }

  lemma ListedSnoc(completed: seq<Object>, e: Object)
    ensures Listed(completed + [e]) ==
              match Listed(completed)
              case None => None
              case Some(commands) => if LiteralCommand(e) then Some(commands + [CommandOf(e)]) else None
  {
    hide CommandOf, LiteralCommand;
    var all := completed + [e];
    assert all[|completed|] == e && forall i :: 0 <= i < |completed| ==> all[i] == completed[i];
    if Listed(completed).Some? && LiteralCommand(e) {
      assert MapEach(CommandOf, all) == MapEach(CommandOf, completed) + [CommandOf(e)];
    }
  }

  lemma ObservedFails(a: seq<Object>, b: seq<Object>)
    requires Observed(a) == None
    ensures Observed(a + b) == None
  {
    hide CompletedCommand, LiteralCommand;
    FilterConcat(CompletedCommand, a, b);
    var i :| 0 <= i < |CompletedCommands(a)| && !LiteralCommand(CompletedCommands(a)[i]);
    assert CompletedCommands(a + b)[i] == CompletedCommands(a)[i];
  }

  /** `require_exact_command_inventory` */
  predicate ExactInventory(events: seq<Object>, expected: seq<string>) {
    match Observed(events)
    case None => false
    case Some(observed) =>
      |observed| == |expected| && SortStrings(observed) == SortStrings(expected) && NoDuplicates(observed)
  }

  /** Equal once sorted means the same commands, each as often. */
  lemma InventoryIsPermutation(a: seq<string>, b: seq<string>)
    ensures SortStrings(a) == SortStrings(b) <==> multiset(a) == multiset(b)
  {
    SortPermutes(a, ByKey(Self));
    SortPermutes(b, ByKey(Self));
    if multiset(a) == multiset(b) { SameSortedStrings(a, b); }
  }

  // ---- Conservation ----

  /** The shell reads the canonical command of each path back as its four words. */
  predicate PlainPaths(c: Cache, paths: seq<string>) {
    forall i :: 0 <= i < |paths| ==> c.split(HEAD + paths[i]) == Some(["head", "-n", "100000000", paths[i]])
  }

  /** The paths of a validated shard manifest are canonical. */
  lemma MaterialIsCanonical(c: Cache, mat: Material, full: FullManifest, budget: string, digest: seq<ShardCitation> -> string)
    requires MaterialOf(c) == Some(mat) && ShardManifestOk(full, c.manifest, budget, digest)
    ensures forall i :: 0 <= i < |mat.paths| ==> CanonicalRelative(mat.paths[i])
  {
    hide ShardManifestOk, Keyed, ReadCommand, FreshPayload, CanonicalRelative;
    var targets := AllTargets(c.manifest);
    SortKeepsMembers(MapEach(TargetPath, targets), ByKey(Self));
    forall i | 0 <= i < |mat.paths| ensures CanonicalRelative(mat.paths[i]) {
      assert mat.paths[i] in mat.paths && mat.paths[i] in MapEach(TargetPath, targets);
      var k :| 0 <= k < |targets| && TargetPath(targets[k]) == mat.paths[i];
      TargetIsCanonical(full, c.manifest, budget, digest, targets[k]);
    }
  }

  lemma TargetIsCanonical(full: FullManifest, m: ShardManifest, budget: string, digest: seq<ShardCitation> -> string, t: Target)
    requires ShardManifestOk(full, m, budget, digest) && t in AllTargets(m)
    ensures CanonicalRelative(t.chunk.path)
  {
    hide FlatMap, FileMatches, CitationMatches, FileTargets, CitationTargets, ShardManifestOk, CanonicalRelative;
    FlatMember(FileTargets, m.files, t);
    FlatMember(CitationTargets, m.citations, t);
    ManifestRows(full, m, budget, digest);
    if t in FlatMap(FileTargets, m.files) {
      var i :| 0 <= i < |m.files| && t in FileTargets(m.files[i]);
      TargetInRow(m.files[i], t);
      RowIsCanonical(m.files[i].chunks, "chunks/source/", t.chunk);
    } else {
      var i :| 0 <= i < |m.citations| && t in CitationTargets(m.citations[i]);
      TargetInEntry(m.citations[i], t);
      RowIsCanonical(m.citations[i].chunks, "chunks/citation/", t.chunk);
    }
  }

  lemma ManifestRows(full: FullManifest, m: ShardManifest, budget: string, digest: seq<ShardCitation> -> string)
    requires ShardManifestOk(full, m, budget, digest)
    ensures forall i :: 0 <= i < |m.files| ==> ChunkRowsOk(m.files[i].chunks, "chunks/source/")
    ensures forall i :: 0 <= i < |m.citations| ==> ChunkRowsOk(m.citations[i].chunks, "chunks/citation/")
  {
    hide FindFile, FindCitation, SurfaceDigest, SortedInventory, ReferencesAscend, AssignedChunks, DistinctPaths, AssignedUrls, ChunkRowsOk, RowFromFull;
    forall i | 0 <= i < |m.files| ensures ChunkRowsOk(m.files[i].chunks, "chunks/source/") { assert FileMatches(full, m.files[i]); }
    forall i | 0 <= i < |m.citations| ensures ChunkRowsOk(m.citations[i].chunks, "chunks/citation/") {
      assert CitationMatches(full, m.ruleReferences, m.citations[i]);
    }
  }

  lemma TargetInRow(f: ShardFile, t: Target)
    requires t in FileTargets(f)
    ensures t.chunk in f.chunks
  {
  }

  lemma TargetInEntry(e: ShardCitation, t: Target)
    requires t in CitationTargets(e)
    ensures t.chunk in e.chunks
  {
  }

  lemma RowIsCanonical(rows: seq<ChunkRow>, prefix: string, c: ChunkRow)
    requires ChunkRowsOk(rows, prefix) && c in rows
    ensures CanonicalRelative(c.path)
  {
    hide CanonicalRelative;
    var k :| 0 <= k < |rows| && rows[k] == c;
    assert ChunkRowOk(rows, k, prefix);
  }

  /** What a wrapped command must show. */
  function ShownFor(c: Cache, command: string): string {
    match Unwrap(command, c.split)
    case None => ""
    case Some(inner) =>
      match Expected(c, inner)
      case None => ""
      case Some(e) => e.output
  }

  predicate Verified(c: Cache, command: string) {
    Unwrap(command, c.split).Some? && Expected(c, Unwrap(command, c.split).value).Some?
  }

  lemma RewrittenVerifies(c: Cache, e: Object)
    requires CompletedCommand(e) && SanitizeEvent(c, e).Some?
    ensures LiteralCommand(e) && Verified(c, CommandOf(e)) && OutputOf(e) == ShownFor(c, CommandOf(e))
  {
    hide Expected, Unwrap, Marker;
  }

  lemma CompletedVerifies(c: Cache, events: seq<Object>)
    requires Rewritten(c, events).Some?
    ensures forall i :: 0 <= i < |CompletedCommands(events)| ==>
              var e := CompletedCommands(events)[i];
              LiteralCommand(e) && Verified(c, CommandOf(e)) && OutputOf(e) == ShownFor(c, CommandOf(e))
  {
    hide SanitizeEvent, LiteralCommand, Verified, OutputOf, ShownFor, CommandOf;
    var all := CompletedCommands(events);
    forall i | 0 <= i < |all|
      ensures LiteralCommand(all[i]) && Verified(c, CommandOf(all[i])) && OutputOf(all[i]) == ShownFor(c, CommandOf(all[i]))
    {
      assert all[i] in all;
      var k :| 0 <= k < |events| && events[k] == all[i];
      assert SanitizeEvent(c, events[k]).Some?;
      RewrittenVerifies(c, events[k]);
    }
  }

  /** The canonical read of a fresh chunk is accepted, and shows exactly that chunk. */
  lemma CanonicalReadShowsPayload(c: Cache, path: string, command: string, targets: map<string, Target>, payload: Bytes)
    requires Keyed(AllTargets(c.manifest)) == Some(targets) && FreshPayload(c, targets, path) == Some(payload)
    requires CanonicalRelative(path) && c.split(HEAD + path) == Some(["head", "-n", "100000000", path])
    requires ReadCommand(c, path) == Some(command)
    ensures Verified(c, command) && WellFormed(payload) && ShownFor(c, command) == Decode(payload)
  {
    hide Keyed, Normalise, CanonicalRelative, Expected, WellFormed, Decode, Wrap, Unwrap, AllTargets;
    WrapUnwrap(HEAD + path, command, c.split);
    CanonicalIsFixedPoint(path);
    KeyedIsInventory(AllTargets(c.manifest));
    PrescribedReadAccepted(c, HEAD + path, path, targets[path]);
  }

  lemma MaterialRows(c: Cache, mat: Material, tokens: string -> nat)
    requires MaterialOf(c) == Some(mat) && PlainPaths(c, mat.paths)
    requires forall i :: 0 <= i < |mat.paths| ==> CanonicalRelative(mat.paths[i])
    ensures |mat.commands| == |mat.payloads| == |mat.paths|
    ensures forall i :: 0 <= i < |mat.commands| ==> tokens(ShownFor(c, mat.commands[i])) == TextTokens(tokens)(mat.payloads[i])
  {
    hide Keyed, Verified, ShownFor, FreshPayload, ReadCommand, SortStrings, WellFormed, Decode, CanonicalRelative;
    var targets := Keyed(AllTargets(c.manifest)).value;
    forall i | 0 <= i < |mat.commands|
      ensures tokens(ShownFor(c, mat.commands[i])) == TextTokens(tokens)(mat.payloads[i])
    {
      CanonicalReadShowsPayload(c, mat.paths[i], mat.commands[i], targets, mat.payloads[i]);
    }
  }

  /** The tokens of everything a verified stream executed and showed are the budgeted command and chunk tokens. */
  lemma ShownTokensAreBudgeted(c: Cache, events: seq<Object>, mat: Material, tokens: string -> nat,
      full: FullManifest, budget: string, digest: seq<ShardCitation> -> string)
    requires ShardManifestOk(full, c.manifest, budget, digest)
    requires MaterialOf(c) == Some(mat) && PlainPaths(c, mat.paths)
    requires Rewritten(c, events).Some? && ExactInventory(events, mat.commands)
    ensures |CompletedCommands(events)| == |mat.paths|
    ensures Sum((e: Object) => tokens(CommandOf(e)), CompletedCommands(events)) == Sum(tokens, mat.commands)
    ensures Sum((e: Object) => tokens(OutputOf(e)), CompletedCommands(events)) == Sum(TextTokens(tokens), mat.payloads)
  {
    hide MaterialOf, PlainPaths, ShardManifestOk, CanonicalRelative, Rewritten, SortStrings, Verified, OutputOf, ShownFor, CommandOf, CompletedCommands, TextTokens, NoDuplicates;
    var completed := CompletedCommands(events);
    var observed := Observed(events).value;
    InventoryIsPermutation(observed, mat.commands);
    CompletedVerifies(c, events);
    MaterialIsCanonical(c, mat, full, budget, digest);
    MaterialRows(c, mat, tokens);
    var shown := (command: string) => tokens(ShownFor(c, command));
    SumAgrees((e: Object) => tokens(CommandOf(e)), completed, tokens, observed);
    SumPermutes(tokens, observed, mat.commands);
    SumAgrees((e: Object) => tokens(OutputOf(e)), completed, shown, observed);
    SumPermutes(shown, observed, mat.commands);
    SumAgrees(shown, mat.commands, TextTokens(tokens), mat.payloads);
  }

  /** A stream checked against the budgeted commands and the cache shows no more than the budget allows. */
  lemma StreamStaysWithinBudget(c: Cache, events: seq<Object>, mat: Material, prompt: Bytes, tokens: string -> nat,
      full: FullManifest, budget: string, digest: seq<ShardCitation> -> string)
    requires ShardManifestOk(full, c.manifest, budget, digest)
    requires MaterialOf(c) == Some(mat) && PlainPaths(c, mat.paths)
    requires Rewritten(c, events).Some? && ExactInventory(events, mat.commands)
    requires WellFormed(prompt) && Charged(prompt, mat.payloads, mat.commands, tokens) <= MAX_VISIBLE_INPUT
    ensures var completed := CompletedCommands(events);
      var visible := tokens(Decode(prompt)) + Sum((e: Object) => tokens(CommandOf(e)), completed)
                     + Sum((e: Object) => tokens(OutputOf(e)), completed)
                     + TOOL_EVENT_OVERHEAD * |completed| + RUNTIME_ENVELOPE_ALLOWANCE;
      visible == Charged(prompt, mat.payloads, mat.commands, tokens) && CONTEXT_WINDOW - visible >= MIN_CONTEXT_RESERVE
  {
    hide MaterialOf, PlainPaths, ShardManifestOk, Rewritten, ExactInventory, OutputOf, CommandOf, CompletedCommands, TextTokens, Sum, Decode, WellFormed;
    ShownTokensAreBudgeted(c, events, mat, tokens, full, budget, digest);
    MaterialLengths(c, mat);
  }

  lemma MaterialLengths(c: Cache, mat: Material)
    requires MaterialOf(c) == Some(mat)
    ensures |mat.commands| == |mat.payloads| == |mat.paths|
  {
    hide Keyed, FreshPayload, ReadCommand, SortStrings;
  }
}

/** What one review command may read, and the exact output it must show
    (`_cache_targets`, `_expected_command`, the shell wrapper, the redaction marker). */
module Commands {
  import opened Sequences
  import opened Utf8
  import opened CacheModel
  import opened ChunkInventory

  datatype Target =
    | SourceChunk(source: ShardFile, chunk: ChunkRow)
    | CitationChunk(entry: ShardCitation, chunk: ChunkRow)

  datatype Operation =
    | FileChunkRead(source: ShardFile, chunk: ChunkRow, chunkContract: string)
    | CitationChunkRead(entry: ShardCitation, chunk: ChunkRow, chunkContract: string)
    | FileChunkHash(source: ShardFile, chunk: ChunkRow)
    | CitationChunkHash(entry: ShardCitation, chunk: ChunkRow)

  datatype Command = Command(output: string, operations: seq<Operation>, citationContent: bool)

  /** A review cache, with the two library functions commands depend on: the content hash,
      and the shell tokeniser (None when the text is forbidden or badly quoted). */
  datatype Cache = Cache(
    tree: Tree, manifest: ShardManifest, sha: Bytes -> string, split: string -> Option<seq<string>>)

  // ---- Targets ----

  function FileTargets(f: ShardFile): seq<Target> {
    if f.inspectionRequired then MapEach((c: ChunkRow) => SourceChunk(f, c), f.chunks) else []
  }

  function CitationTargets(e: ShardCitation): seq<Target> {
    MapEach((c: ChunkRow) => CitationChunk(e, c), e.chunks)
  }

  function AllTargets(m: ShardManifest): seq<Target> {
    FlatMap(FileTargets, m.files) + FlatMap(CitationTargets, m.citations)
  }

  /** Targets by chunk path; None when two share a path. */
  function Keyed(targets: seq<Target>): Option<map<string, Target>> {
    if targets == [] then Some(map[])
    else
      var last := targets[|targets| - 1];
      match Keyed(targets[..|targets| - 1])
      case None => None
      case Some(front) => if last.chunk.path in front then None else Some(front[last.chunk.path := last])
  }

  lemma KeyedSnoc(targets: seq<Target>, x: Target)
    ensures Keyed(targets + [x]) ==
              match Keyed(targets)
              case None => None
              case Some(front) => if x.chunk.path in front then None else Some(front[x.chunk.path := x])
  {
    assert (targets + [x])[..|targets|] == targets;
  }

  lemma {:induction false} KeyedFails(a: seq<Target>, b: seq<Target>)
    requires Keyed(a) == None
    ensures Keyed(a + b) == None
  {
    if b == [] {
      assert a + b == a;
    } else {
      KeyedFails(a, b[..|b| - 1]);
      KeyedSnoc(a + b[..|b| - 1], b[|b| - 1]);
      assert a + b == (a + b[..|b| - 1]) + [b[|b| - 1]];
    }
  }

  /** The keyed targets are exactly the listed ones, and exist exactly when no path repeats. */
  lemma {:induction false} KeyedIsInventory(targets: seq<Target>)
    ensures Keyed(targets).Some? <==> forall i, j :: 0 <= i < j < |targets| ==> targets[i].chunk.path != targets[j].chunk.path
    ensures Keyed(targets).Some? ==> forall i :: 0 <= i < |targets| ==>
              targets[i].chunk.path in Keyed(targets).value && Keyed(targets).value[targets[i].chunk.path] == targets[i]
    ensures Keyed(targets).Some? ==> forall p :: p in Keyed(targets).value ==>
              Keyed(targets).value[p] in targets && Keyed(targets).value[p].chunk.path == p
  {
    if targets != [] {
      KeyedIsInventory(targets[..|targets| - 1]);
    }
  }

  method AddTargets(targets: seq<Target>, before: map<string, Target>, ghost done: seq<Target>)
    returns (r: Option<map<string, Target>>)
    requires Keyed(done) == Some(before)
    ensures r == Keyed(done + targets)
  {
    var result := before;
    var i := 0;
    assert done + targets[..0] == done;
    while i < |targets|
      invariant 0 <= i <= |targets|
      invariant Keyed(done + targets[..i]) == Some(result)
    {
      var path := targets[i].chunk.path;
      KeyedSnoc(done + targets[..i], targets[i]);
      assert targets[..i + 1] == targets[..i] + [targets[i]];
      assert done + targets[..i + 1] == done + targets[..i] + [targets[i]];
      if path in result {
        KeyedFails(done + targets[..i + 1], targets[i + 1..]);
        assert done + targets == done + targets[..i + 1] + targets[i + 1..];
        return None;
      }
      result := result[path := targets[i]];
      i := i + 1;
    }
    assert targets[..i] == targets;
    return Some(result);
  }

  lemma FlatMapPrefix<S, T>(f: S -> seq<T>, s: seq<S>, i: nat)
    requires i < |s|
    ensures FlatMap(f, s[..i + 1]) == FlatMap(f, s[..i]) + f(s[i])
  {
    hide FlatMap;
    assert s[..i + 1] == s[..i] + [s[i]];
    FlatMapSnoc(f, s[..i], s[i]);
  }

  lemma FlatMapSplit<S, T>(f: S -> seq<T>, s: seq<S>, i: nat)
    requires i <= |s|
    ensures FlatMap(f, s) == FlatMap(f, s[..i]) + FlatMap(f, s[i..])
  {
    hide FlatMap;
    assert s == s[..i] + s[i..];
    FlatMapConcat(f, s[..i], s[i..]);
  }

  method AddAll<T>(f: T -> seq<Target>, rows: seq<T>, before: map<string, Target>, ghost done: seq<Target>)
    returns (r: Option<map<string, Target>>)
    requires Keyed(done) == Some(before)
    ensures r == Keyed(done + FlatMap(f, rows))
  {
    var result := before;
    var i := 0;
    assert rows[..0] == [] && done + FlatMap(f, rows[..0]) == done;
    while i < |rows|
      invariant 0 <= i <= |rows|
      invariant Keyed(done + FlatMap(f, rows[..i])) == Some(result)
    {
      r := AddTargets(f(rows[i]), result, done + FlatMap(f, rows[..i]));
      FlatMapPrefix(f, rows, i);
      FlatMapSplit(f, rows, i + 1);
      ConcatAssociates(done, FlatMap(f, rows[..i]), f(rows[i]));
      if r == None {
        KeyedFails(done + FlatMap(f, rows[..i + 1]), FlatMap(f, rows[i + 1..]));
        ConcatAssociates(done, FlatMap(f, rows[..i + 1]), FlatMap(f, rows[i + 1..]));
        return;
      }
      result := r.value;
      i := i + 1;
    }
    assert rows[..i] == rows;
    return Some(result);
  }

  /** `_cache_targets` */
  method CacheTargets(m: ShardManifest) returns (r: Option<map<string, Target>>)
    ensures r == Keyed(AllTargets(m))
  {
    hide Keyed;
    KeyedNothing();
    r := AddAll(FileTargets, m.files, map[], []);
    assert [] + FlatMap(FileTargets, m.files) == FlatMap(FileTargets, m.files);
    if r == None {
      KeyedFails(FlatMap(FileTargets, m.files), FlatMap(CitationTargets, m.citations));
      return;
    }
    r := AddAll(CitationTargets, m.citations, r.value, FlatMap(FileTargets, m.files));
  }

  lemma KeyedNothing()
    ensures Keyed([]) == Some(map[])
  {
  }

  // ---- Paths as a command names them ----

  function JoinPath(parts: seq<string>): string {
    if parts == [] then "" else if |parts| == 1 then parts[0] else parts[0] + ("/" + JoinPath(parts[1..]))
  }

  function Meaningful(parts: seq<string>): seq<string> {
    if parts == [] then []
    else (if parts[0] in ["", "."] then [] else [parts[0]]) + Meaningful(parts[1..])
  }

  predicate Relative(token: string) {
    && token != "" && '\\' !in token && token[0] != '/'
    && !(|token| >= 2 && token[1] == ':' && ('A' <= token[0] <= 'Z' || 'a' <= token[0] <= 'z'))
  }

  /** `_safe_relative(token).as_posix()`: empty and dot components vanish, dot-dot is refused. */
  function Normalise(token: string): Option<string> {
    if !Relative(token) then None
    else
      var parts := Meaningful(Components(token));
      if ".." in parts then None else Some(if parts == [] then "." else JoinPath(parts))
  }

  lemma {:induction false} JoinComponents(s: string)
    ensures Components(s) != [] && JoinPath(Components(s)) == s
    ensures forall c :: c in Components(s) ==> '/' !in c
    decreases |s|
  {
    if '/' in s {
      var i := FirstOf(s, '/');
      JoinComponents(s[i + 1..]);
      FirstOfIsFirst(s, '/');
      assert s == s[..i] + ("/" + s[i + 1..]);
      assert Components(s)[1..] == Components(s[i + 1..]);
    }
  }

  lemma {:induction false} FirstOfIsFirst(s: string, mark: char)
    requires mark in s
    ensures mark !in s[..FirstOf(s, mark)]
  {
    if s[0] != mark {
      FirstOfIsFirst(s[1..], mark);
      assert s[..FirstOf(s, mark)] == [s[0]] + s[1..][..FirstOf(s[1..], mark)];
    }
  }

  lemma {:induction false} ComponentsOfJoin(parts: seq<string>)
    requires parts != [] && forall c :: c in parts ==> '/' !in c
    ensures Components(JoinPath(parts)) == parts
  {
    if |parts| > 1 {
      ComponentsOfJoin(parts[1..]);
      ComponentsCons(parts[0], JoinPath(parts[1..]));
    }
  }

  lemma {:induction false} MeaningfulParts(parts: seq<string>)
    ensures forall c :: c in Meaningful(parts) ==> c in parts && c !in ["", "."]
    ensures (forall c :: c in parts ==> c !in ["", "."]) ==> Meaningful(parts) == parts
  {
    if parts != [] {
      MeaningfulParts(parts[1..]);
      assert parts == [parts[0]] + parts[1..];
    }
  }

  /** A path is canonical exactly when normalising leaves it alone. */
  lemma CanonicalIsFixedPoint(s: string)
    ensures CanonicalRelative(s) <==> Normalise(s) == Some(s)
  {
    if Relative(s) {
      var all := Components(s);
      JoinComponents(s);
      MeaningfulParts(all);
      if s == "." {
        assert all == ["."] && Meaningful(all) == [];
      } else if Normalise(s) == Some(s) {
        ComponentsOfJoin(Meaningful(all));
      }
    }
  }

  // ---- Reading a whole file by lines ----

  predicate LineBreak(c: char) {
    var n := c as int;
    10 <= n <= 13 || 28 <= n <= 30 || n in {0x85, 0x2028, 0x2029}
  }

  /** The length of the first line with its end. */
  function LineLength(s: string): (n: nat)
    requires s != ""
    ensures 1 <= n <= |s|
  {
    if s[0] == '\r' && |s| > 1 && s[1] == '\n' then 2
    else if LineBreak(s[0]) || |s| == 1 then 1
    else 1 + LineLength(s[1..])
  }

  /** `str.splitlines(keepends=True)` */
  function SplitLines(s: string): seq<string>
    decreases |s|
  {
    if s == "" then [] else [s[..LineLength(s)]] + SplitLines(s[LineLength(s)..])
  }

  function Joined(lines: seq<string>): string { FlatMap((line: string) => line, lines) }

  lemma {:induction false} LinesJoin(s: string)
    ensures Joined(SplitLines(s)) == s
    decreases |s|
  {
    if s != "" {
      var n := LineLength(s);
      LinesJoin(s[n..]);
      FlatMapCons((line: string) => line, s[..n], SplitLines(s[n..]));
      assert s == s[..n] + s[n..];
    }
  }

  function FirstLines(s: string, count: nat): string {
    var lines := SplitLines(s);
    Joined(if count < |lines| then lines[..count] else lines)
  }

  // ---- The expected output of one command ----

  function FindTarget(c: Cache, token: string): Option<Target> {
    match (Keyed(AllTargets(c.manifest)), Normalise(token))
    case (Some(targets), Some(path)) => if path in targets then Some(targets[path]) else None
    case _ => None
  }

  function ReadOperation(t: Target, contract: string): Operation {
    match t
    case SourceChunk(f, chunk) => FileChunkRead(f, chunk, contract)
    case CitationChunk(e, chunk) => CitationChunkRead(e, chunk, contract)
  }

  function HashOperation(t: Target): Operation {
    match t
    case SourceChunk(f, chunk) => FileChunkHash(f, chunk)
    case CitationChunk(e, chunk) => CitationChunkHash(e, chunk)
  }

  /** The arguments ask for at least one line. */
  predicate HeadArguments(parts: seq<string>) {
    |parts| == 4 && parts[1] == "-n" && parts[2] != "" && AllDigits(parts[2]) && Value(parts[2]) > 0
  }

  /** `head -n COUNT PATH` must show the complete chunk. */
  function HeadCommand(c: Cache, parts: seq<string>): Option<Command> {
    if !HeadArguments(parts) then None
    else
      match FindTarget(c, parts[3])
      case None => None
      case Some(t) =>
        if !Readable(c.tree, t.chunk.path) || !WellFormed(c.tree.files[t.chunk.path]) then None
        else
          var text := Decode(c.tree.files[t.chunk.path]);
          if Value(parts[2]) < |SplitLines(text)| then None
          else Some(Command(FirstLines(text, Value(parts[2])), [ReadOperation(t, c.manifest.chunkContract)], t.CitationChunk?))
  }

  /** `sha256sum PATH...`, one line a path. */
  function HashCommand(c: Cache, paths: seq<string>): Option<Command> {
    if paths == [] then Some(Command("", [], false))
    else
      var last := paths[|paths| - 1];
      match (HashCommand(c, paths[..|paths| - 1]), FindTarget(c, last))
      case (Some(front), Some(t)) =>
        if Readable(c.tree, t.chunk.path)
        then Some(Command(
          front.output + (c.sha(c.tree.files[t.chunk.path]) + "  " + last + "\n"),
          front.operations + [HashOperation(t)], false))
        else None
      case _ => None
  }

  /** `_expected_command` */
  function Expected(c: Cache, command: string): Option<Command> {
    match c.split(command)
    case None => None
    case Some(parts) =>
      if parts == [] || Keyed(AllTargets(c.manifest)) == None then None
      else if parts[0] == "head" then HeadCommand(c, parts)
      else if parts[0] == "sha256sum" && |parts| >= 2 then HashCommand(c, parts[1..])
      else None
  }

  lemma {:induction false} HashPrefix(c: Cache, paths: seq<string>, n: nat)
    requires n <= |paths| && HashCommand(c, paths[..n]) == None
    ensures HashCommand(c, paths) == None
    decreases |paths| - n
  {
    if n == |paths| {
      assert paths[..n] == paths;
    } else {
      assert paths[..n + 1][..n] == paths[..n];
      HashPrefix(c, paths, n + 1);
    }
  }

  method ExpectedHashes(c: Cache, targets: map<string, Target>, paths: seq<string>) returns (r: Option<Command>)
    requires Keyed(AllTargets(c.manifest)) == Some(targets)
    ensures r == HashCommand(c, paths)
  {
    hide Normalise, Keyed, AllTargets;
    var output: string, rows: seq<Operation> := "", [];
    var i := 0;
    while i < |paths|
      invariant 0 <= i <= |paths|
      invariant HashCommand(c, paths[..i]) == Some(Command(output, rows, false))
    {
      var raw := paths[i];
      assert paths[..i + 1][..i] == paths[..i];
      var token := Normalise(raw);
      if token == None || token.value !in targets || !Readable(c.tree, targets[token.value].chunk.path) {
        KeyedIsInventory(AllTargets(c.manifest));
        HashPrefix(c, paths, i + 1);
        return None;
      }
      var t := targets[token.value];
      output := output + (c.sha(c.tree.files[t.chunk.path]) + "  " + raw + "\n");
      rows := rows + [HashOperation(t)];
      i := i + 1;
    }
    assert paths[..i] == paths;
    return Some(Command(output, rows, false));
  }

  method ExpectedCommand(c: Cache, command: string) returns (r: Option<Command>)
    ensures r == Expected(c, command)
  {
    hide Normalise, Keyed, AllTargets, HashCommand, SplitLines, FirstLines, WellFormed, Decode;
    var split := c.split(command);
    if split == None || split.value == [] { return None; }
    var parts := split.value;
    var targets := CacheTargets(c.manifest);
    if targets == None { return None; }
    if parts[0] == "head" {
      if !HeadArguments(parts) { return None; }
      var token := Normalise(parts[3]);
      if token == None || token.value !in targets.value { return None; }
      var t := targets.value[token.value];
      if !Readable(c.tree, t.chunk.path) || !WellFormed(c.tree.files[t.chunk.path]) { return None; }
      var text := Decode(c.tree.files[t.chunk.path]);
      var expected := FirstLines(text, Value(parts[2]));
      if Value(parts[2]) < |SplitLines(text)| { return None; }
      return Some(Command(expected, [ReadOperation(t, c.manifest.chunkContract)], t.CitationChunk?));
    }
    if parts[0] == "sha256sum" && |parts| >= 2 {
      r := ExpectedHashes(c, targets.value, parts[1..]);
      return;
    }
    return None;
  }

  /** An accepted head command shows the whole chunk, byte for byte. */
  lemma HeadShowsWholeChunk(c: Cache, parts: seq<string>)
    requires HeadCommand(c, parts).Some?
    ensures var t := FindTarget(c, parts[3]).value;
      && t in AllTargets(c.manifest) && HeadCommand(c, parts).value.operations == [ReadOperation(t, c.manifest.chunkContract)]
      && WellFormed(c.tree.files[t.chunk.path])
      && Encode(HeadCommand(c, parts).value.output) == c.tree.files[t.chunk.path]
  {
    hide Keyed, Normalise, WellFormed, Encode;
    KeyedIsInventory(AllTargets(c.manifest));
    var payload := c.tree.files[FindTarget(c, parts[3]).value.chunk.path];
    LinesJoin(Decode(payload));
    EncodeDecode(payload);
  }

  // ---- The shell wrapper and the redaction marker ----

  const WRAPPER := "/bin/bash -lc '"

  /** `_codex_shell_event_command` */
  function Wrap(inner: string, split: string -> Option<seq<string>>): Option<string> {
    if inner == "" || '\'' in inner || split(inner) == None then None else Some(WRAPPER + inner + "'")
  }

  /** `_unwrap_codex_shell_event_command` */
  function Unwrap(event: string, split: string -> Option<seq<string>>): Option<string> {
    if !StartsWith(event, WRAPPER) || !EndsWith(event, "'") then None
    else
      var inner := if |event| > |WRAPPER| then event[|WRAPPER|..|event| - 1] else "";
      if Wrap(inner, split) == Some(event) then Some(inner) else None
  }

  /** Wrapping and unwrapping are inverse wherever either succeeds. */
  lemma WrapUnwrap(inner: string, event: string, split: string -> Option<seq<string>>)
    ensures Wrap(inner, split) == Some(event) <==> Unwrap(event, split) == Some(inner)
  {
    if Wrap(inner, split) == Some(event) {
      assert event[..|WRAPPER|] == WRAPPER && event[|event| - 1..] == "'";
      assert event[|WRAPPER|..|event| - 1] == inner;
    }
  }

  const MARKER := "HLSGRAPH_REVIEW_CACHE_OUTPUT:"

  function MarkerFor(digest: string, size: nat): string { MARKER + digest + (":" + Decimal(size) + "\n") }

  /** `_citation_marker` */
  function Marker(output: string, sha: Bytes -> string): string {
    MarkerFor(sha(Encode(output)), |Encode(output)|)
  }

  /** `_command_operations` of the runner, which stores markers for citations. */
  function StoredOperations(c: Cache, command: string, output: string): Option<seq<Operation>> {
    match Expected(c, command)
    case None => None
    case Some(e) =>
      if output == (if e.citationContent then Marker(e.output, c.sha) else e.output) then Some(e.operations) else None
  }

  /** `_command_operations` of the shard replay: raw or redacted citation output. */
  function CommandOperations(c: Cache, event: string, output: string): Option<seq<Operation>> {
    match Unwrap(event, c.split)
    case None => None
    case Some(inner) =>
      match Expected(c, inner)
      case None => None
      case Some(e) =>
        StoredOperations(c, inner, if e.citationContent && output == e.output then Marker(e.output, c.sha) else output)
  }

  /** Exactly two outputs are ever accepted: the deterministic one, and for citation text its marker. */
  lemma AcceptedOutputs(c: Cache, event: string, output: string)
    ensures CommandOperations(c, event, output).Some? <==>
              && Unwrap(event, c.split).Some? && Expected(c, Unwrap(event, c.split).value).Some?
              && var e := Expected(c, Unwrap(event, c.split).value).value;
                 output == e.output || (e.citationContent && output == Marker(e.output, c.sha))
    ensures CommandOperations(c, event, output).Some? ==>
              CommandOperations(c, event, output) == Some(Expected(c, Unwrap(event, c.split).value).value.operations)
  {
    hide Expected, Unwrap, Marker;
  }
}

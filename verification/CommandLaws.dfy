/** What `_expected_command` accepts and yields, said of the chunk, its text and the words of the command. */
module CommandLaws {
  import opened Sequences
  import opened Utf8
  import opened CacheModel
  import opened ChunkInventory
  import opened Commands

  // ---- Counting lines ----

  /** A line ends at `i`; a carriage return before a line feed ends nothing by itself. */
  predicate EndsLine(s: string, i: nat)
    requires i < |s|
  {
    LineBreak(s[i]) && !(s[i] == '\r' && i + 1 < |s| && s[i + 1] == '\n')
  }

  function LineEnds(s: string, i: nat): nat
    requires i <= |s|
    decreases |s| - i
  {
    if i == |s| then 0 else (if EndsLine(s, i) then 1 else 0) + LineEnds(s, i + 1)
  }

  /** Line ends, and one more for text after the last of them. */
  function LineCount(s: string): nat {
    LineEnds(s, 0) + if s != "" && !LineBreak(s[|s| - 1]) then 1 else 0
  }

  lemma {:induction false} LineEndsFrom(s: string, n: nat, i: nat)
    requires n <= |s| && i <= |s| - n
    ensures LineEnds(s, n + i) == LineEnds(s[n..], i)
    decreases |s| - n - i
  {
    if n + i < |s| {
      LineEndsFrom(s, n, i + 1);
      assert EndsLine(s, n + i) <==> EndsLine(s[n..], i);
    }
  }

  lemma {:induction false} LineEndsBound(s: string, i: nat)
    requires i <= |s|
    ensures LineEnds(s, i) <= |s| - i
    ensures i < |s| && !LineBreak(s[|s| - 1]) ==> LineEnds(s, i) < |s| - i
    decreases |s| - i
  {
    if i < |s| { LineEndsBound(s, i + 1); }
  }

  /** The first line holds one line end, its last character, unless it is all that is left of the text. */
  lemma {:induction false} FirstLineEnds(s: string)
    requires s != ""
    ensures var n := LineLength(s);
      LineEnds(s, 0) == LineEnds(s, n) + (if LineBreak(s[n - 1]) then 1 else 0) && (n < |s| ==> LineBreak(s[n - 1]))
    decreases |s|
  {
    if s[0] == '\r' && |s| > 1 && s[1] == '\n' {
      assert LineEnds(s, 0) == LineEnds(s, 1) && LineEnds(s, 1) == 1 + LineEnds(s, 2);
    } else if LineBreak(s[0]) || |s| == 1 {
      assert LineEnds(s, 0) == (if LineBreak(s[0]) then 1 else 0) + LineEnds(s, 1);
    } else {
      FirstLineEnds(s[1..]);
      var n := LineLength(s[1..]);
      LineEndsFrom(s, 1, 0);
      LineEndsFrom(s, 1, n);
    }
  }

  /** Splitting gives as many lines as are counted in the text. */
  lemma {:induction false} SplitCounts(s: string)
    ensures |SplitLines(s)| == LineCount(s)
    decreases |s|
  {
    if s != "" {
      var n := LineLength(s);
      SplitCounts(s[n..]);
      FirstLineEnds(s);
      LineEndsFrom(s, n, 0);
    }
  }

  /** A text has no more lines than bytes. */
  lemma LinesWithinBytes(payload: Bytes)
    requires WellFormed(payload)
    ensures LineCount(Decode(payload)) <= |Decode(payload)| <= |payload|
  {
    LineEndsBound(Decode(payload), 0);
    EncodeDecode(payload);
    EncodedIsLonger(Decode(payload));
  }

  lemma {:induction false} EncodedIsLonger(t: string)
    ensures |t| <= |Encode(t)|
  {
    if t != "" { EncodedIsLonger(t[1..]); }
  }

  // ---- Reading a chunk ----

  /** The text of an assigned chunk in the cache, when it is there and is text. */
  predicate ReadableText(c: Cache, t: Target) {
    Readable(c.tree, t.chunk.path) && WellFormed(c.tree.files[t.chunk.path])
  }

  function TextOf(c: Cache, t: Target): string
    requires ReadableText(c, t)
  {
    Decode(c.tree.files[t.chunk.path])
  }

  /** A cache whose assigned chunk paths are distinct. */
  predicate Distinguishable(c: Cache) {
    var targets := AllTargets(c.manifest);
    forall i, j :: 0 <= i < j < |targets| ==> targets[i].chunk.path != targets[j].chunk.path
  }

  /** A path token names an assigned chunk: it normalises to the chunk's path. */
  predicate Names(c: Cache, token: string, t: Target) {
    t in AllTargets(c.manifest) && Normalise(token) == Some(t.chunk.path)
  }

  lemma FoundExactly(c: Cache, token: string, t: Target)
    requires Distinguishable(c)
    ensures FindTarget(c, token) == Some(t) <==> Names(c, token, t)
  {
    hide Normalise, AllTargets;
    KeyedIsInventory(AllTargets(c.manifest));
  }

  /** `head -n COUNT PATH` on an assigned chunk is accepted exactly when the chunk is text of at most COUNT lines, and then
      must show the whole text, and reads that chunk and nothing else. */
  lemma HeadExactly(c: Cache, command: string, count: string, token: string, t: Target)
    requires c.split(command) == Some(["head", "-n", count, token])
    requires count != "" && AllDigits(count) && Value(count) > 0 && Distinguishable(c) && Names(c, token, t)
    ensures Expected(c, command).Some? <==> ReadableText(c, t) && LineCount(TextOf(c, t)) <= Value(count)
    ensures Expected(c, command).Some? ==>
              Expected(c, command) == Some(Command(
                TextOf(c, t),
                [match t
                 case SourceChunk(f, chunk) => FileChunkRead(f, chunk, c.manifest.chunkContract)
                 case CitationChunk(e, chunk) => CitationChunkRead(e, chunk, c.manifest.chunkContract)],
                t.CitationChunk?))
  {
    hide Normalise, AllTargets, SplitLines, Value, WellFormed, Decode, LineCount;
    KeyedIsInventory(AllTargets(c.manifest));
    FoundExactly(c, token, t);
    if ReadableText(c, t) {
      SplitCounts(TextOf(c, t));
      LinesJoin(TextOf(c, t));
    }
  }

  lemma PrescribedCount()
    ensures AllDigits("100000000") && Value("100000000") == 100000000
  {
    assert Decimal(100000000) == "100000000";
    DecimalValue(100000000);
  }

  /** The prescribed read of any text chunk of at most a hundred million bytes is accepted; chunks have at most 24000. */
  lemma PrescribedReadAccepted(c: Cache, command: string, token: string, t: Target)
    requires c.split(command) == Some(["head", "-n", "100000000", token])
    requires Distinguishable(c) && Names(c, token, t) && ReadableText(c, t) && |c.tree.files[t.chunk.path]| <= 100000000
    ensures Expected(c, command).Some? && Expected(c, command).value.output == TextOf(c, t)
  {
    hide Expected, WellFormed, Decode, LineCount, Names, AllTargets;
    PrescribedCount();
    LinesWithinBytes(c.tree.files[t.chunk.path]);
    HeadExactly(c, command, "100000000", token, t);
  }

  /** Nothing else is accepted: only these two executables, and `head` only with a positive count and an assigned chunk. */
  lemma AcceptedGrammar(c: Cache, command: string)
    requires Expected(c, command).Some?
    ensures c.split(command).Some? && Distinguishable(c)
    ensures var parts := c.split(command).value;
      && |parts| >= 2 && parts[0] in ["head", "sha256sum"]
      && (parts[0] == "head" ==>
            && |parts| == 4 && parts[1] == "-n" && parts[2] != "" && AllDigits(parts[2]) && Value(parts[2]) > 0
            && exists t :: Names(c, parts[3], t))
  {
    hide Normalise, AllTargets, SplitLines, Value, WellFormed, Decode, HashCommand, FirstLines;
    KeyedIsInventory(AllTargets(c.manifest));
    var parts := c.split(command).value;
    if parts[0] == "head" { FoundExactly(c, parts[3], FindTarget(c, parts[3]).value); }
  }

  // ---- Hashing chunks ----

  /** One printed line and one operation for each path, in order. */
  predicate Hashed(c: Cache, paths: seq<string>, targets: seq<Target>) {
    && |targets| == |paths|
    && forall i :: 0 <= i < |paths| ==> Names(c, paths[i], targets[i]) && Readable(c.tree, targets[i].chunk.path)
  }

  function HashLine(c: Cache, path: string, t: Target): string
    requires Readable(c.tree, t.chunk.path)
  {
    c.sha(c.tree.files[t.chunk.path]) + "  " + path + "\n"
  }

  function HashLines(c: Cache, paths: seq<string>, targets: seq<Target>): string
    requires Hashed(c, paths, targets)
  {
    if paths == [] then ""
    else
      var n := |paths| - 1;
      HashLines(c, paths[..n], targets[..n]) + HashLine(c, paths[n], targets[n])
  }

  predicate HashesOf(operations: seq<Operation>, targets: seq<Target>) {
    && |operations| == |targets|
    && forall i :: 0 <= i < |targets| ==>
         operations[i] == match targets[i]
                          case SourceChunk(f, chunk) => FileChunkHash(f, chunk)
                          case CitationChunk(e, chunk) => CitationChunkHash(e, chunk)
  }

  lemma {:induction false} HashAccepted(c: Cache, paths: seq<string>, targets: seq<Target>)
    requires Distinguishable(c) && Hashed(c, paths, targets)
    ensures HashCommand(c, paths).Some?
    ensures var r := HashCommand(c, paths).value;
      r.output == HashLines(c, paths, targets) && HashesOf(r.operations, targets) && !r.citationContent
  {
    hide Names, Readable, Distinguishable, FindTarget;
    if paths != [] {
      var n := |paths| - 1;
      HashAccepted(c, paths[..n], targets[..n]);
      FoundExactly(c, paths[n], targets[n]);
      var front, r := HashCommand(c, paths[..n]).value, HashCommand(c, paths).value;
      assert r.operations == front.operations + [HashOperation(targets[n])];
      assert r.output == front.output + HashLine(c, paths[n], targets[n]);
    }
  }

  lemma {:induction false} HashNames(c: Cache, paths: seq<string>) returns (targets: seq<Target>)
    requires Distinguishable(c) && HashCommand(c, paths).Some?
    ensures Hashed(c, paths, targets)
  {
    hide Names, Readable, Distinguishable, FindTarget, Hashed;
    if paths == [] {
      targets := [];
      NothingHashed(c);
    } else {
      var n := |paths| - 1;
      var front := HashNames(c, paths[..n]);
      var t := FindTarget(c, paths[n]).value;
      FoundExactly(c, paths[n], t);
      HashedNext(c, paths[..n], paths[n], front, t);
      assert paths == paths[..n] + [paths[n]];
      targets := front + [t];
    }
  }

  lemma NothingHashed(c: Cache)
    ensures Hashed(c, [], [])
  {
  }

  lemma HashedNext(c: Cache, paths: seq<string>, path: string, targets: seq<Target>, t: Target)
    requires Hashed(c, paths, targets) && Names(c, path, t) && Readable(c.tree, t.chunk.path)
    ensures Hashed(c, paths + [path], targets + [t])
  {
    hide Names, Readable;
    var all, more := paths + [path], targets + [t];
    forall i | 0 <= i < |all| ensures Names(c, all[i], more[i]) && Readable(c.tree, more[i].chunk.path) {
      if i < |paths| { assert all[i] == paths[i] && more[i] == targets[i]; }
    }
  }

  /** `sha256sum PATH...` is accepted exactly when every path names a readable assigned chunk; it must print one line for each,
      with the hash of its bytes, and reads nothing. */
  lemma HashesExactly(c: Cache, command: string, paths: seq<string>)
    requires c.split(command) == Some(["sha256sum"] + paths) && paths != [] && Distinguishable(c)
    ensures Expected(c, command).Some? <==> exists targets :: Hashed(c, paths, targets)
    ensures forall targets :: Hashed(c, paths, targets) ==>
              var e := Expected(c, command);
              e.Some? && e.value.output == HashLines(c, paths, targets) && HashesOf(e.value.operations, targets) && !e.value.citationContent
  {
    hide HashCommand, Hashed, AllTargets, HashesOf, HashLines;
    KeyedIsInventory(AllTargets(c.manifest));
    assert (["sha256sum"] + paths)[1..] == paths;
    assert Expected(c, command) == HashCommand(c, paths);
    if HashCommand(c, paths).Some? { var targets := HashNames(c, paths); }
    forall targets | Hashed(c, paths, targets)
      ensures var e := HashCommand(c, paths);
        e.Some? && e.value.output == HashLines(c, paths, targets) && HashesOf(e.value.operations, targets) && !e.value.citationContent
    {
      HashAccepted(c, paths, targets);
    }
  }
}

/** The material a shard is budgeted for, and the inventory its stream is held to, said of the cache and the events. */
module TokenLaws {
  import opened Sequences
  import opened Sorting
  import opened Utf8
  import opened CacheModel
  import opened Surface
  import opened Json
  import opened Projection
  import opened Commands
  import opened Replay
  import opened Sanitize
  import opened TokenBudget
  import opened VerdictLaws
  import opened ViewLaws
  import opened SanitizeLaws

  // ---- The material ----

  /** The chunk is there with the recorded hash and size, is text, and its path can be read in a quoted shell command. */
  predicate Budgeted(c: Cache, t: Target) {
    var path := t.chunk.path;
    && path in c.tree.files && |c.tree.files[path]| <= 33554432 && c.sha(c.tree.files[path]) == t.chunk.sha256
    && |c.tree.files[path]| == t.chunk.size && WellFormed(c.tree.files[path])
    && '\'' !in path && c.split("head -n 100000000 " + path).Some?
  }

  predicate Distinctly(targets: seq<Target>) { forall i, j :: 0 <= i < j < |targets| ==> targets[i].chunk.path != targets[j].chunk.path }

  /** One path, one wrapped command and one payload for each assigned chunk, by path. */
  ghost predicate Covers(c: Cache, targets: seq<Target>, mat: Material) {
    && |mat.paths| == |mat.commands| == |mat.payloads| == |targets|
    && Ascends(mat.paths) && (forall p :: p in mat.paths <==> exists t :: t in targets && t.chunk.path == p)
    && forall i :: 0 <= i < |mat.paths| ==>
         && mat.commands[i] == "/bin/bash -lc 'head -n 100000000 " + mat.paths[i] + "'"
         && mat.paths[i] in c.tree.files && mat.payloads[i] == c.tree.files[mat.paths[i]]
  }

  lemma ReadCommandExactly(c: Cache, path: string, command: string)
    ensures ReadCommand(c, path) == Some(command) <==>
              '\'' !in path && c.split("head -n 100000000 " + path).Some? && command == "/bin/bash -lc 'head -n 100000000 " + path + "'"
  {
    assert forall k :: 0 <= k < 18 ==> "head -n 100000000 "[k] != '\'';
    assert '\'' in "head -n 100000000 " + path <==> '\'' in path;
    assert ("/bin/bash -lc '" + ("head -n 100000000 " + path)) + "'" == "/bin/bash -lc 'head -n 100000000 " + path + "'" by {
      assert "/bin/bash -lc '" + ("head -n 100000000 " + path) == "/bin/bash -lc 'head -n 100000000 " + path;
    }
  }

  lemma FreshExactly(c: Cache, targets: map<string, Target>, t: Target)
    requires t.chunk.path in targets && targets[t.chunk.path] == t
    ensures FreshPayload(c, targets, t.chunk.path).Some? && ReadCommand(c, t.chunk.path).Some? <==> Budgeted(c, t)
    ensures FreshPayload(c, targets, t.chunk.path).Some? ==>
              t.chunk.path in c.tree.files && FreshPayload(c, targets, t.chunk.path).value == c.tree.files[t.chunk.path]
  {
    hide WellFormed, ReadCommand;
    if Budgeted(c, t) {
      ReadCommandExactly(c, t.chunk.path, "/bin/bash -lc 'head -n 100000000 " + t.chunk.path + "'");
    }
    if ReadCommand(c, t.chunk.path).Some? { ReadCommandExactly(c, t.chunk.path, ReadCommand(c, t.chunk.path).value); }
  }

  function SortedPaths(c: Cache): seq<string> { SortStrings(MapEach(TargetPath, AllTargets(c.manifest))) }

  lemma PathsAre(c: Cache)
    requires Distinctly(AllTargets(c.manifest))
    ensures |SortedPaths(c)| == |AllTargets(c.manifest)| && Ascends(SortedPaths(c))
    ensures forall p :: p in SortedPaths(c) <==> exists t :: t in AllTargets(c.manifest) && t.chunk.path == p
  {
    hide AllTargets, MapEach, Ascends;
    var targets := AllTargets(c.manifest);
    var paths := MapEach(TargetPath, targets);
    forall i, j | 0 <= i < j < |paths| ensures paths[i] != paths[j] { assert paths[i] == TargetPath(targets[i]) && paths[j] == TargetPath(targets[j]); }
    SortedDistinct(paths);
    SortKeepsMembers(paths, ByKey(Self));
    forall p ensures p in SortedPaths(c) <==> exists t :: t in targets && t.chunk.path == p { PathListed(targets, p); }
  }

  lemma PathListed(targets: seq<Target>, p: string)
    ensures p in MapEach(TargetPath, targets) <==> exists t :: t in targets && t.chunk.path == p
  {
    hide MapEach;
    KeysHave(targets, TargetPath, p);
    if i :| 0 <= i < |targets| && TargetPath(targets[i]) == p { assert targets[i] in targets; }
    if t :| t in targets && t.chunk.path == p { var i :| 0 <= i < |targets| && targets[i] == t; }
  }

  lemma KeyedTarget(c: Cache, p: string) returns (t: Target)
    requires Distinctly(AllTargets(c.manifest)) && p in SortedPaths(c)
    ensures t in AllTargets(c.manifest) && t.chunk.path == p
    ensures Keyed(AllTargets(c.manifest)).Some? && p in Keyed(AllTargets(c.manifest)).value && Keyed(AllTargets(c.manifest)).value[p] == t
  {
    hide AllTargets, Keyed, SortedPaths;
    PathsAre(c);
    KeyedIsInventory(AllTargets(c.manifest));
    t :| t in AllTargets(c.manifest) && t.chunk.path == p;
    var i :| 0 <= i < |AllTargets(c.manifest)| && AllTargets(c.manifest)[i] == t;
  }

  /** The material exists exactly when the shard has chunks, no path repeats, and each chunk can be budgeted. */
  lemma MaterialExactly(c: Cache)
    ensures MaterialOf(c).Some? <==>
              AllTargets(c.manifest) != [] && Distinctly(AllTargets(c.manifest)) && forall t :: t in AllTargets(c.manifest) ==> Budgeted(c, t)
    ensures MaterialOf(c).Some? ==> Covers(c, AllTargets(c.manifest), MaterialOf(c).value)
  {
    hide AllTargets, Keyed, SortStrings, ReadCommand, FreshPayload, Budgeted, Covers;
    var targets := AllTargets(c.manifest);
    KeyedIsInventory(targets);
    if Distinctly(targets) {
      KeyedEmpty(targets);
      CommandsAndPayloads(c);
      if MaterialOf(c).Some? { MaterialCovers(c); }
    }
  }

  lemma KeyedEmpty(targets: seq<Target>)
    requires Keyed(targets).Some?
    ensures Keyed(targets).value == map[] <==> targets == []
  {
    hide Keyed;
    KeyedIsInventory(targets);
    if targets == [] { KeyedNothing(); } else { assert targets[0].chunk.path in Keyed(targets).value; }
  }

  lemma CommandsAndPayloads(c: Cache)
    requires Distinctly(AllTargets(c.manifest)) && Keyed(AllTargets(c.manifest)).Some?
    ensures var targets := Keyed(AllTargets(c.manifest)).value;
      (Collect((p: string) => ReadCommand(c, p), SortedPaths(c)).Some? && Collect((p: string) => FreshPayload(c, targets, p), SortedPaths(c)).Some?) <==>
      forall t :: t in AllTargets(c.manifest) ==> Budgeted(c, t)
  {
    hide AllTargets, Keyed, SortedPaths, ReadCommand, FreshPayload, Budgeted;
    var targets, paths := Keyed(AllTargets(c.manifest)).value, SortedPaths(c);
    PathsAre(c);
    forall t | t in AllTargets(c.manifest)
      ensures t.chunk.path in paths && (FreshPayload(c, targets, t.chunk.path).Some? && ReadCommand(c, t.chunk.path).Some? <==> Budgeted(c, t))
    {
      assert t.chunk.path in paths;
      var u := KeyedTarget(c, t.chunk.path);
      SameTarget(AllTargets(c.manifest), t, u);
      FreshExactly(c, targets, t);
    }
    if forall i :: 0 <= i < |paths| ==> ReadCommand(c, paths[i]).Some? && FreshPayload(c, targets, paths[i]).Some? {
      forall t | t in AllTargets(c.manifest) ensures Budgeted(c, t) { var i :| 0 <= i < |paths| && paths[i] == t.chunk.path; }
    }
    if forall t :: t in AllTargets(c.manifest) ==> Budgeted(c, t) {
      forall i | 0 <= i < |paths| ensures ReadCommand(c, paths[i]).Some? && FreshPayload(c, targets, paths[i]).Some? {
        assert paths[i] in paths;
        var t := KeyedTarget(c, paths[i]);
      }
    }
  }

  lemma SameTarget(targets: seq<Target>, t: Target, u: Target)
    requires Distinctly(targets) && t in targets && u in targets && t.chunk.path == u.chunk.path
    ensures t == u
  {
    var i :| 0 <= i < |targets| && targets[i] == t;
    var j :| 0 <= j < |targets| && targets[j] == u;
  }

  lemma MaterialCovers(c: Cache)
    requires Distinctly(AllTargets(c.manifest)) && MaterialOf(c).Some?
    ensures Covers(c, AllTargets(c.manifest), MaterialOf(c).value)
  {
    hide AllTargets, Keyed, SortStrings, ReadCommand, FreshPayload, Ascends;
    var mat, targets := MaterialOf(c).value, Keyed(AllTargets(c.manifest)).value;
    PathsAre(c);
    assert mat.paths == SortedPaths(c);
    forall i | 0 <= i < |mat.paths|
      ensures mat.commands[i] == "/bin/bash -lc 'head -n 100000000 " + mat.paths[i] + "'"
      ensures mat.paths[i] in c.tree.files && mat.payloads[i] == c.tree.files[mat.paths[i]]
    {
      assert mat.paths[i] in mat.paths;
      var t := KeyedTarget(c, mat.paths[i]);
      ReadCommandExactly(c, mat.paths[i], mat.commands[i]);
      FreshExactly(c, targets, t);
    }
  }

  // ---- The inventory ----

  /** The literal command of a completed command event. */
  predicate LiteralOf(e: Object, command: string) { Completion(e) && Get(Get(e, "item").fields, "command") == Str(command) }

  /** The commands of the completed command events, in order; `at` gives their positions. */
  ghost predicate CommandsAt(events: seq<Object>, commands: seq<string>, at: seq<nat>) {
    Picks(events, commands, at, (e: Object) => Completion(e), (e: Object, command: string) => LiteralOf(e, command))
  }

  /** Every completed command event has a literal command. */
  lemma ObservedExactly(events: seq<Object>)
    ensures Observed(events).Some? <==> forall e :: e in events && Completion(e) ==> Get(Get(e, "item").fields, "command").Str?
  {
    hide Completion;
    var completed := CompletedCommands(events);
    forall e: Object ensures CompletedCommand(e) <==> Completion(e) { SameCompletion(e); }
    if forall i :: 0 <= i < |completed| ==> LiteralCommand(completed[i]) {
      forall e | e in events && Completion(e) ensures Get(Get(e, "item").fields, "command").Str? {
        assert e in completed;
        var i :| 0 <= i < |completed| && completed[i] == e;
      }
    }
    if forall e :: e in events && Completion(e) ==> Get(Get(e, "item").fields, "command").Str? {
      forall i | 0 <= i < |completed| ensures LiteralCommand(completed[i]) { assert completed[i] in completed; }
    }
  }

  lemma SameCompletion(e: Object)
    ensures CompletedCommand(e) <==> Completion(e)
  {
  }

  lemma ObservedCommands(events: seq<Object>) returns (at: seq<nat>)
    requires Observed(events).Some?
    ensures CommandsAt(events, Observed(events).value, at)
  {
    hide Filter, MapEach, CompletedCommand, Completion, LiteralCommand;
    var completed, commands := CompletedCommands(events), Observed(events).value;
    at := FilterPicks(CompletedCommand, events);
    forall e: Object ensures CompletedCommand(e) <==> Completion(e) { SameCompletion(e); }
    forall i | 0 <= i < |at| ensures Completion(events[at[i]]) && LiteralOf(events[at[i]], commands[i]) {
      assert Same<Object>()(events[at[i]], completed[i]);
      assert commands[i] == CommandOf(completed[i]);
      LiteralIs(completed[i]);
    }
  }

  lemma LiteralIs(e: Object)
    requires LiteralCommand(e)
    ensures LiteralOf(e, CommandOf(e))
  {
  }

  lemma PicksUnique(events: seq<Object>, a: seq<string>, at: seq<nat>, b: seq<string>, bt: seq<nat>)
    requires CommandsAt(events, a, at) && CommandsAt(events, b, bt)
    ensures a == b
  {
    hide Completion;
    SamePositions(at, bt);
    forall i | 0 <= i < |a| ensures a[i] == b[i] { assert LiteralOf(events[at[i]], a[i]) && LiteralOf(events[bt[i]], b[i]); }
  }

  /** Two ascending lists of the same positions are the same list. */
  lemma {:induction false} SamePositions(a: seq<nat>, b: seq<nat>)
    requires (forall i, j :: 0 <= i < j < |a| ==> a[i] < a[j]) && forall i, j :: 0 <= i < j < |b| ==> b[i] < b[j]
    requires forall x :: x in a <==> x in b
    ensures a == b
  {
    HasFirst(a);
    HasFirst(b);
    if a != [] && b != [] {
      var i :| 0 <= i < |b| && b[i] == a[0];
      var j :| 0 <= j < |a| && a[j] == b[0];
      assert a[0] == b[0];
      forall x ensures x in a[1..] <==> x in b[1..] { TailHas(a, x); TailHas(b, x); }
      SamePositions(a[1..], b[1..]);
      assert a == [a[0]] + a[1..] && b == [b[0]] + b[1..];
    }
  }

  lemma HasFirst(a: seq<nat>)
    ensures a != [] ==> a[0] in a
  {
  }

  lemma TailHas(a: seq<nat>, x: nat)
    requires a != [] && forall i, j :: 0 <= i < j < |a| ==> a[i] < a[j]
    ensures x in a[1..] <==> x in a && x != a[0]
  {
    if x in a && x != a[0] {
      var i :| 0 <= i < |a| && a[i] == x;
      assert a[1..][i - 1] == x;
    }
  }

  /** The stream matches the budget exactly when its completed commands are the budgeted ones, each once, in any order. */
  lemma InventoryExactly(events: seq<Object>, expected: seq<string>)
    ensures ExactInventory(events, expected) <==>
              exists commands, at :: CommandsAt(events, commands, at) && multiset(commands) == multiset(expected)
                                     && forall i, j :: 0 <= i < j < |commands| ==> commands[i] != commands[j]
  {
    hide CommandsAt, Observed, SortStrings;
    if exists commands, at :: CommandsAt(events, commands, at) && multiset(commands) == multiset(expected)
                              && forall i, j :: 0 <= i < j < |commands| ==> commands[i] != commands[j] {
      var commands, at :| CommandsAt(events, commands, at) && multiset(commands) == multiset(expected)
                          && forall i, j :: 0 <= i < j < |commands| ==> commands[i] != commands[j];
      AllLiteral(events, commands, at);
      var bt := ObservedCommands(events);
      PicksUnique(events, commands, at, Observed(events).value, bt);
      InventoryIsPermutation(commands, expected);
      assert |commands| == |multiset(commands)| == |multiset(expected)| == |expected|;
    }
    if ExactInventory(events, expected) {
      var bt := ObservedCommands(events);
      InventoryIsPermutation(Observed(events).value, expected);
    }
  }

  lemma AllLiteral(events: seq<Object>, commands: seq<string>, at: seq<nat>)
    requires CommandsAt(events, commands, at)
    ensures Observed(events).Some?
  {
    hide Observed;
    ObservedExactly(events);
    forall e | e in events && Completion(e) ensures Get(Get(e, "item").fields, "command").Str? {
      var k :| 0 <= k < |events| && events[k] == e;
      var i :| 0 <= i < |at| && at[i] == k;
      assert LiteralOf(events[at[i]], commands[i]);
    }
  }
}

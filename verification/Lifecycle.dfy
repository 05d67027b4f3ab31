/** Which event streams a shard replay accepts, said without its state: a declarative
    grammar of the steps, proved equivalent to running the state machine and settling. */
module Lifecycle {
  import opened Sequences
  import opened Json
  import opened CacheModel
  import opened Commands
  import opened Replay

  predicate Starts(step: Step, id: string) { step.action.CommandStarted? && step.action.callId == id }

  predicate Completes(step: Step, id: string) { step.action.CommandCompleted? && step.action.callId == id }

  predicate Finals(step: Step) { step.action.FinalMessage? }

  predicate Threads(step: Step) { step.action.ThreadStarted? }

  predicate Opens(step: Step) { step.action.TurnStarted? }

  predicate Closes(step: Step) { step.action.TurnCompleted? }

  predicate Retries(step: Step) { step.action.TransportRetry? }

  function Tally(p: Step -> bool, steps: seq<Step>): nat {
    if steps == [] then 0 else Tally(p, steps[..|steps| - 1]) + if p(steps[|steps| - 1]) then 1 else 0
  }

  lemma {:induction false} TallyNone(p: Step -> bool, steps: seq<Step>)
    ensures Tally(p, steps) == 0 <==> forall i :: 0 <= i < |steps| ==> !p(steps[i])
  {
    if steps != [] { TallyNone(p, steps[..|steps| - 1]); }
  }

  /** A tally of one at position `k` means `k` and nowhere else. */
  lemma {:induction false} TallyOne(p: Step -> bool, steps: seq<Step>, k: nat)
    requires k < |steps| && p(steps[k])
    ensures Tally(p, steps) >= 1
    ensures Tally(p, steps) == 1 <==> forall i :: 0 <= i < |steps| && i != k ==> !p(steps[i])
  {
    var front := steps[..|steps| - 1];
    if k < |front| {
      TallyOne(p, front, k);
    } else {
      TallyNone(p, front);
    }
  }

  // ---- What each step needs from the steps before it ----

  predicate NoneBefore(steps: seq<Step>, i: nat, p: Step -> bool)
    requires i <= |steps|
  {
    forall k :: 0 <= k < i ==> !p(steps[k])
  }

  predicate StartedBefore(steps: seq<Step>, i: nat, id: string, command: string)
    requires i <= |steps|
  {
    exists k :: 0 <= k < i && Starts(steps[k], id) && steps[k].action.command == command
  }

  /** The step at `i` may follow the steps before it. */
  predicate Allowed(steps: seq<Step>, i: nat)
    requires i < |steps|
  {
    match steps[i].action
    case TransportRetry(_) => NoneBefore(steps, i, Finals) && Tally(Retries, steps[..i]) < 128
    case ThreadStarted(_) => true
    case TurnStarted => true
    case TurnCompleted(_) => NoneBefore(steps, i, Closes)
    case Reasoning => NoneBefore(steps, i, Finals)
    case FinalMessage(_) => NoneBefore(steps, i, Finals)
    case CommandStarted(id, _) => NoneBefore(steps, i, Finals) && NoneBefore(steps, i, s => Starts(s, id))
    case CommandCompleted(id, command, _, _) =>
      NoneBefore(steps, i, Finals) && NoneBefore(steps, i, s => Completes(s, id)) && StartedBefore(steps, i, id, command)
  }

  /** The state in terms of the steps that led to it. */
  predicate Explains(steps: seq<Step>, s: State) {
    && (forall k :: 0 <= k < |steps| && steps[k].action.CommandStarted? ==>
          steps[k].action.callId in s.started && s.started[steps[k].action.callId] == steps[k].action.command)
    && (forall id :: id in s.started ==> exists k :: 0 <= k < |steps| && Starts(steps[k], id))
    && (forall k :: 0 <= k < |steps| && steps[k].action.CommandCompleted? ==> steps[k].action.callId in s.completed)
    && (forall id :: id in s.completed ==> exists k :: 0 <= k < |steps| && Completes(steps[k], id))
    && s.completed <= s.started.Keys
  }

  predicate Counted(steps: seq<Step>, s: State) {
    && |s.threadIds| == Tally(Threads, steps) && s.turnStarted == Tally(Opens, steps)
    && s.turnCompleted == Tally(Closes, steps) && (s.usage.Some? <==> Tally(Closes, steps) > 0)
    && |s.messages| == Tally(Finals, steps) && (s.finalMessageSeen <==> Tally(Finals, steps) > 0)
    && |s.retries| == Tally(Retries, steps)
  }

  lemma ExplainsNext(steps: seq<Step>, s: State, step: Step)
    requires Explains(steps, s) && Enabled(s, step.action)
    ensures Explains(steps + [step], Effect(Identified(s, step), step.action, |steps| + 1))
  {
    var t := Effect(Identified(s, step), step.action, |steps| + 1);
    var all := steps + [step];
    forall k | 0 <= k < |all| && all[k].action.CommandStarted?
      ensures all[k].action.callId in t.started && t.started[all[k].action.callId] == all[k].action.command
    {
      if k < |steps| { assert all[k] == steps[k]; }
    }
    forall id | id in t.started ensures exists k :: 0 <= k < |all| && Starts(all[k], id) {
      if id in s.started {
        var k :| 0 <= k < |steps| && Starts(steps[k], id);
        assert Starts(all[k], id);
      } else {
        assert Starts(all[|steps|], id);
      }
    }
    forall id | id in t.completed ensures exists k :: 0 <= k < |all| && Completes(all[k], id) {
      if id in s.completed {
        var k :| 0 <= k < |steps| && Completes(steps[k], id);
        assert Completes(all[k], id);
      } else {
        assert Completes(all[|steps|], id);
      }
    }
  }

  lemma CountedNext(steps: seq<Step>, s: State, step: Step)
    requires Counted(steps, s)
    ensures Counted(steps + [step], Effect(Identified(s, step), step.action, |steps| + 1))
  {
    assert (steps + [step])[..|steps|] == steps;
  }

  lemma {:induction false} RunExplained(steps: seq<Step>)
    requires Run(steps).Some?
    ensures Explains(steps, Run(steps).value) && Counted(steps, Run(steps).value)
  {
    hide Explains, Counted, Enabled, Effect;
    if steps == [] {
      NothingExplained();
    } else {
      var front, last := steps[..|steps| - 1], steps[|steps| - 1];
      RunExplained(front);
      assert front + [last] == steps;
      ExplainsNext(front, Run(front).value, last);
      CountedNext(front, Run(front).value, last);
    }
  }

  lemma NothingExplained()
    ensures Explains([], INITIAL) && Counted([], INITIAL)
  {
  }

  /** In a reached state the declarative condition is the guard. */
  lemma AllowedIsEnabled(steps: seq<Step>, s: State, step: Step)
    requires Explains(steps, s) && Counted(steps, s)
    ensures Allowed(steps + [step], |steps|) <==> Enabled(s, step.action)
  {
    hide Tally;
    var all := steps + [step];
    TallyNone(Finals, steps);
    TallyNone(Closes, steps);
    assert all[..|steps|] == steps;
    assert NoneBefore(all, |steps|, Finals) <==> !s.finalMessageSeen by {
      if NoneBefore(all, |steps|, Finals) {
        forall i | 0 <= i < |steps| ensures !Finals(steps[i]) { assert !Finals(all[i]); }
      }
    }
    assert NoneBefore(all, |steps|, Closes) <==> s.usage == None by {
      if NoneBefore(all, |steps|, Closes) {
        forall i | 0 <= i < |steps| ensures !Closes(steps[i]) { assert !Closes(all[i]); }
      }
    }
    match step.action
    case CommandStarted(id, command) => StartGuard(steps, s, step, id);
    case CommandCompleted(id, command, _, _) => CompletionGuard(steps, s, step, id, command);
    case _ =>
  }

  lemma StartGuard(steps: seq<Step>, s: State, step: Step, id: string)
    requires Explains(steps, s)
    ensures NoneBefore(steps + [step], |steps|, t => Starts(t, id)) <==> id !in s.started
    ensures id !in s.started ==> id !in s.completed
  {
    if id in s.started {
      var k :| 0 <= k < |steps| && Starts(steps[k], id);
      assert Starts((steps + [step])[k], id);
    }
  }

  lemma CompletionGuard(steps: seq<Step>, s: State, step: Step, id: string, command: string)
    requires Explains(steps, s)
    ensures NoneBefore(steps + [step], |steps|, t => Completes(t, id)) <==> id !in s.completed
    ensures StartedBefore(steps + [step], |steps|, id, command) <==> id in s.started && s.started[id] == command
  {
    var all := steps + [step];
    if id in s.completed {
      var k :| 0 <= k < |steps| && Completes(steps[k], id);
      assert Completes(all[k], id);
    }
    if id in s.started {
      var k :| 0 <= k < |steps| && Starts(steps[k], id);
      assert Starts(all[k], id);
    }
  }

  /** Allowedness looks only backwards. */
  lemma AllowedPrefix(steps: seq<Step>, n: nat, i: nat)
    requires i < n <= |steps|
    ensures Allowed(steps[..n], i) <==> Allowed(steps, i)
  {
    hide Tally;
    var front := steps[..n];
    assert front[..i] == steps[..i];
    if steps[i].action.CommandCompleted? {
      var id, command := steps[i].action.callId, steps[i].action.command;
      if StartedBefore(steps, i, id, command) {
        var k :| 0 <= k < i && Starts(steps[k], id) && steps[k].action.command == command;
        assert Starts(front[k], id);
      }
    }
  }

  predicate AllAllowed(steps: seq<Step>) {
    forall i :: 0 <= i < |steps| ==> Allowed(steps, i)
  }

  /** The machine runs exactly the sequences whose every step is allowed by the steps before it. */
  lemma {:induction false} RunsExactly(steps: seq<Step>)
    ensures Run(steps).Some? <==> AllAllowed(steps)
  {
    hide Allowed, Explains, Counted, Enabled, Effect;
    if steps != [] {
      var front, last := steps[..|steps| - 1], steps[|steps| - 1];
      RunsExactly(front);
      forall i | 0 <= i < |front| ensures Allowed(front, i) <==> Allowed(steps, i) {
        AllowedPrefix(steps, |front|, i);
      }
      if Run(front).Some? {
        RunExplained(front);
        AllowedIsEnabled(front, Run(front).value, last);
        assert front + [last] == steps;
      }
      assert AllAllowed(steps) <==> AllAllowed(front) && Allowed(steps, |front|);
    }
  }

  // ---- Settling ----

  function ThreadSet(steps: seq<Step>): set<string> {
    set k | 0 <= k < |steps| && steps[k].thread.Some? :: steps[k].thread.value
  }

  function InvocationSet(steps: seq<Step>): set<string> {
    set k | 0 <= k < |steps| && steps[k].invocation.Some? :: steps[k].invocation.value
  }

  function StartedThreads(step: Step): seq<string> {
    if step.action.ThreadStarted? then [step.action.threadId] else []
  }

  predicate IdentitiesOf(steps: seq<Step>, s: State) {
    && s.referenced == ThreadSet(steps) && s.invocations == InvocationSet(steps)
    && s.threadIds == FlatMap(StartedThreads, steps)
  }

  lemma IdentitiesNext(steps: seq<Step>, s: State, step: Step)
    requires IdentitiesOf(steps, s)
    ensures IdentitiesOf(steps + [step], Effect(Identified(s, step), step.action, |steps| + 1))
  {
    var all := steps + [step];
    assert forall k :: 0 <= k < |steps| ==> all[k] == steps[k];
    assert all[|steps|] == step;
    SetsNext(steps, step);
    FlatMapSnoc(StartedThreads, steps, step);
  }

  lemma SetsNext(steps: seq<Step>, step: Step)
    ensures ThreadSet(steps + [step]) == Adding(ThreadSet(steps), step.thread)
    ensures InvocationSet(steps + [step]) == Adding(InvocationSet(steps), step.invocation)
  {
    var all := steps + [step];
    assert all[|steps|] == step;
    forall x | x in ThreadSet(steps) ensures x in ThreadSet(all) {
      var k :| 0 <= k < |steps| && steps[k].thread.Some? && steps[k].thread.value == x;
      assert all[k] == steps[k];
    }
    forall x | x in InvocationSet(steps) ensures x in InvocationSet(all) {
      var k :| 0 <= k < |steps| && steps[k].invocation.Some? && steps[k].invocation.value == x;
      assert all[k] == steps[k];
    }
  }

  lemma {:induction false} RunIdentities(steps: seq<Step>)
    requires Run(steps).Some?
    ensures IdentitiesOf(steps, Run(steps).value)
  {
    hide IdentitiesOf, Enabled, Effect;
    if steps == [] {
      NoIdentities();
    } else {
      var front, last := steps[..|steps| - 1], steps[|steps| - 1];
      RunIdentities(front);
      assert front + [last] == steps;
      IdentitiesNext(front, Run(front).value, last);
    }
  }

  lemma NoIdentities()
    ensures IdentitiesOf([], INITIAL)
  {
  }

  /** Every start is completed later. */
  predicate AllCompleted(steps: seq<Step>) {
    forall k :: 0 <= k < |steps| && steps[k].action.CommandStarted? ==>
      exists j :: k < j < |steps| && Completes(steps[j], steps[k].action.callId)
  }

  /** Thread references name the one thread; at most one invocation is named. */
  predicate OneIdentity(steps: seq<Step>) {
    && (forall i, k :: 0 <= i < |steps| && 0 <= k < |steps| && steps[i].action.ThreadStarted? && steps[k].thread.Some? ==>
          steps[k].thread.value == steps[i].action.threadId)
    && forall i, k :: 0 <= i < |steps| && 0 <= k < |steps| && steps[i].invocation.Some? && steps[k].invocation.Some? ==>
          steps[i].invocation == steps[k].invocation
  }

  /** The grammar of an acceptable stream, in terms of its steps alone. */
  predicate WellFormedStream(steps: seq<Step>) {
    && AllAllowed(steps) && AllCompleted(steps) && OneIdentity(steps)
    && Tally(Threads, steps) == 1 && Tally(Opens, steps) == 1 && Tally(Closes, steps) == 1 && Tally(Finals, steps) == 1
  }

  lemma CompletedMatches(steps: seq<Step>, s: State)
    requires AllAllowed(steps) && Explains(steps, s)
    ensures s.started.Keys == s.completed <==> AllCompleted(steps)
  {
    hide Tally;
    if s.started.Keys == s.completed {
      forall k | 0 <= k < |steps| && steps[k].action.CommandStarted?
        ensures exists j :: k < j < |steps| && Completes(steps[j], steps[k].action.callId)
      {
        var id := steps[k].action.callId;
        var j :| 0 <= j < |steps| && Completes(steps[j], id);
        CompletionFollows(steps, k, j, id);
      }
    }
    if AllCompleted(steps) {
      forall id | id in s.started ensures id in s.completed {
        var k :| 0 <= k < |steps| && Starts(steps[k], id);
        var j :| k < j < |steps| && Completes(steps[j], id);
      }
    }
  }

  /** A call ID has one start, and its completion comes after it. */
  lemma CompletionFollows(steps: seq<Step>, k: nat, j: nat, id: string)
    requires AllAllowed(steps) && k < |steps| && j < |steps| && Starts(steps[k], id) && Completes(steps[j], id)
    ensures k < j && steps[k].action.command == steps[j].action.command
  {
    hide Tally;
    assert Allowed(steps, j) && Allowed(steps, k);
    var i :| 0 <= i < j && Starts(steps[i], id) && steps[i].action.command == steps[j].action.command;
    assert Allowed(steps, i);
  }

  lemma {:induction false} AtMostOne(s: set<string>)
    ensures |s| <= 1 <==> forall a, b :: a in s && b in s ==> a == b
  {
    if s != {} {
      var a :| a in s;
      assert s == {a} + (s - {a});
      if s - {a} != {} {
        var b :| b in s - {a};
        assert {a, b} <= s && |{a, b}| == 2;
        SubsetSize({a, b}, s);
      }
    }
  }

  lemma SubsetSize(a: set<string>, b: set<string>)
    requires a <= b
    ensures |a| <= |b|
  {
    assert b == a + (b - a);
  }

  lemma InvocationsAgree(steps: seq<Step>)
    ensures |InvocationSet(steps)| <= 1 <==>
              forall i, k :: 0 <= i < |steps| && 0 <= k < |steps| && steps[i].invocation.Some? && steps[k].invocation.Some? ==>
                steps[i].invocation == steps[k].invocation
  {
    var all := InvocationSet(steps);
    AtMostOne(all);
    if |all| <= 1 {
      forall i, k | 0 <= i < |steps| && 0 <= k < |steps| && steps[i].invocation.Some? && steps[k].invocation.Some?
        ensures steps[i].invocation == steps[k].invocation
      {
        assert steps[i].invocation.value in all && steps[k].invocation.value in all;
      }
    }
  }

  lemma {:induction false} ThreadIdsListed(steps: seq<Step>, id: string)
    ensures id in FlatMap(StartedThreads, steps) <==> exists k :: 0 <= k < |steps| && steps[k].action.ThreadStarted? && steps[k].action.threadId == id
  {
    if steps != [] {
      ThreadIdsListed(steps[1..], id);
      assert FlatMap(StartedThreads, steps) == StartedThreads(steps[0]) + FlatMap(StartedThreads, steps[1..]);
      if k :| 0 <= k < |steps[1..]| && steps[1..][k].action.ThreadStarted? && steps[1..][k].action.threadId == id {
        assert steps[k + 1] == steps[1..][k];
      }
      if k :| 0 <= k < |steps| && steps[k].action.ThreadStarted? && steps[k].action.threadId == id {
        if k > 0 { assert steps[1..][k - 1] == steps[k]; }
      }
    }
  }

  lemma ThreadsAgree(steps: seq<Step>)
    requires |FlatMap(StartedThreads, steps)| == 1
    ensures ThreadSet(steps) <= {FlatMap(StartedThreads, steps)[0]} <==>
              forall i, k :: 0 <= i < |steps| && 0 <= k < |steps| && steps[i].action.ThreadStarted? && steps[k].thread.Some? ==>
                steps[k].thread.value == steps[i].action.threadId
  {
    var ids := FlatMap(StartedThreads, steps);
    assert ids[0] in ids;
    ThreadIdsListed(steps, ids[0]);
    var started :| 0 <= started < |steps| && steps[started].action.ThreadStarted? && steps[started].action.threadId == ids[0];
    forall i | 0 <= i < |steps| && steps[i].action.ThreadStarted? ensures steps[i].action.threadId == ids[0] {
      ThreadIdsListed(steps, steps[i].action.threadId);
    }
    if ThreadSet(steps) <= {ids[0]} {
      forall k | 0 <= k < |steps| && steps[k].thread.Some? ensures steps[k].thread.value == ids[0] {
        assert steps[k].thread.value in ThreadSet(steps);
      }
    }
  }

  /** Running and settling accepts exactly the well-formed streams. */
  lemma AcceptsExactly(steps: seq<Step>)
    ensures Run(steps).Some? && Settled(Run(steps).value) <==> WellFormedStream(steps)
  {
    hide Explains, AllAllowed, AllCompleted, Tally, FlatMap, ThreadSet, InvocationSet;
    RunsExactly(steps);
    if Run(steps).Some? {
      var s := Run(steps).value;
      RunExplained(steps);
      RunIdentities(steps);
      CompletedMatches(steps, s);
      InvocationsAgree(steps);
      if |s.threadIds| == 1 { ThreadsAgree(steps); }
    }
  }

  // ---- What acceptance of the raw events means ----

  lemma ParsedKind(x: Context, e: Object)
    requires Parse(x, e).Some?
    ensures var a := Parse(x, e).value.action;
      && (Get(e, "type") == Str("thread.started") <==> a.ThreadStarted?)
      && (Get(e, "type") == Str("turn.started") <==> a.TurnStarted?)
      && (Get(e, "type") == Str("turn.completed") <==> a.TurnCompleted?)
  {
    hide NoCompaction, ParseUsage, IsToken, ParseItem;
    var item := Get(e, "item");
    if item.Obj? { ItemKind(x, item.fields, Get(e, "type") == Str("item.started")); }
  }

  lemma ItemKind(x: Context, item: Object, starting: bool)
    requires ParseItem(x, item, starting).Some?
    ensures var a := ParseItem(x, item, starting).value;
      !a.ThreadStarted? && !a.TurnStarted? && !a.TurnCompleted? && !a.TransportRetry?
  {
    hide ContentText, CommandOperations, IsCallId;
  }

  /** The event at `i` has one of the named types exactly at its place. */
  predicate OnlyAt(events: seq<Object>, kind: string, place: nat) {
    forall i :: 0 <= i < |events| ==> (Get(events[i], "type") == Str(kind) <==> i == place)
  }

  /** Each call has one start and, after it, one completion of the same command. */
  predicate CallsPaired(steps: seq<Step>) {
    && (forall i, k :: 0 <= i < k < |steps| && steps[i].action.CommandStarted? ==> !Starts(steps[k], steps[i].action.callId))
    && (forall i, k :: 0 <= i < k < |steps| && steps[i].action.CommandCompleted? ==> !Completes(steps[k], steps[i].action.callId))
    && (forall i, k :: 0 <= i < |steps| && 0 <= k < |steps| && steps[i].action.CommandStarted? && Completes(steps[k], steps[i].action.callId) ==>
          i < k && steps[i].action.command == steps[k].action.command)
    && (forall i :: 0 <= i < |steps| && steps[i].action.CommandStarted? ==>
          exists k :: 0 <= k < |steps| && Completes(steps[k], steps[i].action.callId))
    && forall k :: 0 <= k < |steps| && steps[k].action.CommandCompleted? ==>
          exists i :: 0 <= i < |steps| && Starts(steps[i], steps[k].action.callId)
  }

  lemma WellFormedCallsPaired(steps: seq<Step>)
    requires AllAllowed(steps) && AllCompleted(steps)
    ensures CallsPaired(steps)
  {
    hide Tally;
    forall i, k | 0 <= i < k < |steps| && steps[i].action.CommandStarted? ensures !Starts(steps[k], steps[i].action.callId) {
      assert Allowed(steps, k);
    }
    forall i, k | 0 <= i < k < |steps| && steps[i].action.CommandCompleted? ensures !Completes(steps[k], steps[i].action.callId) {
      assert Allowed(steps, k);
    }
    forall i, k | 0 <= i < |steps| && 0 <= k < |steps| && steps[i].action.CommandStarted? && Completes(steps[k], steps[i].action.callId)
      ensures i < k && steps[i].action.command == steps[k].action.command
    {
      CompletionFollows(steps, i, k, steps[i].action.callId);
    }
    forall k | 0 <= k < |steps| && steps[k].action.CommandCompleted?
      ensures exists i :: 0 <= i < |steps| && Starts(steps[i], steps[k].action.callId)
    {
      assert Allowed(steps, k);
    }
  }

  lemma FinalIsPenultimate(steps: seq<Step>)
    requires WellFormedStream(steps) && |steps| >= 4
    requires Threads(steps[0]) && Opens(steps[1]) && Closes(steps[|steps| - 1])
    ensures forall i :: 0 <= i < |steps| ==> (Finals(steps[i]) <==> i == |steps| - 2)
  {
    hide Tally, AllCompleted, OneIdentity;
    TallyOne(Threads, steps, 0);
    TallyOne(Opens, steps, 1);
    TallyOne(Closes, steps, |steps| - 1);
    TallyNone(Finals, steps);
    var k :| 0 <= k < |steps| && Finals(steps[k]);
    TallyOne(Finals, steps, k);
    if k < |steps| - 2 {
      assert Allowed(steps, k + 1);
      assert Finals(steps[k]) && !Threads(steps[k + 1]) && !Opens(steps[k + 1]) && !Closes(steps[k + 1]);
      assert !NoneBefore(steps, k + 1, Finals);
    }
  }

  lemma ReplaySteps(x: Context, m: ShardManifest, events: seq<Object>)
    requires Replayed(x, m, events).Some?
    ensures OrderedLifecycle(events) && Steps(x, events).Some?
    ensures WellFormedStream(Steps(x, events).value)
    ensures EachReadOnce(Run(Steps(x, events).value).value.operations, m)
  {
    hide WellFormedStream, Settled, EachReadOnce, ProjectedCacheOk, Parse, OrderedLifecycle;
    AcceptsExactly(Steps(x, events).value);
  }

  lemma StepKinds(x: Context, events: seq<Object>)
    requires Steps(x, events).Some?
    ensures |Steps(x, events).value| == |events|
    ensures forall i :: 0 <= i < |events| ==>
              && (Get(events[i], "type") == Str("thread.started") <==> Threads(Steps(x, events).value[i]))
              && (Get(events[i], "type") == Str("turn.started") <==> Opens(Steps(x, events).value[i]))
              && (Get(events[i], "type") == Str("turn.completed") <==> Closes(Steps(x, events).value[i]))
  {
    hide Parse;
    forall i | 0 <= i < |events| ensures Parse(x, events[i]) == Some(Steps(x, events).value[i]) { }
    forall i | 0 <= i < |events|
      ensures Get(events[i], "type") == Str("thread.started") <==> Threads(Steps(x, events).value[i])
      ensures Get(events[i], "type") == Str("turn.started") <==> Opens(Steps(x, events).value[i])
      ensures Get(events[i], "type") == Str("turn.completed") <==> Closes(Steps(x, events).value[i])
    {
      ParsedKind(x, events[i]);
    }
  }

  /** An accepted stream is one thread, one turn, paired commands, and one message just before the end. */
  lemma ReplayLifecycle(x: Context, m: ShardManifest, events: seq<Object>)
    requires Replayed(x, m, events).Some?
    ensures OnlyAt(events, "thread.started", 0)
    ensures OnlyAt(events, "turn.started", 1)
    ensures OnlyAt(events, "turn.completed", |events| - 1)
    ensures Steps(x, events).Some? && |Steps(x, events).value| == |events| >= 4
    ensures forall i :: 0 <= i < |events| ==> (Finals(Steps(x, events).value[i]) <==> i == |events| - 2)
    ensures CallsPaired(Steps(x, events).value)
  {
    hide Tally, Replayed, Steps, Parse, AllCompleted, OneIdentity, AllAllowed, CallsPaired;
    ReplaySteps(x, m, events);
    var steps := Steps(x, events).value;
    StepKinds(x, events);
    TallyOne(Threads, steps, 0);
    TallyOne(Opens, steps, 1);
    TallyOne(Closes, steps, |steps| - 1);
    FinalIsPenultimate(steps);
    WellFormedCallsPaired(steps);
  }

  /** The trace numbers its rows from 1 and ends with the only result row. */
  lemma TraceIsNumbered(x: Context, m: ShardManifest, events: seq<Object>)
    requires Replayed(x, m, events).Some?
    ensures var trace := Replayed(x, m, events).value.trace;
      && trace != []
      && (forall i :: 0 <= i < |trace| ==> trace[i].sequence == i + 1)
      && forall i :: 0 <= i < |trace| ==> (trace[i].entry.ResultEntry? <==> i == |trace| - 1)
  {
    hide ProjectedCacheOk, Settled, EachReadOnce, Steps;
  }
}

/** Replaying one raw event stream against a projected shard cache (`_replay`):
    what each event means on its own, the state it drives, and the loop that runs both. */
module Replay {
  import opened Sequences
  import opened CacheModel
  import opened Json
  import opened Projection
  import opened Commands

  const MAX_RECOVERABLE_TRANSPORT_RETRY_EVENTS := 128
  const MAX_RETRY_MESSAGE := 512

  datatype Retry = Retry(attempt: nat, reason: string)

  datatype Usage = Usage(input: nat, cachedInput: nat, output: nat, reasoningOutput: nat)

  /** The cache being replayed and the text grammars the stream must meet: Unicode case folding,
      the transport notice, and the parser-and-validator of the final result. */
  datatype Context = Context(
    cache: Cache, fold: string -> string, retry: string -> Option<Retry>, judge: string -> Option<string>)

  /** What one event asks for, read without looking at any other event. */
  datatype Action =
    | TransportRetry(retry: Retry)
    | ThreadStarted(threadId: string)
    | TurnStarted
    | TurnCompleted(usage: Usage)
    | Reasoning
    | FinalMessage(text: string)
    | CommandStarted(callId: string, command: string)
    | CommandCompleted(callId: string, command: string, output: string, operations: seq<Operation>)

  datatype Step = Step(thread: Option<string>, invocation: Option<string>, action: Action)

  datatype State = State(
    threadIds: seq<string>, referenced: set<string>, invocations: set<string>,
    started: map<string, string>, completed: set<string>, operations: seq<Operation>, messages: seq<string>,
    turnStarted: nat, turnCompleted: nat, usage: Option<Usage>, finalMessageSeen: bool,
    retries: seq<(nat, Retry)>)

  const INITIAL := State([], {}, {}, map[], {}, [], [], 0, 0, None, false, [])

  // ---- One event ----

  const USAGE_FIELDS := {"input_tokens", "cached_input_tokens", "output_tokens", "reasoning_output_tokens"}

  predicate Count(v: Value) { v.Int? && v.n >= 0 }

  /** `_validate_turn_usage` */
  function ParseUsage(v: Value): Option<Usage> {
    if !v.Obj? || v.fields.Keys != USAGE_FIELDS || exists k :: k in v.fields && !Count(v.fields[k]) then None
    else
      var u := Usage(v.fields["input_tokens"].n, v.fields["cached_input_tokens"].n,
                     v.fields["output_tokens"].n, v.fields["reasoning_output_tokens"].n);
      if u.cachedInput > u.input || u.reasoningOutput > u.output then None else Some(u)
  }

  /** `_recoverable_transport_retry` */
  function ParseRetry(x: Context, e: Object): Option<Action> {
    if e.Keys != {"type", "message"} || !e["message"].Str? || |e["message"].s| > MAX_RETRY_MESSAGE then None
    else
      match x.retry(e["message"].s)
      case None => None
      case Some(r) => Some(TransportRetry(r))
  }

  /** `item.get("id") or item.get("call_id")` */
  function CallId(item: Object): Value {
    if Truthy(Get(item, "id")) then Get(item, "id") else Get(item, "call_id")
  }

  predicate Succeeded(item: Object) {
    Get(item, "status") == Str("completed") && Get(item, "exit_code") == Int(0)
  }

  /** `_command_output` */
  function CommandOutput(item: Object): Option<string> {
    if "output" in item || "result" in item || !Get(item, "aggregated_output").Str? then None
    else Some(item["aggregated_output"].s)
  }

  function ParseCompletion(x: Context, callId: string, command: string, item: Object): Option<Action> {
    if !Succeeded(item) || CommandOutput(item) == None then None
    else
      match CommandOperations(x.cache, command, CommandOutput(item).value)
      case None => None
      case Some(ops) => Some(CommandCompleted(callId, command, CommandOutput(item).value, ops))
  }

  function ParseCommand(x: Context, item: Object, starting: bool): Option<Action> {
    var id, command := CallId(item), Get(item, "command");
    if !id.Str? || !IsCallId(id.s) || !command.Str? then None
    else if starting then
      if x.cache.split(command.s) == None then None else Some(CommandStarted(id.s, command.s))
    else ParseCompletion(x, id.s, command.s, item)
  }

  function ParseMessage(item: Object): Option<Action> {
    match ContentText(Obj(item))
    case None => None
    case Some(text) => if StripText(text) == "" then None else Some(FinalMessage(StripText(text)))
  }

  function ParseItem(x: Context, item: Object, starting: bool): Option<Action> {
    if !ClosedItem(item) then None
    else
      match item["type"].s
      case "reasoning" => Some(Reasoning)
      case "agent_message" => if starting then None else ParseMessage(item)
      case _ => ParseCommand(x, item, starting)
  }

  function ParseAction(x: Context, e: Object, kind: string): Option<Action> {
    match kind
    case "thread.started" =>
      var id := Get(e, "thread_id");
      if id.Str? && IsToken(id.s) then Some(ThreadStarted(id.s)) else None
    case "turn.started" => Some(TurnStarted)
    case "turn.completed" =>
      (match ParseUsage(Get(e, "usage"))
       case None => None
       case Some(u) => Some(TurnCompleted(u)))
    case _ =>
      var item := Get(e, "item");
      if item.Obj? then ParseItem(x, item.fields, kind == "item.started") else None
  }

  /** A thread identity counts only when it is a non-empty string. */
  function ThreadOf(e: Object): Option<string> {
    if Get(e, "thread_id").Str? && Get(e, "thread_id").s != "" then Some(Get(e, "thread_id").s) else None
  }

  predicate InvocationOk(e: Object) {
    "invocation_id" in e ==> e["invocation_id"].Str? && IsToken(e["invocation_id"].s)
  }

  function InvocationOf(e: Object): Option<string>
    requires InvocationOk(e)
  {
    if "invocation_id" in e then Some(e["invocation_id"].s) else None
  }

  function Parse(x: Context, e: Object): Option<Step> {
    var kind := Get(e, "type");
    if !kind.Str? then None
    else if kind.s == "error" then
      match ParseRetry(x, e)
      case None => None
      case Some(a) => Some(Step(None, None, a))
    else if !ClosedEvent(e, kind.s, x.fold) || !InvocationOk(e) then None
    else
      match ParseAction(x, e, kind.s)
      case None => None
      case Some(a) => Some(Step(ThreadOf(e), InvocationOf(e), a))
  }

  // ---- The state machine ----

  function Adding(s: set<string>, x: Option<string>): set<string> {
    if x.Some? then s + {x.value} else s
  }

  /** Whether the action may happen in this state. */
  predicate Enabled(s: State, a: Action) {
    match a
    case TransportRetry(_) => !s.finalMessageSeen && |s.retries| < MAX_RECOVERABLE_TRANSPORT_RETRY_EVENTS
    case ThreadStarted(_) => true
    case TurnStarted => true
    case TurnCompleted(_) => s.usage == None
    case Reasoning => !s.finalMessageSeen
    case FinalMessage(_) => !s.finalMessageSeen
    case CommandStarted(id, _) => !s.finalMessageSeen && id !in s.started && id !in s.completed
    case CommandCompleted(id, command, _, _) =>
      !s.finalMessageSeen && id !in s.completed && id in s.started && s.started[id] == command
  }

  /** The state after the `index`-th event (counted from 1). */
  function Effect(s: State, a: Action, index: nat): State {
    match a
    case TransportRetry(r) => s.(retries := s.retries + [(index, r)])
    case ThreadStarted(id) => s.(threadIds := s.threadIds + [id])
    case TurnStarted => s.(turnStarted := s.turnStarted + 1)
    case TurnCompleted(u) => s.(turnCompleted := s.turnCompleted + 1, usage := Some(u))
    case Reasoning => s
    case FinalMessage(text) => s.(messages := s.messages + [text], finalMessageSeen := true)
    case CommandStarted(id, command) => s.(started := s.started[id := command])
    case CommandCompleted(id, _, _, ops) => s.(completed := s.completed + {id}, operations := s.operations + ops)
  }

  function Identified(s: State, step: Step): State {
    s.(referenced := Adding(s.referenced, step.thread), invocations := Adding(s.invocations, step.invocation))
  }

  function Next(s: State, step: Step, index: nat): Option<State> {
    if Enabled(s, step.action) then Some(Effect(Identified(s, step), step.action, index)) else None
  }

  /** The meaning of every event, when every event has one. */
  function Steps(x: Context, events: seq<Object>): Option<seq<Step>> {
    Collect((e: Object) => Parse(x, e), events)
  }

  function Run(steps: seq<Step>): Option<State> {
    if steps == [] then Some(INITIAL)
    else
      match Run(steps[..|steps| - 1])
      case None => None
      case Some(s) => Next(s, steps[|steps| - 1], |steps|)
  }

  // ---- The whole stream ----

  /** Four events at least, opened by the thread and the turn, closed by the turn. */
  predicate OrderedLifecycle(events: seq<Object>) {
    && |events| >= 4
    && Get(events[0], "type") == Str("thread.started")
    && Get(events[1], "type") == Str("turn.started")
    && Get(events[|events| - 1], "type") == Str("turn.completed")
  }

  function SourceRead(o: Operation): seq<string> {
    if o.FileChunkRead? then [o.chunk.path] else []
  }

  function CitationRead(o: Operation): seq<string> {
    if o.CitationChunkRead? then [o.chunk.path] else []
  }

  function ChunkPathList(chunks: seq<ChunkRow>): seq<string> { MapEach((c: ChunkRow) => c.path, chunks) }

  function AssignedSources(m: ShardManifest): seq<string> { ChunkPathList(FlatMap(FileChunks, m.files)) }

  function AssignedCitations(m: ShardManifest): seq<string> { ChunkPathList(FlatMap(CitationChunks, m.citations)) }

  /** Reads cover the assigned chunks, each once and nothing else. */
  predicate EachReadOnce(operations: seq<Operation>, m: ShardManifest) {
    && multiset(FlatMap(SourceRead, operations)) == multiset(AssignedSources(m))
    && multiset(FlatMap(CitationRead, operations)) == multiset(AssignedCitations(m))
  }

  predicate Settled(s: State) {
    && |s.threadIds| == 1
    && s.referenced <= {s.threadIds[0]}
    && |s.invocations| <= 1
    && s.turnStarted == 1 && s.turnCompleted == 1 && s.usage.Some?
    && s.started.Keys == s.completed
    && |s.messages| == 1
  }

  predicate ChunkPresent(c: Cache, chunk: ChunkRow) {
    Readable(c.tree, chunk.path) && c.sha(c.tree.files[chunk.path]) == chunk.sha256 && |c.tree.files[chunk.path]| == chunk.size
  }

  /** `_validate_projected_cache`, without the comparisons against the fixed plan tables. */
  predicate ProjectedCacheOk(c: Cache, m: ShardManifest) {
    && c.manifest.files == m.files && c.manifest.citations == m.citations && c.manifest.chunkContract == m.chunkContract
    && c.manifest.protocolId == m.protocolId && c.manifest.snapshotSha256 == m.snapshotSha256
    && c.manifest.planSha256 == m.planSha256 && c.manifest.shardId == m.shardId
    && c.manifest.citationSurfaceSha256 == m.citationSurfaceSha256 && c.manifest.fullSurfaceSha256 == m.fullSurfaceSha256
    && (forall i :: 0 <= i < |m.files| ==> m.files[i].chunks != [])
    && DistinctPaths(AssignedChunks(m))
    && (match Keyed(AllTargets(c.manifest))
        case None => false
        case Some(targets) =>
          && targets.Keys == ChunkPaths(AssignedChunks(m))
          && forall path :: path in targets ==> ChunkPresent(c, targets[path].chunk))
  }

  datatype Entry = RetryEntry(eventIndex: nat, retry: Retry) | OperationEntry(operation: Operation) | ResultEntry(result: string)

  datatype TraceRow = TraceRow(sequence: nat, entry: Entry)

  datatype Review = Review(threadId: string, usage: Usage, retryCount: nat, result: string, trace: seq<TraceRow>)

  function Entries(s: State, result: string): seq<Entry> {
    MapEach((r: (nat, Retry)) => RetryEntry(r.0, r.1), s.retries) + MapEach(o => OperationEntry(o), s.operations) + [ResultEntry(result)]
  }

  function Numbered(entries: seq<Entry>): seq<TraceRow> {
    seq(|entries|, i requires 0 <= i < |entries| => TraceRow(i + 1, entries[i]))
  }

  function Conclude(x: Context, m: ShardManifest, s: State): Option<Review> {
    if !Settled(s) || !EachReadOnce(s.operations, m) then None
    else
      match x.judge(s.messages[0])
      case None => None
      case Some(result) => Some(Review(s.threadIds[0], s.usage.value, |s.retries|, result, Numbered(Entries(s, result))))
  }

  /** `_replay` on parsed events. */
  function Replayed(x: Context, m: ShardManifest, events: seq<Object>): Option<Review> {
    if !ProjectedCacheOk(x.cache, m) || !OrderedLifecycle(events) then None
    else
      match Steps(x, events)
      case None => None
      case Some(steps) =>
        match Run(steps)
        case None => None
        case Some(s) => Conclude(x, m, s)
  }

  // ---- The loop ----

  function Consumed(x: Context, s: State, e: Object, index: nat): Option<State> {
    match Parse(x, e)
    case None => None
    case Some(step) => Next(s, step, index)
  }

  function RunEvents(x: Context, events: seq<Object>): Option<State> {
    match Steps(x, events)
    case None => None
    case Some(steps) => Run(steps)
  }

  lemma RunSnoc(x: Context, events: seq<Object>, e: Object)
    ensures RunEvents(x, events + [e]) ==
              match RunEvents(x, events)
              case None => None
              case Some(s) => Consumed(x, s, e, |events| + 1)
  {
    hide Parse, Next;
    var all := events + [e];
    if Steps(x, events).Some? && Parse(x, e).Some? {
      assert forall i :: 0 <= i < |all| ==> Parse(x, all[i]).Some? by {
        forall i | 0 <= i < |all| ensures Parse(x, all[i]).Some? { if i < |events| { assert all[i] == events[i]; } }
      }
      var steps := Steps(x, all).value;
      assert steps[..|events|] == Steps(x, events).value;
    } else if Steps(x, events).Some? {
      assert all[|events|] == e;
    } else {
      var i :| 0 <= i < |events| && Parse(x, events[i]) == None;
      assert all[i] == events[i];
    }
  }

  lemma {:induction false} RunFails(x: Context, events: seq<Object>, n: nat)
    requires n <= |events| && RunEvents(x, events[..n]) == None
    ensures RunEvents(x, events) == None
    decreases |events| - n
  {
    hide RunEvents;
    if n == |events| {
      assert events[..n] == events;
    } else {
      assert events[..n + 1] == events[..n] + [events[n]];
      RunSnoc(x, events[..n], events[n]);
      RunFails(x, events, n + 1);
    }
  }

  method ConsumeCommand(x: Context, s: State, item: Object, starting: bool, index: nat, thread: Option<string>, invocation: Option<string>)
    returns (r: Option<State>)
    ensures r == match ParseCommand(x, item, starting)
                 case None => None
                 case Some(a) => Next(s, Step(thread, invocation, a), index)
  {
    hide CommandOperations, IsCallId, Identified;
    if s.finalMessageSeen { return None; }
    var callId := CallId(item);
    if !callId.Str? || !IsCallId(callId.s) { return None; }
    var command := Get(item, "command");
    if !command.Str? { return None; }
    var identified := Identified(s, Step(thread, invocation, Reasoning));
    IdentityOnly(s, thread, invocation);
    if starting {
      if callId.s in s.started || callId.s in s.completed { return None; }
      if x.cache.split(command.s) == None { return None; }
      return Some(identified.(started := s.started[callId.s := command.s]));
    }
    if callId.s in s.completed || callId.s !in s.started || s.started[callId.s] != command.s { return None; }
    if !Succeeded(item) { return None; }
    var output := CommandOutput(item);
    if output == None { return None; }
    var operations := CommandOperations(x.cache, command.s, output.value);
    if operations == None { return None; }
    return Some(identified.(completed := s.completed + {callId.s}, operations := s.operations + operations.value));
  }

  /** Recording identities touches nothing else. */
  lemma IdentityOnly(s: State, thread: Option<string>, invocation: Option<string>)
    ensures forall a :: Identified(s, Step(thread, invocation, a)) == Identified(s, Step(thread, invocation, Reasoning))
    ensures var t := Identified(s, Step(thread, invocation, Reasoning));
      t == s.(referenced := t.referenced, invocations := t.invocations)
  {
  }

  method ConsumeItem(x: Context, s: State, item: Object, starting: bool, index: nat, thread: Option<string>, invocation: Option<string>)
    returns (r: Option<State>)
    ensures r == match ParseItem(x, item, starting)
                 case None => None
                 case Some(a) => Next(s, Step(thread, invocation, a), index)
  {
    hide ParseCommand, ParseMessage, Identified;
    if !ClosedItem(item) { return None; }
    var kind := item["type"].s;
    var identified := Identified(s, Step(thread, invocation, Reasoning));
    IdentityOnly(s, thread, invocation);
    if kind == "agent_message" {
      if starting || s.finalMessageSeen {
        MessageKind(item);
        return None;
      }
      var text := ContentText(Obj(item));
      MessageKind(item);
      if text == None || StripText(text.value) == "" { return None; }
      return Some(identified.(messages := s.messages + [StripText(text.value)], finalMessageSeen := true));
    }
    if kind == "reasoning" {
      return if s.finalMessageSeen then None else Some(identified);
    }
    r := ConsumeCommand(x, s, item, starting, index, thread, invocation);
  }

  lemma MessageKind(item: Object)
    ensures ParseMessage(item) ==
              match ContentText(Obj(item))
              case None => None
              case Some(text) => if StripText(text) == "" then None else Some(FinalMessage(StripText(text)))
  {
  }

  method ConsumeNotice(x: Context, s: State, e: Object, index: nat) returns (r: Option<State>)
    requires Get(e, "type") == Str("error")
    ensures r == Consumed(x, s, e, index)
  {
    hide ParseRetry;
    if s.finalMessageSeen {
      RetryKind(x, e);
      return None;
    }
    var notice := ParseRetry(x, e);
    RetryKind(x, e);
    if notice == None { return None; }
    var retries := s.retries + [(index, notice.value.retry)];
    if |retries| > MAX_RECOVERABLE_TRANSPORT_RETRY_EVENTS { return None; }
    return Some(s.(retries := retries));
  }

  lemma RetryKind(x: Context, e: Object)
    ensures ParseRetry(x, e).Some? ==> ParseRetry(x, e).value.TransportRetry?
  {
  }

  method Consume(x: Context, s: State, e: Object, index: nat) returns (r: Option<State>)
    ensures r == Consumed(x, s, e, index)
  {
    hide NoCompaction, ParseItem, ParseUsage, IsToken, Identified, ParseRetry;
    var kind := Get(e, "type");
    if kind == Str("error") {
      r := ConsumeNotice(x, s, e, index);
      return;
    }
    if !kind.Str? || !ClosedEvent(e, kind.s, x.fold) || !InvocationOk(e) { return None; }
    var thread, invocation := ThreadOf(e), InvocationOf(e);
    var identified := Identified(s, Step(thread, invocation, Reasoning));
    IdentityOnly(s, thread, invocation);
    if kind.s == "thread.started" {
      var id := Get(e, "thread_id");
      if !id.Str? || !IsToken(id.s) { return None; }
      return Some(identified.(threadIds := s.threadIds + [id.s]));
    }
    if kind.s == "turn.started" { return Some(identified.(turnStarted := s.turnStarted + 1)); }
    if kind.s == "turn.completed" {
      if s.usage.Some? { return None; }
      var usage := ParseUsage(Get(e, "usage"));
      if usage == None { return None; }
      return Some(identified.(turnCompleted := s.turnCompleted + 1, usage := usage));
    }
    var item := Get(e, "item");
    if !item.Obj? { return None; }
    r := ConsumeItem(x, s, item.fields, kind.s == "item.started", index, thread, invocation);
  }

  method ConsumeAll(x: Context, events: seq<Object>) returns (r: Option<State>)
    ensures r == RunEvents(x, events)
  {
    hide RunEvents, Consumed;
    var s := INITIAL;
    var i := 0;
    assert events[..0] == [];
    NothingRun(x);
    while i < |events|
      invariant 0 <= i <= |events|
      invariant RunEvents(x, events[..i]) == Some(s)
    {
      var next := Consume(x, s, events[i], i + 1);
      RunSnoc(x, events[..i], events[i]);
      assert events[..i + 1] == events[..i] + [events[i]];
      if next == None {
        RunFails(x, events, i + 1);
        return None;
      }
      s := next.value;
      i := i + 1;
    }
    assert events[..i] == events;
    return Some(s);
  }

  lemma NothingRun(x: Context)
    ensures RunEvents(x, []) == Some(INITIAL)
  {
  }

  // ---- The chunk inventory ----

  lemma DistinctSnoc(chunks: seq<ChunkRow>, c: ChunkRow)
    ensures DistinctPaths(chunks + [c]) <==> DistinctPaths(chunks) && c.path !in ChunkPaths(chunks)
    ensures ChunkPaths(chunks + [c]) == ChunkPaths(chunks) + {c.path}
  {
    var all := chunks + [c];
    assert all[..|chunks|] == chunks && all[|chunks|] == c;
    if DistinctPaths(all) {
      forall i, j | 0 <= i < j < |chunks| ensures chunks[i].path != chunks[j].path {
        assert all[i].path != all[j].path;
      }
    }
  }

  lemma DistinctPrefix(a: seq<ChunkRow>, b: seq<ChunkRow>)
    requires DistinctPaths(a + b)
    ensures DistinctPaths(a)
  {
    forall i, j | 0 <= i < j < |a| ensures a[i].path != a[j].path {
      assert (a + b)[i] == a[i] && (a + b)[j] == a[j];
    }
  }

  method AddPaths(chunks: seq<ChunkRow>, seen0: set<string>, ghost done: seq<ChunkRow>) returns (ok: bool, seen: set<string>)
    requires DistinctPaths(done) && seen0 == ChunkPaths(done)
    ensures ok <==> DistinctPaths(done + chunks)
    ensures ok ==> seen == ChunkPaths(done + chunks)
  {
    hide DistinctPaths, ChunkPaths;
    seen := seen0;
    var i := 0;
    assert done + chunks[..0] == done;
    while i < |chunks|
      invariant 0 <= i <= |chunks|
      invariant DistinctPaths(done + chunks[..i]) && seen == ChunkPaths(done + chunks[..i])
    {
      assert done + chunks[..i + 1] == (done + chunks[..i]) + [chunks[i]];
      DistinctSnoc(done + chunks[..i], chunks[i]);
      if chunks[i].path in seen {
        assert done + chunks == (done + chunks[..i + 1]) + chunks[i + 1..];
        if DistinctPaths(done + chunks) { DistinctPrefix(done + chunks[..i + 1], chunks[i + 1..]); }
        return false, seen;
      }
      seen := seen + {chunks[i].path};
      i := i + 1;
    }
    assert chunks[..i] == chunks;
    ok := true;
  }

  method AddRows<T>(rows: seq<T>, chunksOf: T -> seq<ChunkRow>, needed: bool, seen0: set<string>, ghost done: seq<ChunkRow>)
    returns (ok: bool, seen: set<string>)
    requires DistinctPaths(done) && seen0 == ChunkPaths(done)
    ensures ok <==> (needed ==> forall i :: 0 <= i < |rows| ==> chunksOf(rows[i]) != []) && DistinctPaths(done + FlatMap(chunksOf, rows))
    ensures ok ==> seen == ChunkPaths(done + FlatMap(chunksOf, rows))
  {
    hide DistinctPaths, ChunkPaths;
    seen := seen0;
    var i := 0;
    assert rows[..0] == [] && done + FlatMap(chunksOf, rows[..0]) == done;
    while i < |rows|
      invariant 0 <= i <= |rows|
      invariant needed ==> forall k :: 0 <= k < i ==> chunksOf(rows[k]) != []
      invariant DistinctPaths(done + FlatMap(chunksOf, rows[..i])) && seen == ChunkPaths(done + FlatMap(chunksOf, rows[..i]))
    {
      var chunks := chunksOf(rows[i]);
      if needed && chunks == [] { return false, seen; }
      FlatMapPrefix(chunksOf, rows, i);
      FlatMapSplit(chunksOf, rows, i + 1);
      ConcatAssociates(done, FlatMap(chunksOf, rows[..i]), chunks);
      ok, seen := AddPaths(chunks, seen, done + FlatMap(chunksOf, rows[..i]));
      if !ok {
        ConcatAssociates(done, FlatMap(chunksOf, rows[..i + 1]), FlatMap(chunksOf, rows[i + 1..]));
        if DistinctPaths(done + FlatMap(chunksOf, rows)) {
          DistinctPrefix(done + FlatMap(chunksOf, rows[..i + 1]), FlatMap(chunksOf, rows[i + 1..]));
        }
        return;
      }
      i := i + 1;
    }
    assert rows[..i] == rows;
    ok := true;
  }

  /** `_chunk_inventory`: every assigned chunk path, once, and no source without chunks. */
  method ChunkInventory(m: ShardManifest) returns (ok: bool, paths: set<string>)
    ensures ok <==> (forall i :: 0 <= i < |m.files| ==> m.files[i].chunks != []) && DistinctPaths(AssignedChunks(m))
    ensures ok ==> paths == ChunkPaths(AssignedChunks(m))
  {
    hide DistinctPaths, ChunkPaths;
    var sources, citations := FlatMap(FileChunks, m.files), FlatMap(CitationChunks, m.citations);
    NoPaths();
    ok, paths := AddRows(m.files, FileChunks, true, {}, []);
    assert [] + sources == sources;
    assert (forall i :: 0 <= i < |m.files| ==> FileChunks(m.files[i]) != []) <==> forall i :: 0 <= i < |m.files| ==> m.files[i].chunks != [];
    if !ok {
      if DistinctPaths(sources + citations) { DistinctPrefix(sources, citations); }
      return;
    }
    ok, paths := AddRows(m.citations, CitationChunks, false, paths, sources);
  }

  lemma NoPaths()
    ensures DistinctPaths([]) && ChunkPaths([]) == {}
  {
  }

  method ValidateProjectedCache(c: Cache, m: ShardManifest) returns (ok: bool)
    ensures ok <==> ProjectedCacheOk(c, m)
  {
    hide DistinctPaths, ChunkPaths, Keyed, AllTargets, ChunkPresent;
    var p := c.manifest;
    if p.files != m.files || p.citations != m.citations || p.chunkContract != m.chunkContract { return false; }
    if p.protocolId != m.protocolId || p.snapshotSha256 != m.snapshotSha256 || p.planSha256 != m.planSha256 { return false; }
    if p.shardId != m.shardId || p.citationSurfaceSha256 != m.citationSurfaceSha256 || p.fullSurfaceSha256 != m.fullSurfaceSha256 {
      return false;
    }
    var paths;
    ok, paths := ChunkInventory(m);
    if !ok { return; }
    var targets := CacheTargets(p);
    if targets == None || targets.value.Keys != paths { return false; }
    ok := forall path :: path in targets.value ==> ChunkPresent(c, targets.value[path].chunk);
  }

  // ---- The trace ----

  /** Rows are numbered from 1 as they are appended. */
  method EmitTrace(s: State, result: string) returns (rows: seq<TraceRow>)
    ensures rows == Numbered(Entries(s, result))
  {
    var entries := Entries(s, result);
    rows := [];
    var i := 0;
    while i < |s.retries|
      invariant 0 <= i <= |s.retries| && |rows| == i
      invariant forall k :: 0 <= k < i ==> rows[k] == TraceRow(k + 1, entries[k])
    {
      rows := rows + [TraceRow(|rows| + 1, RetryEntry(s.retries[i].0, s.retries[i].1))];
      i := i + 1;
    }
    var n := |s.retries|;
    i := 0;
    while i < |s.operations|
      invariant 0 <= i <= |s.operations| && |rows| == n + i
      invariant forall k :: 0 <= k < n + i ==> rows[k] == TraceRow(k + 1, entries[k])
    {
      rows := rows + [TraceRow(|rows| + 1, OperationEntry(s.operations[i]))];
      i := i + 1;
    }
    rows := rows + [TraceRow(|rows| + 1, ResultEntry(result))];
  }

  method Replay(x: Context, m: ShardManifest, events: seq<Object>) returns (r: Option<Review>)
    ensures r == Replayed(x, m, events)
  {
    hide RunEvents, ProjectedCacheOk, OrderedLifecycle, Settled, EachReadOnce, Entries, Numbered;
    ReplayedByEvents(x, m, events);
    var projected := ValidateProjectedCache(x.cache, m);
    if !projected || !OrderedLifecycle(events) { return None; }
    var final := ConsumeAll(x, events);
    if final == None { return None; }
    var s := final.value;
    if !Settled(s) || !EachReadOnce(s.operations, m) { return None; }
    SettledFields(s);
    var result := x.judge(s.messages[0]);
    if result == None { return None; }
    var trace := EmitTrace(s, result.value);
    return Some(Review(s.threadIds[0], s.usage.value, |s.retries|, result.value, trace));
  }

  lemma SettledFields(s: State)
    requires Settled(s)
    ensures |s.threadIds| == 1 && |s.messages| == 1 && s.usage.Some?
  {
  }

  lemma ReplayedByEvents(x: Context, m: ShardManifest, events: seq<Object>)
    ensures Replayed(x, m, events) ==
              if !ProjectedCacheOk(x.cache, m) || !OrderedLifecycle(events) then None
              else
                match RunEvents(x, events)
                case None => None
                case Some(s) => Conclude(x, m, s)
  {
  }
}

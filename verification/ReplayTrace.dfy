/** What an accepted replay returns, said of the raw events: one trace row for each transport notice and for each
    operation of each completed command, then the result; and whose thread, usage and result those are. */
module ReplayTrace {
  import opened Sequences
  import opened Json
  import opened CacheModel
  import opened Commands
  import opened Replay
  import opened Lifecycle
  import opened Coverage
  import opened Sanitize

  // ---- What the raw events say ----

  /** The transport notice of one event, if it is one. */
  function NoticeOf(x: Context, e: Object): Option<Retry> {
    if Get(e, "type") == Str("error") && Get(e, "message").Str? then x.retry(Get(e, "message").s) else None
  }

  /** The notices among the first `n` events, each with its position counted from 1. */
  function Notices(x: Context, events: seq<Object>, n: nat): seq<(nat, Retry)>
    requires n <= |events|
  {
    if n == 0 then []
    else
      Notices(x, events, n - 1) + match NoticeOf(x, events[n - 1])
                                  case Some(r) => [(n, r)]
                                  case None => []
  }

  /** The operations of one event: those its literal command must perform, when it completes one. */
  function OperationsOf(x: Context, e: Object): seq<Operation> {
    if !CompletedCommand(e) || !Get(Get(e, "item").fields, "command").Str? then []
    else
      match Unwrap(Get(Get(e, "item").fields, "command").s, x.cache.split)
      case None => []
      case Some(inner) =>
        match Expected(x.cache, inner)
        case None => []
        case Some(expected) => expected.operations
  }

  /** The text of an agent message event, without the white space around it. */
  function MessageText(e: Object): Option<string> {
    if !Get(e, "item").Obj? then None
    else
      match ContentText(Get(e, "item"))
      case None => None
      case Some(text) => Some(StripText(text))
  }

  // ---- One event ----

  lemma NoticeParsed(x: Context, e: Object)
    requires Parse(x, e).Some?
    ensures var a := Parse(x, e).value.action;
      NoticeOf(x, e) == if a.TransportRetry? then Some(a.retry) else None
  {
    hide NoCompaction, ParseUsage, IsToken, ParseItem;
    var item := Get(e, "item");
    if item.Obj? && Get(e, "type") != Str("error") { ParsedKind(x, e); NoticeKind(x, e); }
  }

  lemma NoticeKind(x: Context, e: Object)
    requires Parse(x, e).Some? && Get(e, "type") != Str("error")
    ensures !Parse(x, e).value.action.TransportRetry?
  {
    hide NoCompaction, ParseUsage, IsToken, ParseItem;
    var item := Get(e, "item");
    if item.Obj? { ItemKind(x, item.fields, Get(e, "type") == Str("item.started")); }
  }

  lemma OperationsParsed(x: Context, e: Object)
    requires Parse(x, e).Some?
    ensures OperationsOf(x, e) == StepOperations(Parse(x, e).value)
  {
    hide NoCompaction, ParseUsage, IsToken, IsCallId, ContentText, CommandOperations, Expected, Unwrap;
    if CompletedCommand(e) {
      var item := e["item"].fields;
      AcceptedOutputs(x.cache, item["command"].s, CommandOutput(item).value);
    }
  }

  lemma MessageParsed(x: Context, e: Object)
    requires Parse(x, e).Some? && Finals(Parse(x, e).value)
    ensures Get(e, "type") == Str("item.completed") && Get(e, "item").Obj?
    ensures Get(Get(e, "item").fields, "type") == Str("agent_message")
    ensures MessageText(e) == Some(Parse(x, e).value.action.text)
  {
    hide NoCompaction, ParseUsage, IsToken, IsCallId, CommandOperations, ContentText, StripText;
  }

  lemma UsageParsed(x: Context, e: Object)
    requires Parse(x, e).Some? && Closes(Parse(x, e).value)
    ensures Get(e, "usage").Obj? && UsageFields(Get(e, "usage").fields, Parse(x, e).value.action.usage)
  {
    hide NoCompaction, IsToken, ParseItem;
    ParsedKind(x, e);
  }

  predicate UsageFields(fields: Object, u: Usage) {
    && fields == map["input_tokens" := Int(u.input), "cached_input_tokens" := Int(u.cachedInput),
                     "output_tokens" := Int(u.output), "reasoning_output_tokens" := Int(u.reasoningOutput)]
    && u.cachedInput <= u.input && u.reasoningOutput <= u.output
  }

  lemma ThreadParsed(x: Context, e: Object)
    requires Parse(x, e).Some? && Threads(Parse(x, e).value)
    ensures Get(e, "thread_id") == Str(Parse(x, e).value.action.threadId)
  {
    hide NoCompaction, ParseItem, ParseUsage;
    ParsedKind(x, e);
  }

  // ---- The run ----

  /** What the state remembers of the steps: notices with positions, messages, and the last usage. */
  predicate Remembers(steps: seq<Step>, s: State) {
    && s.retries == NoticeRows(steps, |steps|) && s.messages == FlatMap(Texts, steps)
    && (s.usage.Some? ==> exists k :: 0 <= k < |steps| && Closes(steps[k]) && steps[k].action.usage == s.usage.value)
  }

  function NoticeRows(steps: seq<Step>, n: nat): seq<(nat, Retry)>
    requires n <= |steps|
  {
    if n == 0 then []
    else NoticeRows(steps, n - 1) + if Retries(steps[n - 1]) then [(n, steps[n - 1].action.retry)] else []
  }

  function Texts(step: Step): seq<string> { if Finals(step) then [step.action.text] else [] }

  lemma {:induction false} NoticeRowsPrefix(steps: seq<Step>, m: nat, n: nat)
    requires n <= m <= |steps|
    ensures NoticeRows(steps[..m], n) == NoticeRows(steps, n)
  {
    if n > 0 { NoticeRowsPrefix(steps, m, n - 1); }
  }

  lemma RemembersNext(steps: seq<Step>, s: State, step: Step)
    requires Remembers(steps, s)
    ensures Remembers(steps + [step], Effect(Identified(s, step), step.action, |steps| + 1))
  {
    var all := steps + [step];
    assert all[..|steps|] == steps && all[|steps|] == step;
    NoticeRowsPrefix(all, |steps|, |steps|);
    FlatMapSnoc(Texts, steps, step);
    if s.usage.Some? {
      var k :| 0 <= k < |steps| && Closes(steps[k]) && steps[k].action.usage == s.usage.value;
      assert all[k] == steps[k];
    }
  }

  lemma {:induction false} RunRemembers(steps: seq<Step>)
    requires Run(steps).Some?
    ensures Remembers(steps, Run(steps).value)
  {
    hide Remembers, Enabled, Effect;
    if steps == [] {
      NothingRemembered();
    } else {
      var front, last := steps[..|steps| - 1], steps[|steps| - 1];
      RunRemembers(front);
      assert front + [last] == steps;
      RemembersNext(front, Run(front).value, last);
    }
  }

  lemma NothingRemembered()
    ensures Remembers([], INITIAL)
  {
  }

  lemma {:induction false} RawNotices(x: Context, events: seq<Object>, steps: seq<Step>, n: nat)
    requires |steps| == |events| && n <= |events|
    requires forall i :: 0 <= i < |events| ==> Parse(x, events[i]) == Some(steps[i])
    ensures Notices(x, events, n) == NoticeRows(steps, n)
  {
    hide Parse, NoticeOf;
    if n > 0 {
      RawNotices(x, events, steps, n - 1);
      NoticeParsed(x, events[n - 1]);
    }
  }

  lemma {:induction false} RawOperations(x: Context, events: seq<Object>, steps: seq<Step>)
    requires |steps| == |events|
    requires forall i :: 0 <= i < |events| ==> Parse(x, events[i]) == Some(steps[i])
    ensures FlatMap(e => OperationsOf(x, e), events) == FlatMap(StepOperations, steps)
  {
    hide Parse, OperationsOf, StepOperations;
    if events != [] {
      RawOperations(x, events[1..], steps[1..]);
      OperationsParsed(x, events[0]);
    }
  }

  // ---- The review ----

  /** The rows are the notices, then the operations, then the result, numbered from 1. */
  predicate TraceOf(trace: seq<TraceRow>, notices: seq<(nat, Retry)>, operations: seq<Operation>, result: string) {
    && |trace| == |notices| + |operations| + 1
    && (forall i :: 0 <= i < |notices| ==> trace[i] == TraceRow(i + 1, RetryEntry(notices[i].0, notices[i].1)))
    && (forall i :: 0 <= i < |operations| ==> trace[|notices| + i] == TraceRow(|notices| + i + 1, OperationEntry(operations[i])))
    && trace[|trace| - 1] == TraceRow(|trace|, ResultEntry(result))
  }

  lemma NumberedTrace(s: State, result: string)
    ensures TraceOf(Numbered(Entries(s, result)), s.retries, s.operations, result)
  {
  }

  /** An accepted review, in terms of the settled state. */
  lemma ReviewOfState(x: Context, m: ShardManifest, events: seq<Object>) returns (steps: seq<Step>, s: State)
    requires Replayed(x, m, events).Some?
    ensures Steps(x, events) == Some(steps) && Run(steps) == Some(s)
    ensures |steps| == |events| && forall i :: 0 <= i < |events| ==> Parse(x, events[i]) == Some(steps[i])
    ensures |s.threadIds| == 1 && |s.messages| == 1 && s.usage.Some? && x.judge(s.messages[0]).Some?
    ensures var result := x.judge(s.messages[0]).value;
      Replayed(x, m, events).value == Review(s.threadIds[0], s.usage.value, |s.retries|, result, Numbered(Entries(s, result)))
  {
    hide Parse, ProjectedCacheOk, EachReadOnce, Numbered, Entries, Run;
    steps := Steps(x, events).value;
    s := Run(steps).value;
  }

  /** The trace of an accepted stream has one row for each notice, one for each operation of each completed command, in
      stream order, and one for the result. */
  lemma TraceShowsStream(x: Context, m: ShardManifest, events: seq<Object>)
    requires Replayed(x, m, events).Some?
    ensures var r := Replayed(x, m, events).value;
      && TraceOf(r.trace, Notices(x, events, |events|), FlatMap(e => OperationsOf(x, e), events), r.result)
      && r.retryCount == |Notices(x, events, |events|)|
  {
    hide Parse, Replayed, Steps, Run, Numbered, Entries, TraceOf, OperationsOf, StepOperations;
    var steps, s := ReviewOfState(x, m, events);
    RunRemembers(steps);
    RunOperations(steps);
    RawNotices(x, events, steps, |events|);
    RawOperations(x, events, steps);
    NumberedTrace(s, x.judge(s.messages[0]).value);
  }

  /** The result is what the judge says of the last message but one event, the usage is the four fields of the last event,
      and the thread is the one the first event starts. */
  predicate ReviewOf(x: Context, events: seq<Object>, r: Review) {
    var n := |events|;
    && n >= 4
    && MessageText(events[n - 2]).Some? && x.judge(MessageText(events[n - 2]).value) == Some(r.result)
    && Get(events[n - 2], "item").Obj? && Get(Get(events[n - 2], "item").fields, "type") == Str("agent_message")
    && Get(events[n - 1], "usage").Obj? && UsageFields(Get(events[n - 1], "usage").fields, r.usage)
    && Get(events[0], "thread_id") == Str(r.threadId)
  }

  lemma ReviewIsOfStream(x: Context, m: ShardManifest, events: seq<Object>)
    requires Replayed(x, m, events).Some?
    ensures ReviewOf(x, events, Replayed(x, m, events).value)
  {
    hide Parse, Replayed, Steps, Run, Numbered, Entries, MessageText, UsageFields, CallsPaired, FlatMap;
    ReplayLifecycle(x, m, events);
    var steps, s := ReviewOfState(x, m, events);
    var n := |events|;
    RunRemembers(steps);
    RunIdentities(steps);
    StepKinds(x, events);
    MessageParsed(x, events[n - 2]);
    OneText(steps, n - 2);
    UsageParsed(x, events[n - 1]);
    ThreadParsed(x, events[0]);
    OneThread(steps);
  }

  lemma {:induction false} OneText(steps: seq<Step>, k: nat)
    requires k < |steps| && Finals(steps[k]) && |FlatMap(Texts, steps)| == 1
    ensures FlatMap(Texts, steps) == [steps[k].action.text]
  {
    FlatMember(Texts, steps, steps[k].action.text);
    assert steps[k].action.text in Texts(steps[k]);
  }

  lemma OneThread(steps: seq<Step>)
    requires steps != [] && Threads(steps[0]) && |FlatMap(StartedThreads, steps)| == 1
    ensures FlatMap(StartedThreads, steps) == [steps[0].action.threadId]
  {
    assert FlatMap(StartedThreads, steps) == StartedThreads(steps[0]) + FlatMap(StartedThreads, steps[1..]);
  }
}

/** Removing citation text from a raw stream (`sanitize_shard_raw_stream`), and why replaying
    the sanitised stream decides and yields exactly what replaying the original does. */
module Sanitize {
  import opened Sequences
  import opened Utf8
  import opened CacheModel
  import opened Json
  import opened Projection
  import opened Commands
  import opened Replay

  /** Writing JSON: a canonical line per event, and the escaped body of one string literal. */
  datatype Printer = Printer(render: seq<Object> -> Bytes, escape: string -> Bytes)

  predicate CompletedCommand(e: Object) {
    && Get(e, "type") == Str("item.completed") && Get(e, "item").Obj?
    && Get(Get(e, "item").fields, "type") == Str("command_execution")
  }

  /** The item of a completed command with its output replaced. */
  function WithOutput(e: Object, output: string): Object
    requires CompletedCommand(e)
  {
    e["item" := Obj(e["item"].fields["aggregated_output" := Str(output)])]
  }

  /** One event: unchanged, or its citation output turned into a marker. */
  function SanitizeEvent(c: Cache, e: Object): Option<Object> {
    if !CompletedCommand(e) then Some(e)
    else
      var item := e["item"].fields;
      if !Succeeded(item) || CommandOutput(item) == None || !Get(item, "command").Str? then None
      else
        match Unwrap(item["command"].s, c.split)
        case None => None
        case Some(inner) =>
          match Expected(c, inner)
          case None => None
          case Some(expected) =>
            if CommandOutput(item).value != expected.output then None
            else if expected.citationContent then Some(WithOutput(e, Marker(expected.output, c.sha)))
            else Some(e)
  }

  predicate Contains(haystack: Bytes, needle: Bytes) {
    exists i :: 0 <= i <= |haystack| && StartsWith(haystack[i..], needle)
  }

  /** The retained lines contain the payload, plain or escaped. */
  predicate Retained(payload: Bytes, lines: Bytes, printer: Printer) {
    && payload != []
    && (Contains(lines, payload)
        || (WellFormed(payload) && printer.escape(Decode(payload)) != [] && Contains(lines, printer.escape(Decode(payload)))))
  }

  predicate Clean(c: Cache, lines: Bytes, printer: Printer) {
    var chunks := FlatMap(CitationChunks, c.manifest.citations);
    forall i :: 0 <= i < |chunks| ==> Readable(c.tree, chunks[i].path) && !Retained(c.tree.files[chunks[i].path], lines, printer)
  }

  function Rewritten(c: Cache, events: seq<Object>): Option<seq<Object>> {
    Collect((e: Object) => SanitizeEvent(c, e), events)
  }

  function Sanitized(c: Cache, events: seq<Object>, printer: Printer): Option<seq<Object>> {
    match Rewritten(c, events)
    case None => None
    case Some(out) => if Clean(c, printer.render(out), printer) then Some(out) else None
  }

  /** The event loop, overwriting outputs in place. A refused stream is discarded by the caller. */
  method RewriteInPlace(c: Cache, events: array<Object>) returns (ok: bool)
    modifies events
    ensures ok <==> Rewritten(c, old(events[..])).Some?
    ensures ok ==> Some(events[..]) == Rewritten(c, old(events[..]))
  {
    hide SanitizeEvent;
    ghost var before := events[..];
    var i := 0;
    while i < events.Length
      invariant 0 <= i <= events.Length
      invariant forall k :: 0 <= k < i ==> SanitizeEvent(c, before[k]) == Some(events[k])
      invariant forall k :: i <= k < events.Length ==> events[k] == before[k]
    {
      var rewritten := RewriteEvent(c, events[i]);
      if rewritten == None {
        assert before[i] == events[i];
        RewriteFails(c, before, i);
        return false;
      }
      events[i] := rewritten.value;
      i := i + 1;
    }
    CollectIs((e: Object) => SanitizeEvent(c, e), before, events[..]);
    ok := true;
  }

  lemma RewriteFails(c: Cache, events: seq<Object>, i: nat)
    requires i < |events| && SanitizeEvent(c, events[i]) == None
    ensures Rewritten(c, events) == None
  {
    hide SanitizeEvent;
  }

  method RewriteEvent(c: Cache, e: Object) returns (r: Option<Object>)
    ensures r == SanitizeEvent(c, e)
  {
    hide Expected, Unwrap, Marker, CallId;
    if Get(e, "type") != Str("item.completed") { return Some(e); }
    if !Get(e, "item").Obj? || Get(Get(e, "item").fields, "type") != Str("command_execution") { return Some(e); }
    var item := e["item"].fields;
    if !Succeeded(item) { return None; }
    var output := CommandOutput(item);
    if output == None || !Get(item, "command").Str? { return None; }
    var inner := Unwrap(item["command"].s, c.split);
    if inner == None { return None; }
    var expected := ExpectedCommand(c, inner.value);
    if expected == None || output.value != expected.value.output { return None; }
    if expected.value.citationContent {
      return Some(e["item" := Obj(item["aggregated_output" := Str(Marker(expected.value.output, c.sha))])]);
    }
    return Some(e);
  }

  method SanitizeStream(c: Cache, events: array<Object>, printer: Printer) returns (r: Option<Bytes>)
    modifies events
    ensures r == match Sanitized(c, old(events[..]), printer)
                 case None => None
                 case Some(out) => Some(printer.render(out))
  {
    hide SanitizeEvent, Retained;
    var rewritten := RewriteInPlace(c, events);
    if !rewritten { return None; }
    var lines := printer.render(events[..]);
    var chunks := FlatMap(CitationChunks, c.manifest.citations);
    var i := 0;
    while i < |chunks|
      invariant 0 <= i <= |chunks|
      invariant events[..] == Rewritten(c, old(events[..])).value
      invariant forall k :: 0 <= k < i ==> Readable(c.tree, chunks[k].path) && !Retained(c.tree.files[chunks[k].path], lines, printer)
    {
      if !Readable(c.tree, chunks[i].path) || Retained(c.tree.files[chunks[i].path], lines, printer) { return None; }
      i := i + 1;
    }
    return Some(lines);
  }

  // ---- Replay does not see the difference ----

  lemma RewrittenCompaction(e: Object, output: string, fold: string -> string)
    requires CompletedCommand(e) && CommandOutput(e["item"].fields).Some?
    ensures NoCompaction(Obj(WithOutput(e, output)), fold) <==> NoCompaction(Obj(e), fold)
  {
    hide Mentions;
    var item, item' := e["item"].fields, WithOutput(e, output)["item"].fields;
    assert item'.Keys == item.Keys && WithOutput(e, output).Keys == e.Keys;
    assert NoCompaction(Obj(item'), fold) <==> NoCompaction(Obj(item), fold) by {
      forall k | k in item ensures NoCompaction(item'[k], fold) <==> NoCompaction(item[k], fold) {
        if k == "aggregated_output" { TextHasNoKeys(item[k], fold); TextHasNoKeys(item'[k], fold); }
      }
    }
    forall k | k in e ensures NoCompaction(WithOutput(e, output)[k], fold) <==> NoCompaction(e[k], fold) {
      if k == "item" { assert e[k] == Obj(item); }
    }
  }

  lemma TextHasNoKeys(v: Value, fold: string -> string)
    requires v.Str?
    ensures NoCompaction(v, fold)
  {
  }

  lemma SameParsedCommand(x: Context, item: Object, expected: Command)
    requires CommandOutput(item) == Some(expected.output) && Succeeded(item) && Get(item, "command").Str?
    requires Unwrap(item["command"].s, x.cache.split).Some?
    requires Expected(x.cache, Unwrap(item["command"].s, x.cache.split).value) == Some(expected)
    requires expected.citationContent
    ensures var marked := item["aggregated_output" := Str(Marker(expected.output, x.cache.sha))];
      && (ParseCommand(x, marked, false).Some? <==> ParseCommand(x, item, false).Some?)
      && (ParseCommand(x, item, false).Some? ==>
            && ParseCommand(x, item, false).value == CommandCompleted(CallId(item).s, item["command"].s, expected.output, expected.operations)
            && ParseCommand(x, marked, false).value
                 == CommandCompleted(CallId(item).s, item["command"].s, Marker(expected.output, x.cache.sha), expected.operations))
  {
    hide Expected, Unwrap, Marker, IsCallId, Truthy, CommandOperations;
    var marked := item["aggregated_output" := Str(Marker(expected.output, x.cache.sha))];
    assert CallId(marked) == CallId(item);
    AcceptedOutputs(x.cache, item["command"].s, expected.output);
    AcceptedOutputs(x.cache, item["command"].s, Marker(expected.output, x.cache.sha));
  }

  /** Two steps that differ at most in the output text they carry. */
  predicate SameButOutput(a: Option<Step>, b: Option<Step>) {
    match (a, b)
    case (None, None) => true
    case (Some(s), Some(t)) =>
      s == t || (s.action.CommandCompleted? && t.action.CommandCompleted?
                 && t == s.(action := s.action.(output := t.action.output)))
    case _ => false
  }

  lemma ItemParse(x: Context, e: Object)
    requires CompletedCommand(e) && ClosedEvent(e, "item.completed", x.fold) && InvocationOk(e)
    ensures Parse(x, e) ==
              if !ClosedItem(e["item"].fields) then None
              else
                match ParseCommand(x, e["item"].fields, false)
                case None => None
                case Some(a) => Some(Step(ThreadOf(e), InvocationOf(e), a))
  {
    hide NoCompaction, ParseCommand, IsToken;
  }

  lemma OpenParse(x: Context, e: Object)
    requires CompletedCommand(e) && !(ClosedEvent(e, "item.completed", x.fold) && InvocationOk(e))
    ensures Parse(x, e) == None
  {
    hide NoCompaction, ParseAction, IsToken;
  }

  lemma SanitizedEventParses(x: Context, e: Object)
    requires SanitizeEvent(x.cache, e).Some?
    ensures SameButOutput(Parse(x, e), Parse(x, SanitizeEvent(x.cache, e).value))
  {
    hide Parse, ParseCommand, NoCompaction, Expected, Unwrap, Marker, Truthy, IsToken;
    var e' := SanitizeEvent(x.cache, e).value;
    if e' != e {
      var item, item' := e["item"].fields, e'["item"].fields;
      var expected := Expected(x.cache, Unwrap(item["command"].s, x.cache.split).value).value;
      var marker := Marker(expected.output, x.cache.sha);
      assert e' == WithOutput(e, marker);
      RewrittenCompaction(e, marker, x.fold);
      assert e'.Keys == e.Keys && item'.Keys == item.Keys;
      SameParsedCommand(x, item, expected);
      if ClosedEvent(e, "item.completed", x.fold) && InvocationOk(e) {
        ItemParse(x, e);
        ItemParse(x, e');
      } else {
        OpenParse(x, e);
        OpenParse(x, e');
      }
    }
  }

  /** Outputs do not reach the state. */
  lemma SameEffect(s: State, a: Option<Step>, b: Option<Step>, index: nat)
    requires SameButOutput(a, b)
    ensures a.Some? ==> Next(s, a.value, index) == Next(s, b.value, index)
  {
  }

  lemma {:induction false} SameRun(x: Context, events: seq<Object>, out: seq<Object>)
    requires |out| == |events|
    requires forall i :: 0 <= i < |events| ==> SanitizeEvent(x.cache, events[i]) == Some(out[i])
    ensures RunEvents(x, out) == RunEvents(x, events)
  {
    hide RunEvents, SanitizeEvent, Parse, Next, SameButOutput;
    if events == [] {
      assert out == [];
    } else {
      var n := |events| - 1;
      SameRun(x, events[..n], out[..n]);
      assert events == events[..n] + [events[n]] && out == out[..n] + [out[n]];
      RunSnoc(x, events[..n], events[n]);
      RunSnoc(x, out[..n], out[n]);
      SanitizedEventParses(x, events[n]);
      if RunEvents(x, events[..n]).Some? { SameConsumed(x, RunEvents(x, events[..n]).value, events[n], out[n], n + 1); }
    }
  }

  lemma SameConsumed(x: Context, s: State, e: Object, e': Object, index: nat)
    requires SameButOutput(Parse(x, e), Parse(x, e'))
    ensures Consumed(x, s, e, index) == Consumed(x, s, e', index)
  {
    hide Parse, Next;
    SameEffect(s, Parse(x, e), Parse(x, e'), index);
  }

  lemma SameTypes(c: Cache, e: Object)
    requires SanitizeEvent(c, e).Some?
    ensures Get(SanitizeEvent(c, e).value, "type") == Get(e, "type")
  {
    hide Expected, Unwrap, Marker;
  }

  /** Replaying a sanitised stream gives the same acceptance, trace and result as replaying the original. */
  lemma SanitizingCommutesWithReplay(x: Context, m: ShardManifest, events: seq<Object>, printer: Printer)
    requires Sanitized(x.cache, events, printer).Some?
    ensures Replayed(x, m, Sanitized(x.cache, events, printer).value) == Replayed(x, m, events)
  {
    hide SanitizeEvent, Clean, RunEvents, ProjectedCacheOk, Conclude, Replayed;
    var out := Sanitized(x.cache, events, printer).value;
    var f := (e: Object) => SanitizeEvent(x.cache, e);
    assert forall i :: 0 <= i < |events| ==> f(events[i]) == Some(out[i]);
    forall i | 0 <= i < |events| ensures Get(out[i], "type") == Get(events[i], "type") {
      assert f(events[i]) == Some(out[i]);
      SameTypes(x.cache, events[i]);
    }
    SameRun(x, events, out);
    ReplayedByEvents(x, m, events);
    ReplayedByEvents(x, m, out);
  }

  /** The sanitised stream shows no citation text: each such output is the marker of the expected text. */
  lemma CitationsBecomeMarkers(c: Cache, events: seq<Object>, printer: Printer, i: nat)
    requires Sanitized(c, events, printer).Some? && i < |events| && CompletedCommand(events[i])
    ensures var out, item := Sanitized(c, events, printer).value[i], events[i]["item"].fields;
      && Get(item, "command").Str? && Unwrap(item["command"].s, c.split).Some?
      && Expected(c, Unwrap(item["command"].s, c.split).value).Some?
      && var e := Expected(c, Unwrap(item["command"].s, c.split).value).value;
         && CommandOutput(item) == Some(e.output)
         && out == if e.citationContent then WithOutput(events[i], Marker(e.output, c.sha)) else events[i]
  {
    hide Expected, Unwrap, Marker, Clean;
    var f := (e: Object) => SanitizeEvent(c, e);
    assert f(events[i]).Some?;
  }
}

/** What one raw event must look like to be accepted, and what it then means, field by field. */
module ParseLaws {
  import opened Sequences
  import opened Json
  import opened CacheModel
  import opened Commands
  import opened Replay
  import opened SanitizeLaws

  // ---- Compaction keys ----

  predicate Holds(s: string, word: string) { exists i, j :: 0 <= i <= j <= |s| && s[i..j] == word }

  lemma {:induction false} MentionsExactly(s: string, word: string)
    ensures Mentions(s, word) <==> Holds(s, word)
  {
    if StartsWith(s, word) {
      assert s[0..|word|] == word;
    } else if s != "" {
      MentionsExactly(s[1..], word);
      if Holds(s[1..], word) {
        var i, j :| 0 <= i <= j <= |s[1..]| && s[1..][i..j] == word;
        assert s[i + 1..j + 1] == word;
      }
      if Holds(s, word) {
        var i, j :| 0 <= i <= j <= |s| && s[i..j] == word;
        assert i > 0 by { assert s[0..j] == s[..j]; }
        assert s[1..][i - 1..j - 1] == word;
      }
    }
  }

  /** `k` is a key of some object inside the value. */
  ghost predicate KeyInside(v: Value, k: string) {
    match v
    case Obj(fields) => k in fields || exists f :: f in fields && KeyInside(fields[f], k)
    case Arr(items) => exists i :: 0 <= i < |items| && KeyInside(items[i], k)
    case _ => false
  }

  /** No key at any depth holds the word once its case is folded. */
  ghost predicate Uncompacted(v: Value, fold: string -> string) {
    forall k :: KeyInside(v, k) ==> !Holds(fold(k), "compact")
  }

  lemma {:induction false} UncompactedExactly(v: Value, fold: string -> string)
    ensures NoCompaction(v, fold) <==> Uncompacted(v, fold)
    decreases v
  {
    hide Holds, Mentions;
    match v {
      case Obj(fields) =>
        forall f | f in fields
          ensures Mentions(fold(f), "compact") <==> Holds(fold(f), "compact")
          ensures NoCompaction(fields[f], fold) <==> Uncompacted(fields[f], fold)
        {
          MentionsExactly(fold(f), "compact");
          UncompactedExactly(fields[f], fold);
        }
      case Arr(items) =>
        forall i | 0 <= i < |items| ensures NoCompaction(items[i], fold) <==> Uncompacted(items[i], fold) {
          UncompactedExactly(items[i], fold);
        }
      case _ =>
    }
  }

  // ---- Texts ----

  predicate Alphanumeric(c: char) { 'A' <= c <= 'Z' || 'a' <= c <= 'z' || '0' <= c <= '9' }

  /** A letter or digit, then letters, digits and `._:-`, up to 128 characters in all. */
  predicate Token(s: string, least: nat) {
    && least <= |s| <= 128 && s != "" && Alphanumeric(s[0])
    && forall i :: 0 <= i < |s| ==> Alphanumeric(s[i]) || s[i] == '.' || s[i] == '_' || s[i] == ':' || s[i] == '-'
  }

  lemma TokensExactly(s: string)
    ensures IsToken(s) <==> Token(s, 8)
    ensures IsCallId(s) <==> Token(s, 3)
  {
    assert forall c: char :: c in "._:-" <==> c == '.' || c == '_' || c == ':' || c == '-';
  }

  predicate Blank(s: string) { forall i :: 0 <= i < |s| ==> Whitespace(s[i]) }

  /** `t` is `s` without the white space around it. */
  ghost predicate Stripped(s: string, t: string) {
    && (exists a, b :: s == a + t + b && Blank(a) && Blank(b))
    && (t != "" ==> !Whitespace(t[0]) && !Whitespace(t[|t| - 1]))
  }

  lemma {:induction false} LeftStripped(s: string) returns (a: string)
    ensures s == a + StripLeft(s) && Blank(a) && (StripLeft(s) != "" ==> !Whitespace(StripLeft(s)[0]))
  {
    if s != "" && Whitespace(s[0]) {
      a := LeftStripped(s[1..]);
      a := [s[0]] + a;
      assert s == [s[0]] + s[1..];
    } else {
      a := "";
    }
  }

  lemma {:induction false} RightStripped(s: string) returns (b: string)
    ensures s == StripRight(s) + b && Blank(b) && (StripRight(s) != "" ==> !Whitespace(StripRight(s)[|StripRight(s)| - 1]))
    ensures StripRight(s) != "" ==> StripRight(s)[0] == s[0]
  {
    if s != "" && Whitespace(s[|s| - 1]) {
      var front := s[..|s| - 1];
      b := RightStripped(front);
      b := b + [s[|s| - 1]];
      assert s == front + [s[|s| - 1]];
    } else {
      b := "";
    }
  }

  lemma StripsText(s: string)
    ensures Stripped(s, StripText(s))
  {
    var a := LeftStripped(s);
    var b := RightStripped(StripLeft(s));
    assert s == a + (StripText(s) + b) == a + StripText(s) + b;
  }

  /** Where the stripped form stands. */
  lemma StrippedPlace(s: string, t: string) returns (i: nat, j: nat)
    requires Stripped(s, t)
    ensures i <= j <= |s| && t == s[i..j]
    ensures (forall k :: 0 <= k < i ==> Whitespace(s[k])) && forall k :: j <= k < |s| ==> Whitespace(s[k])
    ensures i < j ==> !Whitespace(s[i]) && !Whitespace(s[j - 1])
  {
    hide Whitespace;
    var a, b :| s == a + t + b && Blank(a) && Blank(b);
    i, j := |a|, |a| + |t|;
    forall k | 0 <= k < i ensures Whitespace(s[k]) { assert s[k] == a[k]; }
    forall k | j <= k < |s| ensures Whitespace(s[k]) { assert s[k] == b[k - j]; }
  }

  /** A text has one stripped form. */
  lemma StripIsUnique(s: string, t: string, u: string)
    requires Stripped(s, t) && Stripped(s, u)
    ensures t == u
  {
    hide Whitespace, Stripped;
    var i, j := StrippedPlace(s, t);
    var k, l := StrippedPlace(s, u);
    if i < j && k < l {
      assert i == k && j == l;
    }
  }

  lemma StripsExactly(s: string, t: string)
    ensures StripText(s) == t <==> Stripped(s, t)
  {
    hide Stripped, StripText;
    StripsText(s);
    if Stripped(s, t) { StripIsUnique(s, t, StripText(s)); }
  }

  // ---- Text of a message ----

  /** Every text with a line feed after it. */
  function Terminated(pieces: seq<string>): string { FlatMap((p: string) => p + "\n", pieces) }

  lemma {:induction false} LinesJoined(pieces: seq<string>)
    requires pieces != []
    ensures JoinLines(pieces) + "\n" == Terminated(pieces)
  {
    var f := (p: string) => p + "\n";
    if |pieces| == 1 {
      assert pieces == [pieces[0]];
      FlatMapOne(f, pieces[0]);
    } else {
      LinesJoined(pieces[1..]);
      FlatMapCons(f, pieces[0], pieces[1..]);
      assert pieces == [pieces[0]] + pieces[1..];
    }
  }

  /** The texts of a list's items, in order. */
  function Pieces(items: seq<Value>): seq<string> {
    if items == [] then []
    else Pieces(items[..|items| - 1]) + match ContentText(items[|items| - 1])
                                        case Some(t) => [t]
                                        case None => []
  }

  lemma {:induction false} PiecesConcat(a: seq<Value>, b: seq<Value>)
    ensures ContentPieces(a + b) == ContentPieces(a) + ContentPieces(b)
  {
    hide ContentText;
    if a == [] {
      assert a + b == b;
    } else {
      PiecesConcat(a[1..], b);
      assert (a + b)[1..] == a[1..] + b && (a + b)[0] == a[0];
    }
  }

  lemma {:induction false} PiecesExactly(items: seq<Value>)
    ensures ContentPieces(items) == Pieces(items)
  {
    if items != [] {
      var front, last := items[..|items| - 1], items[|items| - 1];
      PiecesExactly(front);
      PiecesConcat(front, [last]);
      assert items == front + [last] && [last][1..] == [];
    }
  }

  /** The text found under a key. */
  function TextUnder(fields: Object, key: string): Option<string> {
    if key in fields then ContentText(fields[key]) else None
  }

  /** A string is its own text; an object's is the first found under text, output_text and content; a list's are its items' texts,
      line by line, when any has one. */
  lemma ContentTextExactly(v: Value)
    ensures v.Str? ==> ContentText(v) == Some(v.s)
    ensures v.Obj? ==> forall t :: ContentText(v) == Some(t) <==>
              || TextUnder(v.fields, "text") == Some(t)
              || (TextUnder(v.fields, "text") == None && TextUnder(v.fields, "output_text") == Some(t))
              || (TextUnder(v.fields, "text") == None && TextUnder(v.fields, "output_text") == None && TextUnder(v.fields, "content") == Some(t))
    ensures v.Arr? ==> forall t :: ContentText(v) == Some(t) <==> Pieces(v.items) != [] && t + "\n" == Terminated(Pieces(v.items))
    ensures !v.Str? && !v.Obj? && !v.Arr? ==> ContentText(v) == None
  {
    if v.Arr? {
      PiecesExactly(v.items);
      if Pieces(v.items) != [] {
        LinesJoined(Pieces(v.items));
        forall t | t + "\n" == Terminated(Pieces(v.items)) ensures ContentText(v) == Some(t) {
          SplitAt(t, JoinLines(Pieces(v.items)), "\n", "\n");
        }
      }
    }
  }

  // ---- One event ----

  /** A closed event of this type: these fields, perhaps an identity, and no compaction key at any depth. */
  ghost predicate Closed(x: Context, e: Object, kind: string, required: set<string>) {
    && "type" in e && e["type"] == Str(kind)
    && required + {"type"} <= e.Keys <= required + {"type", "thread_id", "invocation_id"} && Uncompacted(Obj(e), x.fold)
  }

  /** A thread identity counts when it is a non-empty string; an invocation must be a token. */
  predicate Identified(e: Object, step: Step) {
    && step.thread == (if "thread_id" in e && e["thread_id"].Str? && e["thread_id"].s != "" then Some(e["thread_id"].s) else None)
    && if "invocation_id" in e then e["invocation_id"].Str? && Token(e["invocation_id"].s, 8) && step.invocation == Some(e["invocation_id"].s)
       else step.invocation == None
  }

  /** An item of this type with only these fields. */
  predicate ItemOf(e: Object, kind: string, fields: set<string>) {
    "item" in e && e["item"].Obj? && e["item"].fields.Keys <= fields && "type" in e["item"].fields && e["item"].fields["type"] == Str(kind)
  }

  const COMMAND_FIELDS := {"id", "call_id", "type", "command", "status", "exit_code", "aggregated_output", "output"}

  /** The call is named by `id`, or by `call_id` when that is missing or false, and holds a literal command. */
  predicate CallOf(item: Object, id: string, command: string) {
    && (if "id" in item && Truthy(item["id"]) then item["id"] == Str(id) else "call_id" in item && item["call_id"] == Str(id))
    && Token(id, 3) && "command" in item && item["command"] == Str(command)
  }

  /** The command wraps a read for the shell, the output is the expected text or, for citation text, its marker, and the
      operations are those of the read. */
  ghost predicate Performs(c: Cache, command: string, output: string, operations: seq<Operation>) {
    exists inner, expected ::
      && inner != "" && '\'' !in inner && c.split(inner).Some? && command == "/bin/bash -lc '" + inner + "'"
      && Expected(c, inner) == Some(expected) && operations == expected.operations
      && (output == expected.output || (expected.citationContent && output == MarkerText(c, expected.output)))
  }

  predicate Spent(fields: Object, u: Usage) {
    && fields.Keys == {"input_tokens", "cached_input_tokens", "output_tokens", "reasoning_output_tokens"}
    && fields["input_tokens"] == Int(u.input) && fields["cached_input_tokens"] == Int(u.cachedInput)
    && fields["output_tokens"] == Int(u.output) && fields["reasoning_output_tokens"] == Int(u.reasoningOutput)
    && u.cachedInput <= u.input && u.reasoningOutput <= u.output
  }

  /** What each action takes of its event. */
  ghost predicate Means(x: Context, e: Object, step: Step) {
    match step.action
    case TransportRetry(r) =>
      && step.thread == None && step.invocation == None && e.Keys == {"type", "message"} && e["type"] == Str("error")
      && e["message"].Str? && |e["message"].s| <= 512 && x.retry(e["message"].s) == Some(r)
    case ThreadStarted(id) =>
      Closed(x, e, "thread.started", {"thread_id"}) && Identified(e, step) && e["thread_id"] == Str(id) && Token(id, 8)
    case TurnStarted => Closed(x, e, "turn.started", {}) && Identified(e, step)
    case TurnCompleted(u) =>
      Closed(x, e, "turn.completed", {"usage"}) && Identified(e, step) && e["usage"].Obj? && Spent(e["usage"].fields, u)
    case Reasoning =>
      && (Closed(x, e, "item.started", {"item"}) || Closed(x, e, "item.completed", {"item"})) && Identified(e, step)
      && ItemOf(e, "reasoning", {"id", "type", "text", "summary"})
    case FinalMessage(text) =>
      && Closed(x, e, "item.completed", {"item"}) && Identified(e, step) && ItemOf(e, "agent_message", {"id", "type", "text", "content"})
      && text != "" && exists s :: ContentText(e["item"]) == Some(s) && Stripped(s, text)
    case CommandStarted(id, command) =>
      && Closed(x, e, "item.started", {"item"}) && Identified(e, step) && ItemOf(e, "command_execution", COMMAND_FIELDS)
      && CallOf(e["item"].fields, id, command) && x.cache.split(command).Some?
    case CommandCompleted(id, command, output, operations) =>
      && Closed(x, e, "item.completed", {"item"}) && Identified(e, step) && ItemOf(e, "command_execution", COMMAND_FIELDS)
      && CallOf(e["item"].fields, id, command)
      && var item := e["item"].fields;
         && Get(item, "status") == Str("completed") && Get(item, "exit_code") == Int(0)
         && Get(item, "aggregated_output") == Str(output) && "output" !in item && Performs(x.cache, command, output, operations)
  }

  lemma ClosedExactly(x: Context, e: Object)
    ensures forall kind :: kind in {"item.started", "item.completed"} ==>
              (Get(e, "type") == Str(kind) && ClosedEvent(e, kind, x.fold) <==> Closed(x, e, kind, {"item"}))
    ensures Get(e, "type") == Str("thread.started") && ClosedEvent(e, "thread.started", x.fold) <==> Closed(x, e, "thread.started", {"thread_id"})
    ensures Get(e, "type") == Str("turn.started") && ClosedEvent(e, "turn.started", x.fold) <==> Closed(x, e, "turn.started", {})
    ensures Get(e, "type") == Str("turn.completed") && ClosedEvent(e, "turn.completed", x.fold) <==> Closed(x, e, "turn.completed", {"usage"})
  {
    hide NoCompaction, Uncompacted;
    UncompactedExactly(Obj(e), x.fold);
  }

  lemma IdentifiedExactly(e: Object, step: Step)
    ensures Identified(e, step) <==> InvocationOk(e) && step.thread == ThreadOf(e) && step.invocation == InvocationOf(e)
  {
    hide IsToken, Token;
    if "invocation_id" in e && e["invocation_id"].Str? { TokensExactly(e["invocation_id"].s); }
  }

  lemma PerformsExactly(c: Cache, command: string, output: string, operations: seq<Operation>)
    ensures CommandOperations(c, command, output) == Some(operations) <==> Performs(c, command, output, operations)
  {
    hide Expected, Unwrap, MarkerText, CommandOperations, Marker;
    AcceptedOutputs(c, command, output);
    forall inner ensures Unwrap(command, c.split) == Some(inner) <==>
              inner != "" && '\'' !in inner && c.split(inner).Some? && command == "/bin/bash -lc '" + inner + "'"
    {
      WrappedIs(inner, command, c.split);
    }
    forall text ensures Marker(text, c.sha) == MarkerText(c, text) { MarkerIs(c, text); }
    if CommandOperations(c, command, output) == Some(operations) {
      var inner := Unwrap(command, c.split).value;
      var expected := Expected(c, inner).value;
    }
  }

  lemma CallExactly(item: Object, id: string, command: string)
    ensures CallOf(item, id, command) <==> CallId(item) == Str(id) && IsCallId(id) && Get(item, "command") == Str(command)
  {
    hide IsCallId, Token;
    TokensExactly(id);
  }

  lemma SpentExactly(v: Value, u: Usage)
    ensures ParseUsage(v) == Some(u) <==> v.Obj? && Spent(v.fields, u)
  {
  }

  // ---- Items ----

  /** What a command item may become. */
  ghost predicate CommandMeans(x: Context, item: Object, starting: bool, a: Action) {
    match a
    case CommandStarted(id, command) => starting && CallOf(item, id, command) && x.cache.split(command).Some?
    case CommandCompleted(id, command, output, operations) =>
      && !starting && CallOf(item, id, command) && Get(item, "status") == Str("completed") && Get(item, "exit_code") == Int(0)
      && Get(item, "aggregated_output") == Str(output) && "output" !in item && "result" !in item
      && Performs(x.cache, command, output, operations)
    case _ => false
  }

  lemma CommandExactly(x: Context, item: Object, starting: bool, a: Action)
    ensures ParseCommand(x, item, starting) == Some(a) <==> CommandMeans(x, item, starting, a)
  {
    hide IsCallId, CallOf, Performs, CommandOperations, CallId;
    if ParseCommand(x, item, starting).Some? { CallExactly(item, CallId(item).s, item["command"].s); }
    match a
    case CommandStarted(id, command) => CallExactly(item, id, command);
    case CommandCompleted(id, command, output, operations) =>
      CallExactly(item, id, command);
      PerformsExactly(x.cache, command, output, operations);
    case _ =>
  }

  lemma MessageExactly(item: Object, a: Action)
    ensures ParseMessage(item) == Some(a) <==>
              a.FinalMessage? && a.text != "" && exists s :: ContentText(Obj(item)) == Some(s) && Stripped(s, a.text)
  {
    hide ContentText, StripText, Stripped;
    if ContentText(Obj(item)).Some? && a.FinalMessage? { StripsExactly(ContentText(Obj(item)).value, a.text); }
  }

  /** What an item may become. */
  ghost predicate ItemMeans(x: Context, e: Object, starting: bool, a: Action) {
    || (a.Reasoning? && ItemOf(e, "reasoning", {"id", "type", "text", "summary"}))
    || (a.FinalMessage? && !starting && ItemOf(e, "agent_message", {"id", "type", "text", "content"})
        && a.text != "" && exists s :: ContentText(e["item"]) == Some(s) && Stripped(s, a.text))
    || (ItemOf(e, "command_execution", COMMAND_FIELDS) && CommandMeans(x, e["item"].fields, starting, a))
  }

  lemma ItemExactly(x: Context, e: Object, starting: bool, a: Action)
    requires "item" in e && e["item"].Obj?
    ensures ParseItem(x, e["item"].fields, starting) == Some(a) <==> ItemMeans(x, e, starting, a)
  {
    hide ContentText, Stripped, ParseMessage, ParseCommand, CommandMeans;
    var item := e["item"].fields;
    MessageExactly(item, a);
    CommandExactly(x, item, starting, a);
  }

  // ---- Events ----

  lemma NoticeExactly(x: Context, e: Object, step: Step)
    requires Get(e, "type") == Str("error")
    ensures Parse(x, e) == Some(step) <==> step.action.TransportRetry? && Means(x, e, step)
  {
    hide ClosedEvent, ParseAction;
  }

  /** An item event, in terms of its item. */
  lemma ItemEventExactly(x: Context, e: Object, step: Step, kind: string)
    requires Get(e, "type") == Str(kind) && kind in {"item.started", "item.completed"}
    ensures Parse(x, e) == Some(step) <==>
              Closed(x, e, kind, {"item"}) && Identified(e, step) && e["item"].Obj? && ItemMeans(x, e, kind == "item.started", step.action)
  {
    hide ClosedEvent, Closed, Identified, ItemMeans, ParseItem, InvocationOk, ThreadOf, InvocationOf;
    ClosedExactly(x, e);
    IdentifiedExactly(e, step);
    if Closed(x, e, kind, {"item"}) {
      HasItem(x, e, kind);
      if e["item"].Obj? { ItemExactly(x, e, kind == "item.started", step.action); }
    }
  }

  lemma HasItem(x: Context, e: Object, kind: string)
    requires Closed(x, e, kind, {"item"})
    ensures "item" in e && Get(e, "item") == e["item"]
  {
    hide Uncompacted;
  }

  lemma ItemEventMeans(x: Context, e: Object, step: Step, kind: string)
    requires Get(e, "type") == Str(kind) && kind in {"item.started", "item.completed"}
    ensures Closed(x, e, kind, {"item"}) && Identified(e, step) && e["item"].Obj? && ItemMeans(x, e, kind == "item.started", step.action)
       <==> Means(x, e, step)
  {
    hide Uncompacted, Identified, ItemOf, CallOf, Performs, Spent, ContentText, Stripped;
    NoResult(e);
    forall k, fields ensures ItemOf(e, k, fields) ==> "item" in e && e["item"].Obj? { ItemIs(e, k, fields); }
  }

  lemma NoResult(e: Object)
    ensures ItemOf(e, "command_execution", COMMAND_FIELDS) ==> "result" !in e["item"].fields
  {
  }

  lemma ItemIs(e: Object, kind: string, fields: set<string>)
    ensures ItemOf(e, kind, fields) ==> "item" in e && e["item"].Obj?
  {
  }

  // The other three types.

  lemma ThreadStartExactly(x: Context, e: Object, step: Step)
    requires Get(e, "type") == Str("thread.started")
    ensures Parse(x, e) == Some(step) <==> Means(x, e, step)
  {
    hide ClosedEvent, Identified, InvocationOk, ThreadOf, InvocationOf, ParseUsage, Spent, Uncompacted, IsToken, Token, ItemOf, CallOf, Performs, ContentText, Stripped;
    ClosedExactly(x, e);
    IdentifiedExactly(e, step);
    if "thread_id" in e && e["thread_id"].Str? { TokensExactly(e["thread_id"].s); }
  }

  lemma TurnStartExactly(x: Context, e: Object, step: Step)
    requires Get(e, "type") == Str("turn.started")
    ensures Parse(x, e) == Some(step) <==> Means(x, e, step)
  {
    hide ClosedEvent, Identified, InvocationOk, ThreadOf, InvocationOf, ParseUsage, Spent, Uncompacted, IsToken, Token, ItemOf, CallOf, Performs, ContentText, Stripped;
    ClosedExactly(x, e);
    IdentifiedExactly(e, step);
  }

  lemma TurnEndExactly(x: Context, e: Object, step: Step)
    requires Get(e, "type") == Str("turn.completed")
    ensures Parse(x, e) == Some(step) <==> Means(x, e, step)
  {
    hide ClosedEvent, Identified, InvocationOk, ThreadOf, InvocationOf, ParseUsage, Spent, Uncompacted, IsToken, Token, ItemOf, CallOf, Performs, ContentText, Stripped;
    ClosedExactly(x, e);
    IdentifiedExactly(e, step);
    if step.action.TurnCompleted? { SpentExactly(Get(e, "usage"), step.action.usage); }
  }

  /** Nothing else parses, and nothing else means anything. */
  lemma OtherEvents(x: Context, e: Object, step: Step)
    requires Get(e, "type") !in {Str("error"), Str("thread.started"), Str("turn.started"), Str("turn.completed"), Str("item.started"), Str("item.completed")}
    ensures Parse(x, e) == None && !Means(x, e, step)
  {
    hide NoCompaction, Uncompacted, Identified, Spent, IsToken, Token, ItemOf, CallOf, Performs, ContentText, Stripped, ParseAction;
  }

  /** An event is accepted as this step exactly when it means it. */
  lemma ParsesExactly(x: Context, e: Object, step: Step)
    ensures Parse(x, e) == Some(step) <==> Means(x, e, step)
  {
    hide Parse, Means, Closed, ItemMeans;
    var kind := Get(e, "type");
    if kind == Str("error") {
      NoticeExactly(x, e, step);
      OnlyNotices(x, e, step);
    } else if kind == Str("item.started") || kind == Str("item.completed") {
      ItemEventExactly(x, e, step, kind.s);
      ItemEventMeans(x, e, step, kind.s);
    } else if kind == Str("thread.started") {
      ThreadStartExactly(x, e, step);
    } else if kind == Str("turn.started") {
      TurnStartExactly(x, e, step);
    } else if kind == Str("turn.completed") {
      TurnEndExactly(x, e, step);
    } else {
      OtherEvents(x, e, step);
    }
  }

  lemma OnlyNotices(x: Context, e: Object, step: Step)
    requires Get(e, "type") == Str("error")
    ensures Means(x, e, step) ==> step.action.TransportRetry?
  {
    hide Uncompacted, Identified, Spent, Token, ItemOf, CallOf, Performs, ContentText, Stripped;
  }
}

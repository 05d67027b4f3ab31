/** Parsed JSON values, and the closed-object checks a raw review event must pass. */
module Json {
  import opened Sequences

  datatype Value =
    | Null
    | Bool(b: bool)
    | Int(n: int)
    | Float(text: string)
    | Str(s: string)
    | Arr(items: seq<Value>)
    | Obj(fields: map<string, Value>)

  type Object = map<string, Value>

  /** `value.get(key)` */
  function Get(o: Object, key: string): Value {
    if key in o then o[key] else Null
  }

  /** Python truth. */
  predicate Truthy(v: Value) {
    match v
    case Null => false
    case Bool(b) => b
    case Int(n) => n != 0
    case Float(text) => text != "0.0" && text != "-0.0"
    case Str(s) => s != ""
    case Arr(items) => items != []
    case Obj(fields) => fields != map[]
  }

  predicate Mentions(text: string, word: string) {
    StartsWith(text, word) || (text != "" && Mentions(text[1..], word))
  }

  /** No object key anywhere inside mentions compaction once its case is folded. */
  predicate NoCompaction(v: Value, fold: string -> string) {
    match v
    case Obj(fields) => forall k :: k in fields ==> !Mentions(fold(k), "compact") && NoCompaction(fields[k], fold)
    case Arr(items) => forall i :: 0 <= i < |items| ==> NoCompaction(items[i], fold)
    case _ => true
  }

  const IDENTITY_KEYS := {"thread_id", "invocation_id"}

  function AllowedEventKeys(kind: string): set<string> {
    match kind
    case "thread.started" => {"type", "thread_id", "invocation_id"}
    case "turn.started" => {"type"} + IDENTITY_KEYS
    case "turn.completed" => {"type", "usage"} + IDENTITY_KEYS
    case "item.started" => {"type", "item"} + IDENTITY_KEYS
    case "item.completed" => {"type", "item"} + IDENTITY_KEYS
    case _ => {}
  }

  function RequiredEventKeys(kind: string): set<string> {
    match kind
    case "thread.started" => {"type", "thread_id"}
    case "turn.completed" => {"type", "usage"}
    case "item.started" => {"type", "item"}
    case "item.completed" => {"type", "item"}
    case _ => {"type"}
  }

  /** `_validate_closed_event`, for an event that states its type. */
  predicate ClosedEvent(e: Object, kind: string, fold: string -> string) {
    RequiredEventKeys(kind) <= e.Keys <= AllowedEventKeys(kind) && NoCompaction(Obj(e), fold)
  }

  function AllowedItemKeys(kind: string): set<string> {
    match kind
    case "command_execution" =>
      {"id", "call_id", "type", "command", "status", "exit_code", "aggregated_output", "output"}
    case "reasoning" => {"id", "type", "text", "summary"}
    case "agent_message" => {"id", "type", "text", "content"}
    case _ => {}
  }

  /** `_validate_closed_item` */
  predicate ClosedItem(item: Object) {
    && Get(item, "type").Str?
    && item.Keys <= AllowedItemKeys(Get(item, "type").s)
  }

  function JoinLines(pieces: seq<string>): string
    requires pieces != []
  {
    if |pieces| == 1 then pieces[0] else pieces[0] + "\n" + JoinLines(pieces[1..])
  }

  /** `_content_text`: the first text found under text, output_text or content. */
  function ContentText(v: Value): Option<string> {
    match v
    case Str(s) => Some(s)
    case Arr(items) =>
      var pieces := ContentPieces(items);
      if pieces == [] then None else Some(JoinLines(pieces))
    case Obj(fields) =>
      var a := if "text" in fields then ContentText(fields["text"]) else None;
      if a.Some? then a
      else
        var b := if "output_text" in fields then ContentText(fields["output_text"]) else None;
        if b.Some? then b
        else if "content" in fields then ContentText(fields["content"]) else None
    case _ => None
  }

  function ContentPieces(items: seq<Value>): seq<string> {
    if items == [] then []
    else
      match ContentText(items[0])
      case Some(t) => [t] + ContentPieces(items[1..])
      case None => ContentPieces(items[1..])
  }

  predicate IdentifierTail(c: char) {
    'A' <= c <= 'Z' || 'a' <= c <= 'z' || '0' <= c <= '9' || c in "._:-"
  }

  /** `[A-Za-z0-9][A-Za-z0-9._:-]{low,127}` */
  predicate Identifier(s: string, low: nat) {
    && low + 1 <= |s| <= 128
    && IdentifierTail(s[0]) && s[0] !in "._:-"
    && forall i :: 0 <= i < |s| ==> IdentifierTail(s[i])
  }

  predicate IsCallId(s: string) { Identifier(s, 2) }

  predicate IsToken(s: string) { Identifier(s, 7) }

  /** `str.isspace` on one character. */
  predicate Whitespace(c: char) {
    var n := c as int;
    9 <= n <= 13 || 28 <= n <= 32 || n == 0x85 || n == 0xA0 || n == 0x1680 || 0x2000 <= n <= 0x200A
    || n in {0x2028, 0x2029, 0x202F, 0x205F, 0x3000}
  }

  function StripLeft(s: string): string {
    if s != "" && Whitespace(s[0]) then StripLeft(s[1..]) else s
  }

  function StripRight(s: string): string {
    if s != "" && Whitespace(s[|s| - 1]) then StripRight(s[..|s| - 1]) else s
  }

  /** `text.strip()` */
  function StripText(s: string): string { StripRight(StripLeft(s)) }
}

/** When a raw stream may be retained, and what the retained lines then hold, said of the events and the bytes. */
module SanitizeLaws {
  import opened Sequences
  import opened Utf8
  import opened CacheModel
  import opened ChunkInventory
  import opened Json
  import opened Projection
  import opened Commands
  import opened Replay
  import opened Sanitize

  // ---- One event ----

  predicate Completion(e: Object) {
    && Get(e, "type") == Str("item.completed") && Get(e, "item").Obj?
    && Get(Get(e, "item").fields, "type") == Str("command_execution")
  }

  /** The completed command succeeded and showed exactly what the cache expects of `inner`, which it wraps for the shell. */
  predicate Shown(c: Cache, e: Object, inner: string, expected: Command) {
    && Completion(e)
    && var item := Get(e, "item").fields;
    && Get(item, "status") == Str("completed") && Get(item, "exit_code") == Int(0)
    && "output" !in item && "result" !in item && Get(item, "aggregated_output") == Str(expected.output)
    && inner != "" && '\'' !in inner && c.split(inner).Some? && Expected(c, inner) == Some(expected)
    && Get(item, "command") == Str("/bin/bash -lc '" + inner + "'")
  }

  /** The events differ in the output of the command and in nothing else. */
  predicate OutputReplaced(e: Object, o: Object, output: string) {
    && o.Keys == e.Keys && "item" in e && e["item"].Obj? && o["item"].Obj?
    && (forall k :: k in e && k != "item" ==> o[k] == e[k])
    && var before, after := e["item"].fields, o["item"].fields;
    && after.Keys == before.Keys + {"aggregated_output"} && after["aggregated_output"] == Str(output)
    && forall k :: k in before && k != "aggregated_output" ==> after[k] == before[k]
  }

  function MarkerText(c: Cache, text: string): string {
    "HLSGRAPH_REVIEW_CACHE_OUTPUT:" + c.sha(Encode(text)) + ":" + Decimal(|Encode(text)|) + "\n"
  }

  /** A command event is kept, or its citation text replaced by a marker of its hash and length; other events are kept. */
  ghost predicate Cleaned(c: Cache, e: Object, o: Object) {
    if !Completion(e) then o == e
    else exists inner, expected ::
      && Shown(c, e, inner, expected)
      && if expected.citationContent then OutputReplaced(e, o, MarkerText(c, expected.output)) else o == e
  }

  lemma MarkerIs(c: Cache, text: string)
    ensures Marker(text, c.sha) == MarkerText(c, text)
  {
    hide Encode, Decimal;
    ConcatAssociates("HLSGRAPH_REVIEW_CACHE_OUTPUT:", c.sha(Encode(text)), ":" + Decimal(|Encode(text)|) + "\n");
    assert ":" + (Decimal(|Encode(text)|) + "\n") == ":" + Decimal(|Encode(text)|) + "\n";
  }

  lemma ReplacedIs(e: Object, o: Object, output: string)
    requires CompletedCommand(e) && OutputReplaced(e, o, output)
    ensures o == WithOutput(e, output)
  {
    var w := WithOutput(e, output);
    assert w["item"].fields == o["item"].fields;
    assert forall k :: k in w ==> k in o && w[k] == o[k];
  }

  lemma ReplacesOutput(e: Object, output: string)
    requires CompletedCommand(e)
    ensures OutputReplaced(e, WithOutput(e, output), output)
  {
  }

  lemma WrappedIs(inner: string, event: string, split: string -> Option<seq<string>>)
    ensures Unwrap(event, split) == Some(inner) <==>
              inner != "" && '\'' !in inner && split(inner).Some? && event == "/bin/bash -lc '" + inner + "'"
  {
    hide Unwrap;
    WrapUnwrap(inner, event, split);
  }

  lemma ShownExactly(c: Cache, e: Object, inner: string, expected: Command)
    requires CompletedCommand(e)
    ensures Shown(c, e, inner, expected) <==>
      && var item := e["item"].fields;
      && Succeeded(item) && CommandOutput(item) == Some(expected.output) && Get(item, "command").Str?
      && Unwrap(item["command"].s, c.split) == Some(inner) && Expected(c, inner) == Some(expected)
  {
    hide Unwrap, Expected;
    var item := e["item"].fields;
    if Get(item, "command").Str? { WrappedIs(inner, item["command"].s, c.split); }
  }

  /** The one cleaned form of an event, when there is one. */
  lemma CleanedExactly(c: Cache, e: Object, o: Object)
    ensures SanitizeEvent(c, e) == Some(o) <==> Cleaned(c, e, o)
  {
    hide Shown, OutputReplaced, Unwrap, Expected, Marker, MarkerText, Succeeded, CommandOutput;
    if CompletedCommand(e) {
      if SanitizeEvent(c, e) == Some(o) {
        var item := e["item"].fields;
        var inner := Unwrap(item["command"].s, c.split).value;
        var expected := Expected(c, inner).value;
        ShownExactly(c, e, inner, expected);
        MarkerIs(c, expected.output);
        ReplacesOutput(e, Marker(expected.output, c.sha));
        assert Shown(c, e, inner, expected);
      }
      if Cleaned(c, e, o) {
        var inner, expected :| Shown(c, e, inner, expected)
          && if expected.citationContent then OutputReplaced(e, o, MarkerText(c, expected.output)) else o == e;
        ShownExactly(c, e, inner, expected);
        MarkerIs(c, expected.output);
        if expected.citationContent { ReplacedIs(e, o, Marker(expected.output, c.sha)); }
      }
    }
  }

  // ---- The retained lines ----

  /** No stretch of the lines is the needle. */
  predicate Absent(needle: Bytes, lines: Bytes) {
    forall i, j :: 0 <= i <= j <= |lines| ==> lines[i..j] != needle
  }

  lemma AbsentExactly(needle: Bytes, lines: Bytes)
    ensures Absent(needle, lines) <==> !Contains(lines, needle)
  {
    if Contains(lines, needle) {
      var i :| 0 <= i <= |lines| && StartsWith(lines[i..], needle);
      assert lines[i..][..|needle|] == lines[i..i + |needle|];
    }
    if !Absent(needle, lines) {
      var i, j :| 0 <= i <= j <= |lines| && lines[i..j] == needle;
      assert lines[i..][..j - i] == lines[i..j];
      assert StartsWith(lines[i..], needle);
    }
  }

  /** Neither the chunk's bytes nor its JSON-escaped text stand anywhere in the lines. */
  predicate Withheld(payload: Bytes, lines: Bytes, printer: Printer) {
    payload != [] ==>
      && (forall i, j :: 0 <= i <= j <= |lines| ==> lines[i..j] != payload)
      && (WellFormed(payload) && printer.escape(Decode(payload)) != [] ==>
            forall i, j :: 0 <= i <= j <= |lines| ==> lines[i..j] != printer.escape(Decode(payload)))
  }

  lemma WithheldExactly(payload: Bytes, lines: Bytes, printer: Printer)
    ensures Withheld(payload, lines, printer) <==> !Retained(payload, lines, printer)
  {
    hide Contains;
    AbsentExactly(payload, lines);
    if WellFormed(payload) { AbsentExactly(printer.escape(Decode(payload)), lines); }
  }

  /** Every chunk of every citation can be read and is withheld. */
  predicate AllWithheld(c: Cache, lines: Bytes, printer: Printer) {
    forall k, row :: 0 <= k < |c.manifest.citations| && row in c.manifest.citations[k].chunks ==>
      Readable(c.tree, row.path) && Withheld(c.tree.files[row.path], lines, printer)
  }

  lemma AllWithheldExactly(c: Cache, lines: Bytes, printer: Printer)
    ensures AllWithheld(c, lines, printer) <==> Clean(c, lines, printer)
  {
    hide Withheld, Retained, Readable;
    var citations := c.manifest.citations;
    var chunks := FlatMap(CitationChunks, citations);
    forall row ensures row in chunks <==> exists k :: 0 <= k < |citations| && row in citations[k].chunks {
      FlatMember(CitationChunks, citations, row);
    }
    forall payload: Bytes ensures Withheld(payload, lines, printer) <==> !Retained(payload, lines, printer) {
      WithheldExactly(payload, lines, printer);
    }
    if AllWithheld(c, lines, printer) {
      forall i | 0 <= i < |chunks| ensures Readable(c.tree, chunks[i].path) && !Retained(ReadFile(c, chunks[i].path), lines, printer) {
        assert chunks[i] in chunks;
        var k :| 0 <= k < |citations| && chunks[i] in citations[k].chunks;
        ReadableFile(c, chunks[i].path);
      }
      CleanByFile(c, lines, printer, chunks);
    }
    if Clean(c, lines, printer) {
      forall k, row | 0 <= k < |citations| && row in citations[k].chunks
        ensures Readable(c.tree, row.path) && Withheld(ReadFile(c, row.path), lines, printer)
      {
        assert row in chunks;
        var i :| 0 <= i < |chunks| && chunks[i] == row;
        ReadableFile(c, row.path);
      }
      WithheldByFile(c, lines, printer);
    }
  }

  function ReadFile(c: Cache, path: string): Bytes { if path in c.tree.files then c.tree.files[path] else [] }

  lemma ReadableFile(c: Cache, path: string)
    requires Readable(c.tree, path)
    ensures path in c.tree.files && ReadFile(c, path) == c.tree.files[path]
  {
  }

  lemma CleanByFile(c: Cache, lines: Bytes, printer: Printer, chunks: seq<ChunkRow>)
    requires chunks == FlatMap(CitationChunks, c.manifest.citations)
    requires forall i :: 0 <= i < |chunks| ==> Readable(c.tree, chunks[i].path) && !Retained(ReadFile(c, chunks[i].path), lines, printer)
    ensures Clean(c, lines, printer)
  {
    hide Retained, FlatMap;
    forall i | 0 <= i < |chunks| ensures Readable(c.tree, chunks[i].path) && !Retained(c.tree.files[chunks[i].path], lines, printer) {
      ReadableFile(c, chunks[i].path);
      assert !Retained(ReadFile(c, chunks[i].path), lines, printer);
    }
  }

  lemma WithheldByFile(c: Cache, lines: Bytes, printer: Printer)
    requires forall k, row :: 0 <= k < |c.manifest.citations| && row in c.manifest.citations[k].chunks ==>
               Readable(c.tree, row.path) && Withheld(ReadFile(c, row.path), lines, printer)
    ensures AllWithheld(c, lines, printer)
  {
    hide Withheld;
    forall k, row | 0 <= k < |c.manifest.citations| && row in c.manifest.citations[k].chunks
      ensures Readable(c.tree, row.path) && Withheld(c.tree.files[row.path], lines, printer)
    {
      ReadableFile(c, row.path);
      assert Withheld(ReadFile(c, row.path), lines, printer);
    }
  }

  // ---- The stream ----

  ghost predicate AllCleaned(c: Cache, events: seq<Object>, out: seq<Object>) {
    |out| == |events| && forall i :: 0 <= i < |events| ==> Cleaned(c, events[i], out[i])
  }

  /** A stream is retained exactly when each completed command showed what the cache expects, and no citation chunk stands
      in the printed lines as bytes or as escaped text; what is retained is then the cleaned stream. */
  lemma SanitizesExactly(c: Cache, events: seq<Object>, printer: Printer, out: seq<Object>)
    ensures Sanitized(c, events, printer) == Some(out) <==> AllCleaned(c, events, out) && AllWithheld(c, printer.render(out), printer)
  {
    hide SanitizeEvent, Cleaned, Clean, AllWithheld;
    forall i, o | 0 <= i < |events| ensures SanitizeEvent(c, events[i]) == Some(o) <==> Cleaned(c, events[i], o) {
      CleanedExactly(c, events[i], o);
    }
    AllWithheldExactly(c, printer.render(out), printer);
    if AllCleaned(c, events, out) {
      CollectIs((e: Object) => SanitizeEvent(c, e), events, out);
    }
  }

  /** The lines of a retained stream hold no citation chunk, as bytes or as escaped text. */
  lemma RetainedLinesHoldNoCitation(c: Cache, events: seq<Object>, printer: Printer, k: nat, row: ChunkRow, i: nat, j: nat)
    requires Sanitized(c, events, printer).Some? && k < |c.manifest.citations| && row in c.manifest.citations[k].chunks
    requires i <= j <= |printer.render(Sanitized(c, events, printer).value)|
    ensures row.path in c.tree.files
    ensures var payload, slice := c.tree.files[row.path], printer.render(Sanitized(c, events, printer).value)[i..j];
      payload != [] ==>
        && slice != payload
        && (WellFormed(payload) && printer.escape(Decode(payload)) != [] ==> slice != printer.escape(Decode(payload)))
  {
    hide Sanitized;
    SanitizesExactly(c, events, printer, Sanitized(c, events, printer).value);
  }
}

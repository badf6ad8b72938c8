/** One chat turn of the web app (`chat_endpoint` in app/main.py): the agent
    runner's events are scanned for the model's text, for calls of the graph
    tool and for the queries the two database tools were given, and the
    outcome is shaped into the JSON reply or an HTTP error. */
module ChatEndpoint {
  import opened PyValue

  /** A tool call requested by the model. An absent name or absent `args`
      read as `None`. */
  datatype FunctionCall = FunctionCall(name: Option<string>, args: Option<seq<(string, Value)>>)

  datatype Part = Part(text: Option<string>, functionCall: Option<FunctionCall>)

  datatype Content = Content(role: Option<string>, parts: Option<seq<Part>>)

  datatype Event = Event(content: Option<Content>)

  /** `{"tool": ..., "query": ...}` */
  datatype QueryRecord = QueryRecord(tool: string, query: Value)

  /** The JSON body of a successful reply. */
  datatype ChatResponse = ChatResponse(response: string, visualizationUrl: Option<string>, queries: seq<QueryRecord>)

  datatype Outcome = Ok(body: ChatResponse) | HttpError(status: int, detail: string)

  /** What `runner.run_debug` did: returned its events, or raised an
      exception whose `str` is `message`. */
  datatype RunResult = Events(events: seq<Event>) | Raised(message: string)

  const SqlTool: string := "run_sql_query"
  const VizTool: string := "run_graph_query_viz"
  const Placeholder: string := "No response from agent."
  const VizUrl: string := "/static/local_example.html"
  const NotInitialized: string := "Agent not initialized"
  /** `str` of the `TypeError` that `'query' in None` raises. */
  const NotIterable: string := "argument of type 'NoneType' is not iterable"

  // ---------------------------------------------------------------------
  // The scan, as folds over events and their parts
  // ---------------------------------------------------------------------

  /** The parts the loops visit: none unless the event has content with
      parts. */
  function PartsOf(e: Event): seq<Part> {
    match e.content
    case None => []
    case Some(c) => if c.parts.Some? then c.parts.value else []
  }

  predicate FromModel(e: Event) {
    e.content.Some? && e.content.value.role == Some("model")
  }

  /** A part's text; an absent text adds nothing, as an empty one. */
  function TextOf(p: Part): string {
    if p.text.Some? then p.text.value else ""
  }

  /** The texts of the parts, in order. */
  function PartsText(ps: seq<Part>): string {
    if ps == [] then ""
    else PartsText(ps[..|ps| - 1]) + TextOf(ps[|ps| - 1])
  }

  /** What one event adds to the response text: its parts' texts when its
      content comes from the model, else nothing. */
  function EventText(e: Event): string {
    if FromModel(e) then PartsText(PartsOf(e)) else ""
  }

  /** The response text accumulated over the events (lines 82-88). */
  function ModelText(events: seq<Event>): string {
    if events == [] then ""
    else ModelText(events[..|events| - 1]) + EventText(events[|events| - 1])
  }

  /** `fc.name in ['run_sql_query', 'run_graph_query_viz']` */
  predicate IsQueryTool(name: Option<string>) {
    name == Some(SqlTool) || name == Some(VizTool)
  }

  /** The part calls the graph tool. */
  predicate CallsViz(p: Part) {
    p.functionCall.Some? && p.functionCall.value.name == Some(VizTool)
  }

  /** The part calls a database tool without `args`: `'query' in fc.args`
      raises. */
  predicate MissingArgs(p: Part) {
    p.functionCall.Some? && IsQueryTool(p.functionCall.value.name) && p.functionCall.value.args.None?
  }

  /** The record a part adds to the executed queries, if any. */
  function QueryOf(p: Part): (qs: seq<QueryRecord>)
    ensures |qs| <= 1
    ensures forall q :: q in qs ==> q.tool == SqlTool || q.tool == VizTool
    ensures qs != [] <==>
              && p.functionCall.Some?
              && IsQueryTool(p.functionCall.value.name)
              && p.functionCall.value.args.Some?
              && Has(p.functionCall.value.args.value, "query")
    ensures qs != [] ==>
              && Some(qs[0].tool) == p.functionCall.value.name
              && qs[0].query == GetOr(p.functionCall.value.args.value, "query", PyNone)
  {
    match p.functionCall
    case None => []
    case Some(fc) =>
      if IsQueryTool(fc.name) && fc.args.Some? && Has(fc.args.value, "query") then
        [QueryRecord(fc.name.value, ToMap(fc.args.value)["query"])]
      else []
  }

  function PartsQueries(ps: seq<Part>): seq<QueryRecord> {
    if ps == [] then []
    else PartsQueries(ps[..|ps| - 1]) + QueryOf(ps[|ps| - 1])
  }

  /** The executed queries accumulated over the events (lines 91-106). */
  function Queries(events: seq<Event>): seq<QueryRecord> {
    if events == [] then []
    else Queries(events[..|events| - 1]) + PartsQueries(PartsOf(events[|events| - 1]))
  }

  /** Some part satisfies `f`. */
  predicate AnyPart(ps: seq<Part>, f: Part -> bool) {
    ps != [] && (AnyPart(ps[..|ps| - 1], f) || f(ps[|ps| - 1]))
  }

  /** Some part of some event satisfies `f`. */
  predicate AnyEventPart(events: seq<Event>, f: Part -> bool) {
    events != [] && (AnyEventPart(events[..|events| - 1], f) || AnyPart(PartsOf(events[|events| - 1]), f))
  }

  /** `has_visualization` after the scan. */
  predicate HasViz(events: seq<Event>) {
    AnyEventPart(events, CallsViz)
  }

  /** The scan raises on a database-tool call without `args`. */
  predicate ArgsMissing(events: seq<Event>) {
    AnyEventPart(events, MissingArgs)
  }

  /** Lines 108-109: the text, or the placeholder when it is empty. */
  function ResponseText(events: seq<Event>): (r: string)
    ensures r != []
    ensures ModelText(events) != [] ==> r == ModelText(events)
    ensures ModelText(events) == [] ==> r == Placeholder
  {
    var text := ModelText(events);
    if text == "" then Placeholder else text
  }

  /** The whole turn: 503 without a runner, 500 with the exception's text
      when the turn raises (the runner's own, or the `TypeError` of a
      database-tool call without `args`), else the reply. */
  function ChatTurn(runnerReady: bool, run: RunResult, vizFileExists: bool): (out: Outcome)
    ensures !runnerReady ==> out == HttpError(503, NotInitialized)
    ensures runnerReady && run.Raised? ==> out == HttpError(500, run.message)
    ensures runnerReady && run.Events? && ArgsMissing(run.events) ==> out == HttpError(500, NotIterable)
    ensures out.HttpError? ==> out.status == 503 || out.status == 500
    ensures out.Ok? <==> runnerReady && run.Events? && !ArgsMissing(run.events)
    ensures out.Ok? ==>
              && out.body.response == ResponseText(run.events)
              && (out.body.visualizationUrl == if HasViz(run.events) && vizFileExists then Some(VizUrl) else None)
              && out.body.queries == Queries(run.events)
  {
    if !runnerReady then HttpError(503, NotInitialized)
    else
      match run
      case Raised(message) => HttpError(500, message)
      case Events(events) =>
        if ArgsMissing(events) then HttpError(500, NotIterable)
        else
          var url := if HasViz(events) && vizFileExists then Some(VizUrl) else None;
          Ok(ChatResponse(ResponseText(events), url, Queries(events)))
  }

  // ---------------------------------------------------------------------
  // Properties of the scan
  // ---------------------------------------------------------------------

  /** The response text of a run split in two is the two texts joined. */
  lemma {:induction false} ModelTextAppend(a: seq<Event>, b: seq<Event>)
    ensures ModelText(a + b) == ModelText(a) + ModelText(b)
  {
    if b != [] {
      var n := |b| - 1;
      ModelTextAppend(a, b[..n]);
      assert (a + b)[..|a + b| - 1] == a + b[..n];
      assert (a + b)[|a + b| - 1] == b[n];
    } else {
      assert a + b == a;
    }
  }

  /** Only the model's events, in order. */
  function ModelEvents(events: seq<Event>): (r: seq<Event>)
    ensures forall e :: e in r ==> FromModel(e) && e in events
  {
    if events == [] then []
    else
      var n := |events| - 1;
      ModelEvents(events[..n]) + (if FromModel(events[n]) then [events[n]] else [])
  }

  /** Text in other roles contributes nothing: the response text is that of
      the model's events alone. */
  lemma {:induction false} OnlyModelText(events: seq<Event>)
    ensures ModelText(events) == ModelText(ModelEvents(events))
  {
    if events != [] {
      var n := |events| - 1;
      OnlyModelText(events[..n]);
      var last := if FromModel(events[n]) then [events[n]] else [];
      ModelTextAppend(ModelEvents(events[..n]), last);
      if last != [] {
        assert last[..0] == [];
      }
    }
  }

  /** The executed queries of a run split in two are the two lists joined. */
  lemma {:induction false} QueriesAppend(a: seq<Event>, b: seq<Event>)
    ensures Queries(a + b) == Queries(a) + Queries(b)
  {
    if b != [] {
      var n := |b| - 1;
      QueriesAppend(a, b[..n]);
      assert (a + b)[..|a + b| - 1] == a + b[..n];
      assert (a + b)[|a + b| - 1] == b[n];
    } else {
      assert a + b == a;
    }
  }

  lemma {:induction false} AnyPartIff(ps: seq<Part>, f: Part -> bool)
    ensures AnyPart(ps, f) <==> exists j :: 0 <= j < |ps| && f(ps[j])
  {
    if ps != [] {
      var n := |ps| - 1;
      AnyPartIff(ps[..n], f);
      if j :| 0 <= j < n && f(ps[..n][j]) {
        assert f(ps[j]);
      }
      if j :| 0 <= j < n && f(ps[j]) {
        assert f(ps[..n][j]);
      }
    }
  }

  /** Whether part `j` of event `i` satisfies `f`. */
  predicate PartAt(events: seq<Event>, i: int, j: int, f: Part -> bool) {
    0 <= i < |events| && 0 <= j < |PartsOf(events[i])| && f(PartsOf(events[i])[j])
  }

  /** The folded flag holds exactly when some part of some event
      satisfies `f`. */
  lemma {:induction false} AnyEventPartIff(events: seq<Event>, f: Part -> bool)
    ensures AnyEventPart(events, f) <==> exists i, j :: PartAt(events, i, j, f)
  {
    if events != [] {
      var n := |events| - 1;
      var prefix := events[..n];
      AnyEventPartIff(prefix, f);
      AnyPartIff(PartsOf(events[n]), f);
      if AnyEventPart(events, f) {
        if AnyEventPart(prefix, f) {
          var i, j :| PartAt(prefix, i, j, f);
          assert prefix[i] == events[i];
          assert PartAt(events, i, j, f);
        } else {
          var j :| 0 <= j < |PartsOf(events[n])| && f(PartsOf(events[n])[j]);
          assert PartAt(events, n, j, f);
        }
      }
      if i, j :| PartAt(events, i, j, f) {
        if i < n {
          assert prefix[i] == events[i];
          assert PartAt(prefix, i, j, f);
        } else {
          assert AnyPart(PartsOf(events[n]), f);
        }
      }
    }
  }

  /** The visualization flag is set exactly when some part calls the graph
      tool. */
  lemma HasVizIff(events: seq<Event>)
    ensures HasViz(events) <==> exists i, j :: PartAt(events, i, j, CallsViz)
  {
    AnyEventPartIff(events, CallsViz);
  }

  lemma {:induction false} AnyEventPartAppend(a: seq<Event>, b: seq<Event>, f: Part -> bool)
    ensures AnyEventPart(a + b, f) <==> AnyEventPart(a, f) || AnyEventPart(b, f)
  {
    if b != [] {
      var n := |b| - 1;
      AnyEventPartAppend(a, b[..n], f);
      assert (a + b)[..|a + b| - 1] == a + b[..n];
      assert (a + b)[|a + b| - 1] == b[n];
    } else {
      assert a + b == a;
    }
  }

  /** Whether the part records `q`. */
  predicate Records(q: QueryRecord, p: Part) {
    q in QueryOf(p)
  }

  lemma {:induction false} PartsQueriesAny(ps: seq<Part>, q: QueryRecord)
    ensures q in PartsQueries(ps) <==> AnyPart(ps, p => Records(q, p))
  {
    if ps != [] {
      PartsQueriesAny(ps[..|ps| - 1], q);
    }
  }

  lemma {:induction false} QueriesAny(events: seq<Event>, q: QueryRecord)
    ensures q in Queries(events) <==> AnyEventPart(events, p => Records(q, p))
  {
    if events != [] {
      QueriesAny(events[..|events| - 1], q);
      PartsQueriesAny(PartsOf(events[|events| - 1]), q);
    }
  }

  /** A record is among the executed queries exactly when some part of some
      event is a database-tool call whose `args` give it. */
  lemma QueriesMember(events: seq<Event>, q: QueryRecord)
    ensures q in Queries(events) <==>
              exists i, j :: 0 <= i < |events| && 0 <= j < |PartsOf(events[i])| && Records(q, PartsOf(events[i])[j])
  {
    var f := p => Records(q, p);
    QueriesAny(events, q);
    AnyEventPartIff(events, f);
    forall i, j ensures PartAt(events, i, j, f) <==>
                          0 <= i < |events| && 0 <= j < |PartsOf(events[i])| && Records(q, PartsOf(events[i])[j]) {
    }
  }

  lemma {:induction false} PartsQueriesTools(ps: seq<Part>)
    ensures forall q :: q in PartsQueries(ps) ==> q.tool == SqlTool || q.tool == VizTool
  {
    if ps != [] {
      PartsQueriesTools(ps[..|ps| - 1]);
    }
  }

  /** No tool other than the two database tools is ever recorded. */
  lemma {:induction false} QueriesTools(events: seq<Event>)
    ensures forall q :: q in Queries(events) ==> q.tool == SqlTool || q.tool == VizTool
  {
    if events != [] {
      QueriesTools(events[..|events| - 1]);
      PartsQueriesTools(PartsOf(events[|events| - 1]));
    }
  }

  /** An event without content or without parts adds no text, no query and
      no flag. */
  predicate Silent(e: Event) {
    e.content.None? || e.content.value.parts.None? || e.content.value.parts.value == []
  }

  lemma SilentEventText(a: seq<Event>, e: Event, b: seq<Event>)
    requires Silent(e)
    ensures ModelText(a + [e] + b) == ModelText(a + b)
  {
    assert [e][..0] == [];
    ModelTextAppend(a + [e], b);
    ModelTextAppend(a, [e]);
    ModelTextAppend(a, b);
  }

  lemma SilentEventQueries(a: seq<Event>, e: Event, b: seq<Event>)
    requires Silent(e)
    ensures Queries(a + [e] + b) == Queries(a + b)
  {
    assert [e][..0] == [];
    QueriesAppend(a + [e], b);
    QueriesAppend(a, [e]);
    QueriesAppend(a, b);
  }

  lemma SilentEventFlags(a: seq<Event>, e: Event, b: seq<Event>)
    requires Silent(e)
    ensures HasViz(a + [e] + b) == HasViz(a + b)
    ensures ArgsMissing(a + [e] + b) == ArgsMissing(a + b)
  {
    assert [e][..0] == [];
    AnyEventPartAppend(a + [e], b, CallsViz);
    AnyEventPartAppend(a, [e], CallsViz);
    AnyEventPartAppend(a, b, CallsViz);
    AnyEventPartAppend(a + [e], b, MissingArgs);
    AnyEventPartAppend(a, [e], MissingArgs);
    AnyEventPartAppend(a, b, MissingArgs);
  }

  // ---------------------------------------------------------------------
  // The endpoint
  // ---------------------------------------------------------------------

  /** Lines 84-88 for one event: the texts of its parts, appended when its
      content comes from the model. */
  method AppendEventText(responseText: string, event: Event) returns (r: string)
    ensures r == responseText + EventText(event)
  {
    r := responseText;
    var parts := PartsOf(event);
    if event.content.Some? && event.content.value.parts.Some? && event.content.value.parts.value != [] {
      for j := 0 to |parts|
        invariant r == responseText + (if FromModel(event) then PartsText(parts[..j]) else "")
      {
        var part := parts[j];
        assert parts[..j + 1][..j] == parts[..j];
        if part.text.Some? && part.text.value != "" {
          if event.content.value.role == Some("model") {
            r := r + part.text.value;
          }
        }
      }
      assert parts[..|parts|] == parts;
    }
  }

  /** Lines 91-106 for one event: sets the flag on a graph-tool call and
      records each database-tool call's query; `raised` when a database-tool
      call has no `args`, at which point the scan stops. */
  method ScanCalls(hasVisualization: bool, executedQueries: seq<QueryRecord>, event: Event)
    returns (viz: bool, queries: seq<QueryRecord>, raised: bool)
    ensures raised <==> AnyPart(PartsOf(event), MissingArgs)
    ensures !raised ==> viz == (hasVisualization || AnyPart(PartsOf(event), CallsViz))
    ensures !raised ==> queries == executedQueries + PartsQueries(PartsOf(event))
  {
    viz, queries, raised := hasVisualization, executedQueries, false;
    var parts := PartsOf(event);
    if event.content.Some? && event.content.value.parts.Some? && event.content.value.parts.value != [] {
      for j := 0 to |parts|
        invariant viz == (hasVisualization || AnyPart(parts[..j], CallsViz))
        invariant queries == executedQueries + PartsQueries(parts[..j])
        invariant !AnyPart(parts[..j], MissingArgs)
      {
        var part := parts[j];
        assert parts[..j + 1][..j] == parts[..j];
        if part.functionCall.Some? {
          var fc := part.functionCall.value;
          if fc.name == Some(VizTool) {
            viz := true;
          }
          if fc.name == Some(SqlTool) || fc.name == Some(VizTool) {
            match fc.args
            case None =>
              AnyPartIff(parts, MissingArgs);
              assert MissingArgs(parts[j]);
              raised := true;
              return;
            case Some(args) =>
              if Has(args, "query") {
                queries := queries + [QueryRecord(fc.name.value, ToMap(args)["query"])];
              }
          }
        }
      }
      assert parts[..|parts|] == parts;
    }
  }

  /** Lines 62-133. */
  method HandleChat(runnerReady: bool, run: RunResult, vizFileExists: bool) returns (out: Outcome)
    ensures out == ChatTurn(runnerReady, run, vizFileExists)
  {
    if !runnerReady {
      return HttpError(503, NotInitialized);
    }
    if run.Raised? {
      return HttpError(500, run.message);
    }
    var events := run.events;
    var responseText := "";
    var hasVisualization := false;
    var executedQueries: seq<QueryRecord> := [];
    for i := 0 to |events|
      invariant responseText == ModelText(events[..i])
      invariant hasVisualization == HasViz(events[..i])
      invariant executedQueries == Queries(events[..i])
      invariant !ArgsMissing(events[..i])
    {
      assert events[..i + 1][..i] == events[..i];
      responseText := AppendEventText(responseText, events[i]);
      var raised;
      hasVisualization, executedQueries, raised := ScanCalls(hasVisualization, executedQueries, events[i]);
      if raised {
        AnyEventPartAppend(events[..i + 1], events[i + 1..], MissingArgs);
        assert events[..i + 1] + events[i + 1..] == events;
        return HttpError(500, NotIterable);
      }
    }
    assert events[..|events|] == events;
    if responseText == "" {
      responseText := Placeholder;
    }
    var visualizationUrl: Option<string> := None;
    if hasVisualization {
      if vizFileExists {
        visualizationUrl := Some(VizUrl);
      }
    }
    return Ok(ChatResponse(responseText, visualizationUrl, executedQueries));
  }
}

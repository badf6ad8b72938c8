# LLMAgent2Spanner: graph interpreter and chat turn, modelled in Dafny

LLMAgent2Spanner is a chat front end over a Google Spanner database. This
project models its two pieces of deterministic logic and proves properties
of them.

- **Query tools** (`agent/spanner_agnet/spanner_tools.py`):
  - Every result row becomes a dict from column name to cell value. Both
    `run_sql_query` and `run_graph_query_viz` do this.
  - `run_graph_query_viz` classifies every value of every row as a node, an
    edge or neither.
  - It adds nodes and edges to a networkx `MultiDiGraph`.
  - When the graph has no node, it returns a diagnostic string instead.
- **Chat endpoint** (`app/main.py`, `chat_endpoint`):
  - It scans the agent runner's events for:
    - the model's text;
    - calls of the graph tool;
    - the queries given to the two database tools.
  - It shapes the outcome into the JSON reply, a 503 or a 500.

Files and modules:

| file | module | contents |
|---|---|---|
| `pyvalue.dfy` | `PyValue` | Python values, dicts as ordered entry lists, `str`/`repr` |
| `rows.dfy` | `SpannerRows` | the row→dict step |
| `multigraph.dfy` | `MultiGraph` | the `MultiDiGraph`, as a value `Graph` and as a class that updates two maps in place |
| `interpreter.dfy` | `GraphInterpreter` | classification of row values, the graph-building loop, the tool's result |
| `chat.dfy` | `ChatEndpoint` | the event scan and the endpoint |

Each imperative loop of the source is a method with loop invariants. Each
method is proved against a pure fold:

- `DecodeRow` and `CollectRows` against `RowDict` and `Results`;
- `BuildGraph` against `GraphOf`;
- `HandleChat` against `ChatTurn`.

The properties are proved as lemmas about those folds.

Graph updates are also expressed as a deep merge of graphs (`Merge`). The
merge is associative and idempotent, with the empty graph as identity.
Because every update is a merge, the graph of `rows + rows` equals the graph
of `rows`.

## Model

| member | source | states |
|---|---|---|
| PyValue.SetItem | agent/spanner_agnet/spanner_tools.py:44 | `d[k] = v` maps `k` to `v` and leaves every other key's value alone; a dict with distinct keys stays so |
| PyValue.SetItemKeys | agent/spanner_agnet/spanner_tools.py:44 | assigning an existing key keeps the key order; a new key is appended last |
| PyValue.NatToString | agent/spanner_agnet/spanner_tools.py:103 | `str(n)` is a non-empty run of decimal digits without a leading zero, and those digits denote `n` |
| PyValue.Str | agent/spanner_agnet/spanner_tools.py:86-88 | `str` of a string is the string itself; `str` of an integer is a run of decimal digits, after a minus sign when negative, that denotes its value; anything else prints as its `repr` |
| PyValue.StrReprRoundTrip | agent/spanner_agnet/spanner_tools.py:103 | `repr` of a string sits between two equal quotes (single or double), and its inside unescapes back to the string |
| SpannerRows.Results | agent/spanner_agnet/spanner_tools.py:41-45 | one dict per result row |
| SpannerRows.RowDictDistinct | agent/spanner_agnet/spanner_tools.py:42-44 | a row dict never holds a column name twice |
| SpannerRows.RowDictKeys | agent/spanner_agnet/spanner_tools.py:42-44 | a row dict's keys are exactly the column names |
| SpannerRows.RowDictKeyOrder | agent/spanner_agnet/spanner_tools.py:42-44 | a row dict iterates over the column names in first-occurrence order |
| SpannerRows.RowDictLaterColumnWins | agent/spanner_agnet/spanner_tools.py:43-44 | column `i` is the value under its name unless a later column has the same name (the later column wins) |
| SpannerRows.DecodeRow | agent/spanner_agnet/spanner_tools.py:42-44 | the inner loop builds exactly the row dict `RowDict(fields, row)` |
| SpannerRows.CollectRows | agent/spanner_agnet/spanner_tools.py:39-47 | the loop yields, in row order, the dict of every row |
| MultiGraph.WithNode | agent/spanner_agnet/spanner_tools.py:100 | `add_node` adds exactly that node (if new), leaves the edges alone and keeps every edge's endpoints present |
| MultiGraph.WithNodeAttrs | agent/spanner_agnet/spanner_tools.py:100 | re-adding a node adds no second node; the new attributes overwrite old ones of the same name, the rest stay, other nodes are untouched |
| MultiGraph.WithEdge | agent/spanner_agnet/spanner_tools.py:92 | `add_edge` makes both endpoints nodes and adds exactly the `(u, v, key)` edge (if new) |
| MultiGraph.WithEdgeNodeAttrs | agent/spanner_agnet/spanner_tools.py:92 | `add_edge` leaves existing nodes' attributes alone and gives new endpoints none |
| MultiGraph.WithEdgeAttrs | agent/spanner_agnet/spanner_tools.py:92 | a repeated `(u, v, key)` gives no second edge and its attributes are updated key by key; other edges are untouched |
| MultiGraph.MergeAssoc | agent/spanner_agnet/spanner_tools.py:75-100 | laying graph updates over a graph is associative |
| MultiGraph.MergeIdempotent | agent/spanner_agnet/spanner_tools.py:75-100 | laying a graph over itself changes nothing |
| MultiGraph.MergeEmpty | agent/spanner_agnet/spanner_tools.py:73 | the fresh empty graph is the identity of laying graphs over one another |
| MultiGraph.WithNodeIsMerge | agent/spanner_agnet/spanner_tools.py:100 | `add_node` is laying a one-node graph over the graph |
| MultiGraph.WithEdgeIsMerge | agent/spanner_agnet/spanner_tools.py:92 | `add_edge` is laying the edge with its two bare endpoints over the graph |
| MultiGraph.MultiDiGraph.constructor | agent/spanner_agnet/spanner_tools.py:73 | `nx.MultiDiGraph()` is the empty graph |
| MultiGraph.MultiDiGraph.AddNode | agent/spanner_agnet/spanner_tools.py:100 | the object's new graph is `WithNode` of its old one, and endpoints stay present |
| MultiGraph.MultiDiGraph.AddEdge | agent/spanner_agnet/spanner_tools.py:92 | the object's new graph is `WithEdge` of its old one, and endpoints stay present |
| MultiGraph.MultiDiGraph.NumberOfNodes | agent/spanner_agnet/spanner_tools.py:102 | the count is zero exactly when the graph has no node |
| GraphInterpreter.Classify | agent/spanner_agnet/spanner_tools.py:77-100 | a non-dict or a dict without `identifier` is skipped; with `source_node_identifier` it is an edge, otherwise a node. The edge's key, source and target are the stringified ids, its `label` is `labels[0]` or `RELATED`, and its properties are carried. The node's id is the stringified id, its `category` is `labels[0]` or `Unknown`, its `label` is the `Name` property or else the id, and its properties are carried |
| GraphInterpreter.ApplyElement | agent/spanner_agnet/spanner_tools.py:84-100 | a skipped value leaves the graph unchanged; a node adds its id; an edge adds both endpoints and its `(source, target, key)` |
| GraphInterpreter.ApplyRow | agent/spanner_agnet/spanner_tools.py:76-100 | a row never removes a node and keeps endpoints present |
| GraphInterpreter.ApplyRows | agent/spanner_agnet/spanner_tools.py:75-100 | the rows never remove a node and keep endpoints present |
| GraphInterpreter.ApplyRowsIsMerge | agent/spanner_agnet/spanner_tools.py:75-100 | folding rows over a graph is laying the graph of those rows over it |
| GraphInterpreter.GraphOfAppend | agent/spanner_agnet/spanner_tools.py:75-100 | the graph of `a + b` is the graph of `b` laid over that of `a` |
| GraphInterpreter.GraphOfRepeated | agent/spanner_agnet/spanner_tools.py:75-100 | repeating every row gives the same graph: repeated nodes and edges give no duplicates |
| GraphInterpreter.NoElementsEmptyGraph | agent/spanner_agnet/spanner_tools.py:76-83 | rows whose values are all non-dicts or dicts without `identifier` give the empty graph |
| GraphInterpreter.ElementGivesNode | agent/spanner_agnet/spanner_tools.py:83-102 | any dict with `identifier`, node or edge, leaves the graph with a node, so results holding only edges are not reported as empty |
| GraphInterpreter.ElementInGraph | agent/spanner_agnet/spanner_tools.py:75-100 | every node of every row is in the final graph under its id, and every edge under its `(source, target, key)` with both endpoints as nodes, whatever rows come before or after |
| GraphInterpreter.NodeScenario | agent/spanner_agnet/spanner_tools.py:93-100 | a node `W1` of category `Warehouse` named `Central` gives one node with `Name`, `label` `Central` and that category, and no edges |
| GraphInterpreter.EdgeScenario | agent/spanner_agnet/spanner_tools.py:84-92 | a node row then an unlabelled edge row `W1→S1` gives exactly one edge labelled `RELATED`, and `S1` as a node without attributes |
| GraphInterpreter.BuildGraph | agent/spanner_agnet/spanner_tools.py:73-100 | the nested loop leaves the graph object holding exactly `GraphOf(results)` |
| GraphInterpreter.RunGraphQueryViz | agent/spanner_agnet/spanner_tools.py:61-121 | the result is `Query returned N rows but no graph elements could be parsed. Raw Results: <repr of the first two rows>` exactly when the graph has no node; otherwise it is the message naming the output path |
| ChatEndpoint.QueryOf | app/main.py:93-106 | a part yields at most one record, and yields one exactly when it calls `run_sql_query` or `run_graph_query_viz` with `args` holding `query`; the record's tool is the call's own name and its query is `args['query']` |
| ChatEndpoint.ResponseText | app/main.py:108-109 | the response is never empty: the model text when there is some, else `No response from agent.` |
| ChatEndpoint.ChatTurn | app/main.py:62-133 | 503 `Agent not initialized` with no runner; 500 with the exception's text when the run raises; 500 `argument of type 'NoneType' is not iterable` when a database-tool call has no `args`; success exactly when the runner is ready, the run returns events and no database-tool call lacks `args`; on success, the response text, the URL (`/static/local_example.html` exactly when the flag is set and the file exists, else null) and the queries |
| ChatEndpoint.ModelTextAppend | app/main.py:82-88 | the response text of events `a + b` is that of `a` followed by that of `b`: concatenation in event order |
| ChatEndpoint.OnlyModelText | app/main.py:84-88 | text in non-`model` roles contributes nothing: the text equals that of the model's events alone |
| ChatEndpoint.QueriesAppend | app/main.py:82-106 | the queries of events `a + b` are those of `a` followed by those of `b` |
| ChatEndpoint.QueriesMember | app/main.py:99-106 | a record is among the queries exactly when some part of some event is a database-tool call whose `args` give it |
| ChatEndpoint.QueriesTools | app/main.py:100-106 | no tool other than `run_sql_query` and `run_graph_query_viz` is ever recorded |
| ChatEndpoint.AnyEventPartIff | app/main.py:91-97 | the folded per-part flag holds exactly when some part of some event satisfies the test |
| ChatEndpoint.HasVizIff | app/main.py:91-97 | the visualization flag is set exactly when some part calls `run_graph_query_viz` |
| ChatEndpoint.SilentEventText | app/main.py:84 | an event without content or parts, inserted anywhere, adds no text |
| ChatEndpoint.SilentEventQueries | app/main.py:91 | an event without content or parts, inserted anywhere, adds no query |
| ChatEndpoint.SilentEventFlags | app/main.py:91 | an event without content or parts changes neither the visualization flag nor whether the scan raises |
| ChatEndpoint.AppendEventText | app/main.py:84-88 | the text loop appends exactly the event's contribution |
| ChatEndpoint.ScanCalls | app/main.py:91-106 | the call loop raises exactly on a database-tool call without `args`, and otherwise updates the flag and appends the event's queries |
| ChatEndpoint.HandleChat | app/main.py:60-133 | the endpoint's outcome is exactly `ChatTurn` |

## Left out

- Spanner access is not modelled: the environment lookup, the client, `snapshot()` and `execute_sql`. The column names and result rows are inputs.
- Rendering and filesystem work are not modelled: `Sigma.write_html`, `os.makedirs`, and the `uuid4` file name. The output path is a parameter of `RunGraphQueryViz`.
- The app's web plumbing is not modelled: FastAPI setup, static mounting, `get_index`, `lifespan` and logging.
- `os.path.exists` is not modelled; its answer is the boolean `vizFileExists`.
- `shutil.copy2` is not modelled, and neither is a failure of it, which would be a 500.
- `runner.run_debug` and the async agent runtime are not modelled. Its events, or the text of the exception it raised, are an input (`RunResult`); runner presence is a boolean.
- `request.session_id` and `request.message` only flow into the runner and logging, so they are not modelled.
- Python values are limited to None, booleans, integers, strings, lists and dicts. Floats, bytes, dates and the client's JSON wrapper type are not modelled, nor their `str`/`repr`.
- `repr` escapes only ASCII control characters. Non-printable non-ASCII characters, which Python writes as `\x`, `\u` or `\U` escapes, are not modelled.
- GraphInterpreter.Classify requires `Interpretable`: the cases where the source raises are excluded. These are:
  - `labels` that cannot be indexed;
  - `properties` that is not a dict;
  - properties whose names clash with the parameters `add_node` or `add_edge` already binds (`self`, `label`, `category`, `node_for_adding`; `self`, `label`, `key`, `u_for_edge`, `v_for_edge`).
- agent/spanner_agnet/agent.py, sql_agent.py and gql_agent.py are not modelled: they only configure the LLM agents.

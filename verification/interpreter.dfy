/** The graph result interpreter of `run_graph_query_viz`
    (agent/spanner_agnet/spanner_tools.py): every value of every decoded row
    is classified as a node, an edge or neither, and nodes and edges are added
    to a `MultiDiGraph`; a graph without nodes yields a diagnostic string. */
module GraphInterpreter {
  import opened PyValue
  import opened SpannerRows
  import opened MultiGraph

  /** What one row value contributes, decided once per value. */
  datatype Element =
    | NotAnElement
    | NodeElement(id: string, attrs: Attrs)
    | EdgeElement(source: string, target: string, key: string, attrs: Attrs)

  /** `labels[0] if labels else default` does not raise: `labels` is falsy,
      or a list or a string (both non-empty once truthy). */
  predicate LabelsUsable(labels: Value) {
    !Truthy(labels) || labels.PyList? || labels.PyStr?
  }

  /** `labels[0] if labels else default` */
  function FirstLabel(labels: Value, default: string): (r: Value)
    requires LabelsUsable(labels)
    ensures !Truthy(labels) ==> r == PyStr(default)
    ensures Truthy(labels) && labels.PyList? ==> [r] + labels.elems[1..] == labels.elems
    ensures Truthy(labels) && labels.PyStr? ==> r.PyStr? && |r.s| == 1 && r.s + labels.s[1..] == labels.s
  {
    if !Truthy(labels) then PyStr(default)
    else if labels.PyList? then labels.elems[0]
    else PyStr([labels.s[0]])
  }

  /** `props.get(...)` and `**props` do not raise: `props` is a dict and has
      none of the parameter names the bound call already binds
      (`add_node(self, node_for_adding, label=, category=)`,
      `add_edge(self, u_for_edge, v_for_edge, key=, label=)`). */
  predicate PropsUsable(props: Value, isEdge: bool) {
    && props.PyDict?
    && !Has(props.items, "label")
    && !Has(props.items, "self")
    && (if isEdge
        then !Has(props.items, "u_for_edge") && !Has(props.items, "v_for_edge")
             && !Has(props.items, "key")
        else !Has(props.items, "node_for_adding") && !Has(props.items, "category"))
  }

  /** Lines 83-100 run on `v` without raising. */
  predicate Interpretable(v: Value) {
    v.PyDict? && Has(v.items, "identifier") ==>
      && LabelsUsable(GetOr(v.items, "labels", PyList([])))
      && PropsUsable(GetOr(v.items, "properties", PyDict([])),
                     Has(v.items, "source_node_identifier"))
  }

  /** `element.get('properties', {})` as an attribute dict. */
  function PropsOf(items: seq<(string, Value)>): Attrs {
    var props := GetOr(items, "properties", PyDict([]));
    if props.PyDict? then ToMap(props.items) else map[]
  }

  /** Lines 77-100: a non-dict, or a dict without `identifier`, is skipped; a
      dict with `source_node_identifier` is an edge; any other dict with
      `identifier` is a node. Ids are stringified, `labels[0]` names the
      relation (default `RELATED`) or the category (default `Unknown`), a
      node's label is its `Name` property or else its id, and every property
      is carried along. */
  function Classify(v: Value): (e: Element)
    requires Interpretable(v)
    ensures e.NotAnElement? <==> !v.PyDict? || !Has(v.items, "identifier")
    ensures e.EdgeElement? <==>
              v.PyDict? && Has(v.items, "identifier") && Has(v.items, "source_node_identifier")
    ensures e.EdgeElement? ==>
              && e.key == Str(GetOr(v.items, "identifier", PyNone))
              && e.source == Str(GetOr(v.items, "source_node_identifier", PyNone))
              && e.target == Str(GetOr(v.items, "destination_node_identifier", PyNone))
              && e.attrs.Keys == PropsOf(v.items).Keys + {"label"}
              && e.attrs["label"] == FirstLabel(GetOr(v.items, "labels", PyList([])), "RELATED")
              && (forall p :: p in PropsOf(v.items) ==> e.attrs[p] == PropsOf(v.items)[p])
    ensures e.NodeElement? ==>
              && e.id == Str(GetOr(v.items, "identifier", PyNone))
              && e.attrs.Keys == PropsOf(v.items).Keys + {"label", "category"}
              && e.attrs["category"] == FirstLabel(GetOr(v.items, "labels", PyList([])), "Unknown")
              && e.attrs["label"] == (if "Name" in PropsOf(v.items)
                                      then PropsOf(v.items)["Name"] else PyStr(e.id))
              && (forall p :: p in PropsOf(v.items) ==> e.attrs[p] == PropsOf(v.items)[p])
  {
    if !v.PyDict? then NotAnElement
    else
      var element := v.items;
      if !Has(element, "identifier") then NotAnElement
      else if Has(element, "source_node_identifier") then
        var edgeId := Str(GetOr(element, "identifier", PyNone));
        var sourceId := Str(GetOr(element, "source_node_identifier", PyNone));
        var targetId := Str(GetOr(element, "destination_node_identifier", PyNone));
        var relType := FirstLabel(GetOr(element, "labels", PyList([])), "RELATED");
        var props := PropsOf(element);
        EdgeElement(sourceId, targetId, edgeId, props["label" := relType])
      else
        var nodeId := Str(GetOr(element, "identifier", PyNone));
        var category := FirstLabel(GetOr(element, "labels", PyList([])), "Unknown");
        var props := PropsOf(element);
        var labelProp := if "Name" in props then props["Name"] else PyStr(nodeId);
        NodeElement(nodeId, props["label" := labelProp]["category" := category])
  }

  /** One element added to the graph. */
  function ApplyElement(g: Graph, e: Element): (h: Graph)
    ensures e.NotAnElement? ==> h == g
    ensures e.NodeElement? ==> h.nodes.Keys == g.nodes.Keys + {e.id} && h.edges.Keys == g.edges.Keys
    ensures e.EdgeElement? ==>
              && h.nodes.Keys == g.nodes.Keys + {e.source, e.target}
              && h.edges.Keys == g.edges.Keys + {EdgeKey(e.source, e.target, e.key)}
    ensures EndpointsPresent(g) ==> EndpointsPresent(h)
  {
    match e
    case NotAnElement => g
    case NodeElement(id, attrs) => WithNode(g, id, attrs)
    case EdgeElement(source, target, key, attrs) => WithEdge(g, source, target, key, attrs)
  }

  predicate RowInterpretable(row: Row) {
    forall j :: 0 <= j < |row| ==> Interpretable(row[j].1)
  }

  predicate RowsInterpretable(rows: seq<Row>) {
    forall i :: 0 <= i < |rows| ==> RowInterpretable(rows[i])
  }

  /** Lines 76-100 for one row: its values in iteration order. */
  function ApplyRow(g: Graph, row: Row): (h: Graph)
    requires RowInterpretable(row)
    ensures g.nodes.Keys <= h.nodes.Keys
    ensures EndpointsPresent(g) ==> EndpointsPresent(h)
  {
    if row == [] then g
    else
      var n := |row| - 1;
      ApplyElement(ApplyRow(g, row[..n]), Classify(row[n].1))
  }

  /** Lines 75-100: the rows in order. */
  function ApplyRows(g: Graph, rows: seq<Row>): (h: Graph)
    requires RowsInterpretable(rows)
    ensures g.nodes.Keys <= h.nodes.Keys
    ensures EndpointsPresent(g) ==> EndpointsPresent(h)
  {
    if rows == [] then g
    else
      var n := |rows| - 1;
      ApplyRow(ApplyRows(g, rows[..n]), rows[n])
  }

  /** The graph the tool builds from its decoded rows. */
  function GraphOf(rows: seq<Row>): Graph
    requires RowsInterpretable(rows)
  {
    ApplyRows(Empty, rows)
  }

  // ---------------------------------------------------------------------
  // What the interpretation guarantees
  // ---------------------------------------------------------------------

  /** Adding one element is laying the graph of that element alone over the
      graph built so far. */
  lemma ApplyElementIsMerge(g: Graph, e: Element)
    ensures ApplyElement(g, e) == Merge(g, ApplyElement(Empty, e))
  {
    match e
    case NotAnElement =>
      MergeEmpty(g);
    case NodeElement(id, attrs) =>
      WithNodeIsMerge(g, id, attrs);
      WithNodeIsMerge(Empty, id, attrs);
      MergeEmpty(Graph(map[id := attrs], map[]));
    case EdgeElement(source, target, key, attrs) =>
      var d := Graph(map[source := map[], target := map[]], map[EdgeKey(source, target, key) := attrs]);
      WithEdgeIsMerge(g, source, target, key, attrs);
      WithEdgeIsMerge(Empty, source, target, key, attrs);
      MergeEmpty(d);
  }

  /** A row's contribution does not depend on the graph it is added to. */
  lemma {:induction false} ApplyRowIsMerge(g: Graph, row: Row)
    requires RowInterpretable(row)
    ensures ApplyRow(g, row) == Merge(g, ApplyRow(Empty, row))
  {
    if row == [] {
      MergeEmpty(g);
    } else {
      var n := |row| - 1;
      var e := Classify(row[n].1);
      ApplyRowIsMerge(g, row[..n]);
      var prev := ApplyRow(Empty, row[..n]);
      ApplyElementIsMerge(ApplyRow(g, row[..n]), e);
      ApplyElementIsMerge(prev, e);
      MergeAssoc(g, prev, ApplyElement(Empty, e));
    }
  }

  /** The rows' contribution does not depend on the graph they are added to. */
  lemma {:induction false} ApplyRowsIsMerge(g: Graph, rows: seq<Row>)
    requires RowsInterpretable(rows)
    ensures ApplyRows(g, rows) == Merge(g, ApplyRows(Empty, rows))
  {
    if rows == [] {
      MergeEmpty(g);
    } else {
      var n := |rows| - 1;
      ApplyRowsIsMerge(g, rows[..n]);
      var prev := ApplyRows(Empty, rows[..n]);
      ApplyRowIsMerge(ApplyRows(g, rows[..n]), rows[n]);
      ApplyRowIsMerge(prev, rows[n]);
      MergeAssoc(g, prev, ApplyRow(Empty, rows[n]));
    }
  }

  lemma {:induction false} ApplyRowsAppend(g: Graph, a: seq<Row>, b: seq<Row>)
    requires RowsInterpretable(a) && RowsInterpretable(b)
    ensures RowsInterpretable(a + b)
    ensures ApplyRows(g, a + b) == ApplyRows(ApplyRows(g, a), b)
  {
    assert forall i :: 0 <= i < |a + b| ==> (a + b)[i] == if i < |a| then a[i] else b[i - |a|];
    if b == [] {
      assert a + b == a;
    } else {
      var n := |b| - 1;
      assert (a + b)[..|a + b| - 1] == a + b[..n];
      ApplyRowsAppend(g, a, b[..n]);
    }
  }

  /** Later rows are laid over earlier ones: a node or an edge met again is
      not added twice, and its attributes named again are overwritten. */
  lemma GraphOfAppend(a: seq<Row>, b: seq<Row>)
    requires RowsInterpretable(a) && RowsInterpretable(b)
    ensures RowsInterpretable(a + b)
    ensures GraphOf(a + b) == Merge(GraphOf(a), GraphOf(b))
  {
    ApplyRowsAppend(Empty, a, b);
    ApplyRowsIsMerge(GraphOf(a), b);
  }

  /** Interpreting the same rows twice over gives the graph of interpreting
      them once. */
  lemma GraphOfRepeated(rows: seq<Row>)
    requires RowsInterpretable(rows)
    ensures RowsInterpretable(rows + rows)
    ensures GraphOf(rows + rows) == GraphOf(rows)
  {
    GraphOfAppend(rows, rows);
    MergeIdempotent(GraphOf(rows));
  }

  /** Rows with no dict holding `identifier` leave the graph empty. */
  lemma {:induction false} NoElementsEmptyGraph(rows: seq<Row>)
    requires RowsInterpretable(rows)
    requires forall i, j :: 0 <= i < |rows| && 0 <= j < |rows[i]| ==>
               !rows[i][j].1.PyDict? || !Has(rows[i][j].1.items, "identifier")
    ensures GraphOf(rows) == Empty
  {
    if rows != [] {
      var n := |rows| - 1;
      NoElementsEmptyGraph(rows[..n]);
      NoElementsRow(Empty, rows[n]);
    }
  }

  lemma {:induction false} NoElementsRow(g: Graph, row: Row)
    requires RowInterpretable(row)
    requires forall j :: 0 <= j < |row| ==> !row[j].1.PyDict? || !Has(row[j].1.items, "identifier")
    ensures ApplyRow(g, row) == g
  {
    if row != [] {
      NoElementsRow(g, row[..|row| - 1]);
    }
  }

  /** A value that is a dict with `identifier` puts a node in the graph, even
      when it is an edge (its endpoints become nodes). */
  lemma {:induction false} ElementGivesNode(rows: seq<Row>, i: nat, j: nat)
    requires RowsInterpretable(rows)
    requires i < |rows| && j < |rows[i]|
    requires rows[i][j].1.PyDict? && Has(rows[i][j].1.items, "identifier")
    ensures GraphOf(rows).nodes != map[]
  {
    var n := |rows| - 1;
    if i < n {
      ElementGivesNode(rows[..n], i, j);
    } else {
      ElementGivesNodeInRow(ApplyRows(Empty, rows[..n]), rows[n], j);
    }
  }

  lemma {:induction false} ElementGivesNodeInRow(g: Graph, row: Row, j: nat)
    requires RowInterpretable(row)
    requires j < |row|
    requires row[j].1.PyDict? && Has(row[j].1.items, "identifier")
    ensures ApplyRow(g, row).nodes != map[]
  {
    var n := |row| - 1;
    if j < n {
      ElementGivesNodeInRow(g, row[..n], j);
    }
    assert ApplyRow(g, row).nodes.Keys != {};
  }

  /** The graph holds the element: a node's id among the nodes; an edge's
      two endpoints among the nodes and its `(source, target, key)` among
      the edges. */
  predicate Holds(g: Graph, e: Element) {
    match e
    case NotAnElement => true
    case NodeElement(id, _) => id in g.nodes
    case EdgeElement(source, target, key, _) =>
      source in g.nodes && target in g.nodes && EdgeKey(source, target, key) in g.edges
  }

  /** Laying one graph over another keeps what either held. */
  lemma MergeHolds(g: Graph, d: Graph, e: Element)
    requires Holds(g, e) || Holds(d, e)
    ensures Holds(Merge(g, d), e)
  {
  }

  /** Adding an element leaves the graph holding it and everything it held. */
  lemma ApplyElementHolds(g: Graph, e: Element, other: Element)
    ensures Holds(ApplyElement(g, e), e)
    ensures Holds(g, other) ==> Holds(ApplyElement(g, e), other)
  {
    ApplyElementIsMerge(g, e);
    if Holds(g, other) {
      MergeHolds(g, ApplyElement(Empty, e), other);
    }
  }

  /** A row's last value is held after the row; what was held before it
      still is. */
  lemma RowLastStep(g: Graph, row: Row, other: Element)
    requires RowInterpretable(row) && row != []
    ensures Holds(ApplyRow(g, row), Classify(row[|row| - 1].1))
    ensures Holds(ApplyRow(g, row[..|row| - 1]), other) ==> Holds(ApplyRow(g, row), other)
  {
    ApplyElementHolds(ApplyRow(g, row[..|row| - 1]), Classify(row[|row| - 1].1), other);
  }

  lemma {:induction false} ElementHeldInRow(g: Graph, row: Row, j: nat)
    requires RowInterpretable(row)
    requires j < |row|
    ensures Holds(ApplyRow(g, row), Classify(row[j].1))
  {
    var n := |row| - 1;
    var e := Classify(row[j].1);
    if j < n {
      ElementHeldInRow(g, row[..n], j);
      assert row[..n][j] == row[j];
    }
    RowLastStep(g, row, e);
  }

  /** Every node and every edge of every row ends up in the graph: a node
      under its id, an edge under its `(source, target, key)` with both
      endpoints as nodes, whatever rows come before or after it. */
  lemma {:induction false} ElementInGraph(rows: seq<Row>, i: nat, j: nat)
    requires RowsInterpretable(rows)
    requires i < |rows| && j < |rows[i]|
    ensures Holds(GraphOf(rows), Classify(rows[i][j].1))
  {
    var n := |rows| - 1;
    var e := Classify(rows[i][j].1);
    if i < n {
      ElementInGraph(rows[..n], i, j);
      assert rows[..n][i] == rows[i];
      RowsLastStep(rows, e);
    } else {
      ElementHeldInRow(ApplyRows(Empty, rows[..n]), rows[n], j);
    }
  }

  /** What the graph of all rows but the last holds, the graph of all rows
      still holds. */
  lemma RowsLastStep(rows: seq<Row>, e: Element)
    requires RowsInterpretable(rows) && rows != []
    ensures Holds(GraphOf(rows[..|rows| - 1]), e) ==> Holds(GraphOf(rows), e)
  {
    var n := |rows| - 1;
    var before := ApplyRows(Empty, rows[..n]);
    ApplyRowIsMerge(before, rows[n]);
    if Holds(before, e) {
      MergeHolds(before, ApplyRow(Empty, rows[n]), e);
    }
  }

  /** `{"identifier": "W1", "labels": ["Warehouse"], "properties": {"Name": "Central"}}` */
  const CentralNode: Value :=
    PyDict([("identifier", PyStr("W1")),
            ("labels", PyList([PyStr("Warehouse")])),
            ("properties", PyDict([("Name", PyStr("Central"))]))])

  lemma CentralNodeFields()
    ensures ToMap(CentralNode.items)
         == map["identifier" := PyStr("W1"), "labels" := PyList([PyStr("Warehouse")]),
                "properties" := PyDict([("Name", PyStr("Central"))])]
    ensures ToMap([("Name", PyStr("Central"))]) == map["Name" := PyStr("Central")]
  {
    var items := CentralNode.items;
    ToMapSnoc([], items[0].0, items[0].1);
    ToMapSnoc([items[0]], items[1].0, items[1].1);
    ToMapSnoc([items[0], items[1]], items[2].0, items[2].1);
    ToMapSnoc([], "Name", PyStr("Central"));
  }

  lemma CentralNodeElement()
    ensures Interpretable(CentralNode)
    ensures Classify(CentralNode)
         == NodeElement("W1", map["Name" := PyStr("Central"), "label" := PyStr("Central"),
                                  "category" := PyStr("Warehouse")])
  {
    CentralNodeFields();
    var items := CentralNode.items;
    assert Has(items, "identifier") && !Has(items, "source_node_identifier");
    assert GetOr(items, "identifier", PyNone) == PyStr("W1");
    assert GetOr(items, "labels", PyList([])) == PyList([PyStr("Warehouse")]);
    assert GetOr(items, "properties", PyDict([])) == PyDict([("Name", PyStr("Central"))]);
    assert PropsOf(items) == map["Name" := PyStr("Central")];
  }

  /** A single row is applied as that row. */
  lemma OneRow(g: Graph, r: Row)
    requires RowInterpretable(r)
    ensures RowsInterpretable([r])
    ensures ApplyRows(g, [r]) == ApplyRow(g, r)
  {
    assert [r][..0] == [];
  }

  /** A single row holding the node W1 of category Warehouse named Central
      gives exactly that node, labelled Central, and no edge. */
  lemma NodeScenario()
    ensures RowsInterpretable([[("n", CentralNode)]])
    ensures GraphOf([[("n", CentralNode)]])
         == Graph(map["W1" := map["Name" := PyStr("Central"), "label" := PyStr("Central"),
                                  "category" := PyStr("Warehouse")]],
                  map[])
  {
    var attrs := map["Name" := PyStr("Central"), "label" := PyStr("Central"),
                     "category" := PyStr("Warehouse")];
    CentralNodeElement();
    SingleColumnRow(Empty, "n", CentralNode);
    OneRow(Empty, [("n", CentralNode)]);
    assert map[] + attrs == attrs;
  }

  /** The node and edge elements of the second scenario. */
  const ScenarioNode: Value :=
    PyDict([("identifier", PyStr("W1")), ("labels", PyList([PyStr("Warehouse")]))])
  const ScenarioEdge: Value :=
    PyDict([("identifier", PyStr("E1")),
            ("source_node_identifier", PyStr("W1")),
            ("destination_node_identifier", PyStr("S1")),
            ("labels", PyList([]))])

  lemma ScenarioNodeFields()
    ensures ToMap(ScenarioNode.items)
         == map["identifier" := PyStr("W1"), "labels" := PyList([PyStr("Warehouse")])]
  {
    var wi := ScenarioNode.items;
    ToMapSnoc([], wi[0].0, wi[0].1);
    ToMapSnoc([wi[0]], wi[1].0, wi[1].1);
  }

  lemma ScenarioEdgeFields()
    ensures ToMap(ScenarioEdge.items)
         == map["identifier" := PyStr("E1"), "source_node_identifier" := PyStr("W1"),
                "destination_node_identifier" := PyStr("S1"), "labels" := PyList([])]
  {
    var ei := ScenarioEdge.items;
    ToMapSnoc([], ei[0].0, ei[0].1);
    assert [] + [ei[0]] == [ei[0]];
    ToMapSnoc([ei[0]], ei[1].0, ei[1].1);
    assert [ei[0]] + [ei[1]] == [ei[0], ei[1]];
    ToMapSnoc([ei[0], ei[1]], ei[2].0, ei[2].1);
    assert [ei[0], ei[1]] + [ei[2]] == [ei[0], ei[1], ei[2]];
    ToMapSnoc([ei[0], ei[1], ei[2]], ei[3].0, ei[3].1);
    assert ei == [ei[0], ei[1], ei[2]] + [ei[3]];
  }

  lemma ScenarioNodeElement()
    ensures Interpretable(ScenarioNode)
    ensures Classify(ScenarioNode)
         == NodeElement("W1", map["label" := PyStr("W1"), "category" := PyStr("Warehouse")])
  {
    ScenarioNodeFields();
    var items := ScenarioNode.items;
    assert Has(items, "identifier") && !Has(items, "source_node_identifier");
    assert GetOr(items, "identifier", PyNone) == PyStr("W1");
    assert GetOr(items, "labels", PyList([])) == PyList([PyStr("Warehouse")]);
    assert GetOr(items, "properties", PyDict([])) == PyDict([]);
    assert PropsOf(items) == map[];
  }

  lemma ScenarioEdgeElement()
    ensures Interpretable(ScenarioEdge)
    ensures Classify(ScenarioEdge)
         == EdgeElement("W1", "S1", "E1", map["label" := PyStr("RELATED")])
  {
    ScenarioEdgeFields();
    var items := ScenarioEdge.items;
    assert Has(items, "identifier") && Has(items, "source_node_identifier");
    assert GetOr(items, "identifier", PyNone) == PyStr("E1");
    assert GetOr(items, "source_node_identifier", PyNone) == PyStr("W1");
    assert GetOr(items, "destination_node_identifier", PyNone) == PyStr("S1");
    assert GetOr(items, "labels", PyList([])) == PyList([]);
    assert GetOr(items, "properties", PyDict([])) == PyDict([]);
    assert PropsOf(items) == map[];
  }

  /** A one-column row applies its one value. */
  lemma SingleColumnRow(g: Graph, k: string, v: Value)
    requires Interpretable(v)
    ensures ApplyRow(g, [(k, v)]) == ApplyElement(g, Classify(v))
  {
    assert [(k, v)][..0] == [];
  }

  /** Two rows apply one after the other. */
  lemma TwoRows(g: Graph, r0: Row, r1: Row)
    requires RowInterpretable(r0) && RowInterpretable(r1)
    ensures RowsInterpretable([r0, r1])
    ensures ApplyRows(g, [r0, r1]) == ApplyRow(ApplyRow(g, r0), r1)
  {
    var rows := [r0, r1];
    assert rows[..1] == [r0];
    assert [r0][..0] == [];
    assert ApplyRows(g, [r0]) == ApplyRow(ApplyRows(g, []), r0);
    assert ApplyRows(g, rows) == ApplyRow(ApplyRows(g, rows[..1]), r1);
  }

  /** After the first scenario row: W1 with its label and category. */
  lemma ScenarioFirstRow()
    ensures RowInterpretable([("n", ScenarioNode)])
    ensures ApplyRow(Empty, [("n", ScenarioNode)])
         == WithNode(Empty, "W1", map["label" := PyStr("W1"), "category" := PyStr("Warehouse")])
  {
    ScenarioNodeElement();
    SingleColumnRow(Empty, "n", ScenarioNode);
  }

  /** The second scenario row adds the edge to whatever graph it meets. */
  lemma ScenarioSecondRow(g: Graph)
    ensures RowInterpretable([("e", ScenarioEdge)])
    ensures ApplyRow(g, [("e", ScenarioEdge)])
         == WithEdge(g, "W1", "S1", "E1", map["label" := PyStr("RELATED")])
  {
    ScenarioEdgeElement();
    SingleColumnRow(g, "e", ScenarioEdge);
  }

  /** The graph of the two scenario rows: W1 added as a node, then the edge. */
  lemma EdgeScenarioGraph()
    ensures RowsInterpretable([[("n", ScenarioNode)], [("e", ScenarioEdge)]])
    ensures GraphOf([[("n", ScenarioNode)], [("e", ScenarioEdge)]])
         == WithEdge(WithNode(Empty, "W1", map["label" := PyStr("W1"), "category" := PyStr("Warehouse")]),
                     "W1", "S1", "E1", map["label" := PyStr("RELATED")])
  {
    ScenarioFirstRow();
    ScenarioSecondRow(ApplyRow(Empty, [("n", ScenarioNode)]));
    TwoRows(Empty, [("n", ScenarioNode)], [("e", ScenarioEdge)]);
  }

  /** A node row for W1 followed by an edge row from W1 to S1 with no labels
      gives exactly one edge, labelled RELATED, and S1 as a bare node. */
  lemma EdgeScenario()
    ensures var rows: seq<Row> := [[("n", ScenarioNode)], [("e", ScenarioEdge)]];
            && RowsInterpretable(rows)
            && GraphOf(rows).edges == map[EdgeKey("W1", "S1", "E1") := map["label" := PyStr("RELATED")]]
            && GraphOf(rows).nodes.Keys == {"W1", "S1"}
            && GraphOf(rows).nodes["S1"] == map[]
  {
    EdgeScenarioGraph();
    var edgeAttrs := map["label" := PyStr("RELATED")];
    assert map[] + edgeAttrs == edgeAttrs;
  }

  // ---------------------------------------------------------------------
  // The tool's result string
  // ---------------------------------------------------------------------

  /** Line 103: the row count and `repr(results[:2])`. */
  function NoElementsMessage(results: seq<Row>): string {
    var sample := if |results| <= 2 then results else results[..2];
    "Query returned " + NatToString(|results|)
      + " rows but no graph elements could be parsed. Raw Results: "
      + Repr(PyList(seq(|sample|, i requires 0 <= i < |sample| => PyDict(sample[i]))))
  }

  /** Line 121, with the output path passed in. */
  function GeneratedMessage(outputPath: string): string {
    "Graph visualization generated at: " + outputPath
  }

  // ---------------------------------------------------------------------
  // The imperative tool
  // ---------------------------------------------------------------------

  /** Lines 73-100: fill a fresh `MultiDiGraph` from the rows. */
  method BuildGraph(results: seq<Row>) returns (g: MultiDiGraph)
    requires RowsInterpretable(results)
    ensures fresh(g) && g.Valid()
    ensures g.Model() == GraphOf(results)
  {
    g := new MultiDiGraph();
    for i := 0 to |results|
      invariant fresh(g) && g.Valid()
      invariant g.Model() == ApplyRows(Empty, results[..i])
    {
      var row := results[i];
      ghost var before := ApplyRows(Empty, results[..i]);
      for j := 0 to |row|
        invariant g.Valid()
        invariant g.Model() == ApplyRow(before, row[..j])
      {
        assert row[..j + 1][..j] == row[..j];
        var value := row[j].1;
        match Classify(value)
        case NotAnElement =>
        case EdgeElement(sourceId, targetId, edgeId, attrs) =>
          g.AddEdge(sourceId, targetId, edgeId, attrs);
        case NodeElement(nodeId, attrs) =>
          g.AddNode(nodeId, attrs);
      }
      assert row[..|row|] == row;
      assert results[..i + 1][..i] == results[..i];
    }
    assert results[..|results|] == results;
  }

  /** `run_graph_query_viz` from the executed query's columns and rows on:
      the diagnostic exactly when the graph has no node, otherwise the
      message naming the output file. */
  method RunGraphQueryViz(fields: seq<string>, resultSet: seq<seq<Value>>, outputPath: string)
    returns (msg: string)
    requires forall i :: 0 <= i < |resultSet| ==> |fields| <= |resultSet[i]|
    requires RowsInterpretable(Results(fields, resultSet))
    ensures var results := Results(fields, resultSet);
            msg == if GraphOf(results).nodes == map[]
                   then NoElementsMessage(results) else GeneratedMessage(outputPath)
  {
    var results := CollectRows(fields, resultSet);
    var g := BuildGraph(results);
    if g.NumberOfNodes() == 0 {
      return NoElementsMessage(results);
    }
    return GeneratedMessage(outputPath);
  }
}

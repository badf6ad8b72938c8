/** The directed multigraph the graph tool fills (networkx `MultiDiGraph`):
    node attributes keyed by node, edge attributes keyed by
    (source, target, edge key). Only `add_node`, `add_edge` and
    `number_of_nodes` are used by the tool. */
module MultiGraph {
  import opened PyValue

  /** An attribute dict; its order never matters to the tool. */
  type Attrs = map<string, Value>

  datatype EdgeKey = EdgeKey(source: string, target: string, key: string)

  /** The abstract value of a graph. */
  datatype Graph = Graph(nodes: map<string, Attrs>, edges: map<EdgeKey, Attrs>)

  const Empty: Graph := Graph(map[], map[])

  /** networkx keeps every edge's endpoints among the nodes. */
  predicate EndpointsPresent(g: Graph) {
    forall e :: e in g.edges ==> e.source in g.nodes && e.target in g.nodes
  }

  /** `G.add_node(n, **attr)`: a new node gets `attr`; an existing node has
      its attribute dict updated with `attr`. */
  function WithNode(g: Graph, n: string, attr: Attrs): (h: Graph)
    ensures h.nodes.Keys == g.nodes.Keys + {n}
    ensures h.edges == g.edges
    ensures EndpointsPresent(g) ==> EndpointsPresent(h)
  {
    var prev := if n in g.nodes then g.nodes[n] else map[];
    Graph(g.nodes[n := prev + attr], g.edges)
  }

  /** `add_node` on an existing node adds no second node: it overwrites the
      attributes named in `attr`, keeps the others, and touches no other node. */
  lemma WithNodeAttrs(g: Graph, n: string, attr: Attrs)
    ensures var h := WithNode(g, n, attr);
            && (forall m :: m in g.nodes && m != n ==> h.nodes[m] == g.nodes[m])
            && h.nodes[n].Keys == attr.Keys + (if n in g.nodes then g.nodes[n].Keys else {})
            && (forall a :: a in h.nodes[n] ==>
                  h.nodes[n][a] == if a in attr then attr[a] else g.nodes[n][a])
  {
  }

  /** `G.add_edge(u, v, key=k, **attr)`: a missing endpoint is first added
      with no attributes; a new edge gets `attr`; an existing edge with the
      same (u, v, k) has its attribute dict updated with `attr`. */
  function WithEdge(g: Graph, u: string, v: string, k: string, attr: Attrs): (h: Graph)
    ensures h.nodes.Keys == g.nodes.Keys + {u, v}
    ensures h.edges.Keys == g.edges.Keys + {EdgeKey(u, v, k)}
    ensures EndpointsPresent(g) ==> EndpointsPresent(h)
  {
    var nodes1 := if u in g.nodes then g.nodes else g.nodes[u := map[]];
    var nodes2 := if v in nodes1 then nodes1 else nodes1[v := map[]];
    var e := EdgeKey(u, v, k);
    var prev := if e in g.edges then g.edges[e] else map[];
    Graph(nodes2, g.edges[e := prev + attr])
  }

  /** `add_edge` leaves existing nodes' attributes alone and gives new
      endpoints none. */
  lemma WithEdgeNodeAttrs(g: Graph, u: string, v: string, k: string, attr: Attrs)
    ensures var h := WithEdge(g, u, v, k, attr);
            && (forall m :: m in g.nodes ==> h.nodes[m] == g.nodes[m])
            && (forall m :: m in h.nodes && m !in g.nodes ==> h.nodes[m] == map[])
  {
  }

  /** `add_edge` adds no second edge for a repeated (u, v, k) but overwrites
      the attributes named in `attr`, and touches no other edge. */
  lemma WithEdgeAttrs(g: Graph, u: string, v: string, k: string, attr: Attrs)
    ensures var h := WithEdge(g, u, v, k, attr);
            && (forall e :: e in g.edges && e != EdgeKey(u, v, k) ==> h.edges[e] == g.edges[e])
            && var e := EdgeKey(u, v, k);
               && h.edges[e].Keys == attr.Keys + (if e in g.edges then g.edges[e].Keys else {})
               && (forall a :: a in h.edges[e] ==>
                     h.edges[e][a] == if a in attr then attr[a] else g.edges[e][a])
  {
  }

  // ---------------------------------------------------------------------
  // Graphs as accumulated updates
  // ---------------------------------------------------------------------

  /** Two maps of attribute dicts laid over each other: the dicts of keys in
      both are merged, the second winning per attribute. */
  function MergeMaps<K>(a: map<K, Attrs>, b: map<K, Attrs>): (r: map<K, Attrs>)
    ensures r.Keys == a.Keys + b.Keys
    ensures forall x :: x in r ==>
              r[x] == if x in a && x in b then a[x] + b[x] else if x in b then b[x] else a[x]
  {
    map x | x in a.Keys + b.Keys ::
      if x in a && x in b then a[x] + b[x] else if x in b then b[x] else a[x]
  }

  /** Graph `d` laid over graph `g`: every node and edge of either, and for
      those in both the attributes of `d` overwrite those of `g` key by key. */
  function Merge(g: Graph, d: Graph): (r: Graph)
    ensures r.nodes.Keys == g.nodes.Keys + d.nodes.Keys
    ensures r.edges.Keys == g.edges.Keys + d.edges.Keys
  {
    Graph(MergeMaps(g.nodes, d.nodes), MergeMaps(g.edges, d.edges))
  }

  lemma UnionAssoc(a: Attrs, b: Attrs, c: Attrs)
    ensures (a + b) + c == a + (b + c)
  {
    assert forall x :: x in (a + b) + c <==> x in a + (b + c);
    forall x | x in (a + b) + c ensures ((a + b) + c)[x] == (a + (b + c))[x] {
    }
  }

  lemma UnionSelf(a: Attrs)
    ensures a + a == a
  {
    assert forall x :: x in a + a <==> x in a;
  }

  lemma MergeMapsAssoc<K>(a: map<K, Attrs>, b: map<K, Attrs>, c: map<K, Attrs>)
    ensures MergeMaps(MergeMaps(a, b), c) == MergeMaps(a, MergeMaps(b, c))
  {
    var l, r := MergeMaps(MergeMaps(a, b), c), MergeMaps(a, MergeMaps(b, c));
    assert l.Keys == r.Keys;
    forall x | x in l ensures l[x] == r[x] {
      if x in a && x in b && x in c {
        UnionAssoc(a[x], b[x], c[x]);
      }
    }
  }

  lemma MergeMapsSelf<K>(a: map<K, Attrs>)
    ensures MergeMaps(a, a) == a
  {
    var r := MergeMaps(a, a);
    forall x | x in a ensures r[x] == a[x] {
      UnionSelf(a[x]);
    }
  }

  /** Laying updates over a graph is associative. */
  lemma MergeAssoc(g: Graph, d1: Graph, d2: Graph)
    ensures Merge(Merge(g, d1), d2) == Merge(g, Merge(d1, d2))
  {
    MergeMapsAssoc(g.nodes, d1.nodes, d2.nodes);
    MergeMapsAssoc(g.edges, d1.edges, d2.edges);
  }

  /** Laying the same updates twice is laying them once. */
  lemma MergeIdempotent(g: Graph)
    ensures Merge(g, g) == g
  {
    MergeMapsSelf(g.nodes);
    MergeMapsSelf(g.edges);
  }

  lemma MergeEmpty(g: Graph)
    ensures Merge(g, Empty) == g && Merge(Empty, g) == g
  {
    assert MergeMaps(g.nodes, map[]) == g.nodes;
    assert MergeMaps(g.edges, map[]) == g.edges;
    assert MergeMaps(map[], g.nodes) == g.nodes;
    assert MergeMaps(map[], g.edges) == g.edges;
  }

  /** `add_node` is laying a one-node graph over the graph. */
  lemma WithNodeIsMerge(g: Graph, n: string, attr: Attrs)
    ensures WithNode(g, n, attr) == Merge(g, Graph(map[n := attr], map[]))
  {
    var d := Graph(map[n := attr], map[]);
    var l, r := WithNode(g, n, attr), Merge(g, d);
    forall m | m in l.nodes ensures l.nodes[m] == r.nodes[m] {
      if m == n && n !in g.nodes {
        assert map[] + attr == attr;
      }
    }
    assert l.nodes == r.nodes;
    MergeEmpty(g);
    assert r.edges == MergeMaps(g.edges, map[]);
  }

  /** `add_edge` is laying a graph of the edge and its two bare endpoints
      over the graph. */
  lemma WithEdgeIsMerge(g: Graph, u: string, v: string, k: string, attr: Attrs)
    ensures WithEdge(g, u, v, k, attr)
         == Merge(g, Graph(map[u := map[], v := map[]], map[EdgeKey(u, v, k) := attr]))
  {
    WithEdgeNodesMerge(g, u, v, k, attr);
    WithEdgeEdgesMerge(g, u, v, k, attr);
  }

  /** Adding a bare node unless it is present is laying a bare node over. */
  lemma BareNodeMerge(m: map<string, Attrs>, u: string)
    ensures (if u in m then m else m[u := map[]]) == MergeMaps(m, map[u := map[]])
  {
    var r := MergeMaps(m, map[u := map[]]);
    if u in m {
      assert m[u] + map[] == m[u];
      assert r == m;
    } else {
      assert r == m[u := map[]];
    }
  }

  lemma TwoBareNodes(u: string, v: string)
    ensures MergeMaps(map[u := map[]], map[v := map[]]) == map[u := map[], v := map[]]
  {
    var none: Attrs := map[];
    assert none + none == none;
  }

  lemma WithEdgeNodesMerge(g: Graph, u: string, v: string, k: string, attr: Attrs)
    ensures WithEdge(g, u, v, k, attr).nodes == MergeMaps(g.nodes, map[u := map[], v := map[]])
  {
    var nodes1 := if u in g.nodes then g.nodes else g.nodes[u := map[]];
    var bu: map<string, Attrs> := map[u := map[]];
    var bv: map<string, Attrs> := map[v := map[]];
    BareNodeMerge(g.nodes, u);
    BareNodeMerge(nodes1, v);
    MergeMapsAssoc(g.nodes, bu, bv);
    TwoBareNodes(u, v);
    calc {
      WithEdge(g, u, v, k, attr).nodes;
      MergeMaps(nodes1, bv);
      MergeMaps(MergeMaps(g.nodes, bu), bv);
      MergeMaps(g.nodes, MergeMaps(bu, bv));
    }
  }

  lemma WithEdgeEdgesMerge(g: Graph, u: string, v: string, k: string, attr: Attrs)
    ensures WithEdge(g, u, v, k, attr).edges == MergeMaps(g.edges, map[EdgeKey(u, v, k) := attr])
  {
    var e := EdgeKey(u, v, k);
    var r := MergeMaps(g.edges, map[e := attr]);
    if e in g.edges {
      assert r == g.edges[e := g.edges[e] + attr];
    } else {
      assert map[] + attr == attr;
      assert r == g.edges[e := attr];
    }
  }

  // ---------------------------------------------------------------------
  // The graph object the tool mutates
  // ---------------------------------------------------------------------

  class MultiDiGraph {
    var nodes: map<string, Attrs>
    var edges: map<EdgeKey, Attrs>

    /** The graph's current abstract value. */
    function Model(): Graph
      reads this
    {
      Graph(nodes, edges)
    }

    ghost predicate Valid()
      reads this
    {
      EndpointsPresent(Model())
    }

    /** `nx.MultiDiGraph()` */
    constructor ()
      ensures Valid() && Model() == Empty
    {
      nodes := map[];
      edges := map[];
    }

    /** `G.add_node(n, **attr)` */
    method AddNode(n: string, attr: Attrs)
      requires Valid()
      modifies this
      ensures Valid()
      ensures Model() == WithNode(old(Model()), n, attr)
    {
      if n in nodes {
        nodes := nodes[n := nodes[n] + attr];
      } else {
        assert map[] + attr == attr;
        nodes := nodes[n := attr];
      }
    }

    /** `G.add_edge(u, v, key=k, **attr)` */
    method AddEdge(u: string, v: string, k: string, attr: Attrs)
      requires Valid()
      modifies this
      ensures Valid()
      ensures Model() == WithEdge(old(Model()), u, v, k, attr)
    {
      if u !in nodes {
        nodes := nodes[u := map[]];
      }
      if v !in nodes {
        nodes := nodes[v := map[]];
      }
      var e := EdgeKey(u, v, k);
      var data := if e in edges then edges[e] else map[];
      edges := edges[e := data + attr];
    }

    /** `G.number_of_nodes()` */
    function NumberOfNodes(): (count: nat)
      reads this
      ensures count == 0 <==> Model().nodes == map[]
    {
      |nodes|
    }
  }
}

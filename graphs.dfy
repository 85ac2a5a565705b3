/** A value model of the networkx `DiGraph` as the knowledge-graph code uses it: nodes carrying an
    optional `type` attribute and directed edges carrying a `relation` attribute. */
module Graphs {
  import opened Collections

  type Name = string

  /** A request entity: a node name and its type. */
  datatype Entity = Entity(name: Name, entityType: string)

  /** A request relation: a directed edge from `source` to `target` labelled `relation`. */
  datatype Relation = Relation(source: Name, target: Name, relation: string)

  /** `nodes` lists the nodes in insertion order; `types` holds the `type` attribute of the nodes
      that have one; `pairs` lists the (source, target) pairs that have an edge, in the order the
      edge was first added; `labels` holds each edge's `relation` attribute. */
  datatype Graph = Graph(
    nodes: seq<Name>,
    types: map<Name, string>,
    pairs: seq<(Name, Name)>,
    labels: map<(Name, Name), string>)

  const EmptyGraph: Graph := Graph([], map[], [], map[])

  /** The invariant every graph built by the operations below keeps. */
  predicate WellFormed(g: Graph) {
    && NoDuplicates(g.nodes)
    && (forall n :: n in g.types ==> n in g.nodes)
    && NoDuplicates(g.pairs)
    && (forall p :: p in g.labels ==> p in g.pairs)
    && (forall p :: p in g.pairs ==> p in g.labels && p.0 in g.nodes && p.1 in g.nodes)
  }

  /** The `type` attribute of node `n`, if it has one. */
  function TypeOf(g: Graph, n: Name): Option<string> {
    if n in g.types then Some(g.types[n]) else None
  }

  /** The `relation` attribute of the edge on pair `p`, if there is such an edge. */
  function LabelOf(g: Graph, p: (Name, Name)): Option<string> {
    if p in g.labels then Some(g.labels[p]) else None
  }

  /** Adds `n` at the end of the node order unless it is a node already. */
  function InsertNode(g: Graph, n: Name): Graph {
    if n in g.nodes then g else g.(nodes := g.nodes + [n])
  }

  /** `add_node(n, type=t)`: inserts the node or keeps its position, and sets its type. */
  function AddNode(g: Graph, n: Name, t: string): Graph {
    InsertNode(g, n).(types := g.types[n := t])
  }

  /** `add_edge(u, v, relation=r)`: inserts a missing `u`, then a missing `v`, without attributes;
      the edge keeps its position if it exists and gets label `r`. */
  function AddEdge(g: Graph, u: Name, v: Name, r: string): Graph {
    var h := InsertNode(InsertNode(g, u), v);
    h.(pairs := if (u, v) in h.labels then h.pairs else h.pairs + [(u, v)],
       labels := h.labels[(u, v) := r])
  }

  /** The graph after `add_node` for each entity in turn. */
  function AddEntities(g: Graph, es: seq<Entity>): Graph
    decreases |es|
  {
    if es == [] then g
    else
      var k := |es| - 1;
      AddNode(AddEntities(g, es[..k]), es[k].name, es[k].entityType)
  }

  /** The graph after `add_edge` for each relation in turn. */
  function AddEdges(g: Graph, rs: seq<Relation>): Graph
    decreases |rs|
  {
    if rs == [] then g
    else
      var k := |rs| - 1;
      AddEdge(AddEdges(g, rs[..k]), rs[k].source, rs[k].target, rs[k].relation)
  }

  function Names(es: seq<Entity>): set<Name> {
    set e | e in es :: e.name
  }

  function Endpoints(rs: seq<Relation>): set<Name> {
    (set r | r in rs :: r.source) + (set r | r in rs :: r.target)
  }

  function Pairs(rs: seq<Relation>): set<(Name, Name)> {
    set r | r in rs :: (r.source, r.target)
  }

  /** The position of the last entity named `n`. */
  function LastNamed(es: seq<Entity>, n: Name): (i: nat)
    requires n in Names(es)
    ensures i < |es| && es[i].name == n
    ensures forall j :: i < j < |es| ==> es[j].name != n
    decreases |es|
  {
    var k := |es| - 1;
    if es[k].name == n then k
    else
      assert es == es[..k] + [es[k]];
      assert n in Names(es[..k]);
      LastNamed(es[..k], n)
  }

  /** The position of the last relation on pair `p`. */
  function LastOnPair(rs: seq<Relation>, p: (Name, Name)): (i: nat)
    requires p in Pairs(rs)
    ensures i < |rs| && (rs[i].source, rs[i].target) == p
    ensures forall j :: i < j < |rs| ==> (rs[j].source, rs[j].target) != p
    decreases |rs|
  {
    var k := |rs| - 1;
    if (rs[k].source, rs[k].target) == p then k
    else
      assert rs == rs[..k] + [rs[k]];
      assert p in Pairs(rs[..k]);
      LastOnPair(rs[..k], p)
  }

  lemma InsertNodeStep(g: Graph, n: Name)
    requires WellFormed(g)
    ensures WellFormed(InsertNode(g, n))
    ensures forall m :: m in InsertNode(g, n).nodes <==> m in g.nodes || m == n
    ensures |g.nodes| <= |InsertNode(g, n).nodes| && InsertNode(g, n).nodes[..|g.nodes|] == g.nodes
    ensures InsertNode(g, n).types == g.types && InsertNode(g, n).pairs == g.pairs
    ensures InsertNode(g, n).labels == g.labels
    ensures n in g.nodes ==> InsertNode(g, n) == g
  {
    if n !in g.nodes {
      var ns := g.nodes + [n];
      assert ns[..|g.nodes|] == g.nodes;
      assert forall i :: 0 <= i < |g.nodes| ==> ns[i] == g.nodes[i];
      assert NoDuplicates(ns);
    }
  }

  /** Setting the label of a pair whose endpoints are nodes: the pair is appended when it has no
      edge yet, and nothing else changes. */
  lemma SetLabelStep(h: Graph, q: (Name, Name), r: string)
    requires WellFormed(h) && q.0 in h.nodes && q.1 in h.nodes
    ensures var h' := h.(pairs := if q in h.labels then h.pairs else h.pairs + [q], labels := h.labels[q := r]);
      && WellFormed(h')
      && |h.pairs| <= |h'.pairs| && h'.pairs[..|h.pairs|] == h.pairs
  {
    if q !in h.labels {
      var ps := h.pairs + [q];
      assert forall i :: 0 <= i < |h.pairs| ==> ps[i] == h.pairs[i];
      assert ps[..|h.pairs|] == h.pairs;
      assert NoDuplicates(ps);
    }
  }

  /** One `add_edge` step: endpoints appended when missing, everything earlier kept. */
  lemma AddEdgeStep(g: Graph, u: Name, v: Name, r: string)
    requires WellFormed(g)
    ensures WellFormed(AddEdge(g, u, v, r))
    ensures forall n :: n in AddEdge(g, u, v, r).nodes <==> n in g.nodes || n == u || n == v
    ensures |g.nodes| <= |AddEdge(g, u, v, r).nodes| && AddEdge(g, u, v, r).nodes[..|g.nodes|] == g.nodes
    ensures |g.pairs| <= |AddEdge(g, u, v, r).pairs| && AddEdge(g, u, v, r).pairs[..|g.pairs|] == g.pairs
    ensures AddEdge(g, u, v, r).types == g.types
    ensures u in g.nodes && v in g.nodes ==> AddEdge(g, u, v, r).nodes == g.nodes
  {
    InsertNodeStep(g, u);
    var h1 := InsertNode(g, u);
    InsertNodeStep(h1, v);
    var h := InsertNode(h1, v);
    assert h.nodes[..|g.nodes|] == g.nodes by {
      assert h.nodes[..|g.nodes|] == h.nodes[..|h1.nodes|][..|g.nodes|];
    }
    var q := (u, v);
    SetLabelStep(h, q, r);
    var e := h.(pairs := if q in h.labels then h.pairs else h.pairs + [q], labels := h.labels[q := r]);
    assert AddEdge(g, u, v, r) == e;
    assert e.nodes == h.nodes && e.types == g.types;
  }

  /** One `add_node` step. */
  lemma AddNodeStep(g: Graph, n: Name, t: string)
    requires WellFormed(g)
    ensures WellFormed(AddNode(g, n, t))
    ensures forall m :: m in AddNode(g, n, t).nodes <==> m in g.nodes || m == n
    ensures |g.nodes| <= |AddNode(g, n, t).nodes| && AddNode(g, n, t).nodes[..|g.nodes|] == g.nodes
    ensures AddNode(g, n, t).pairs == g.pairs && AddNode(g, n, t).labels == g.labels
  {
    InsertNodeStep(g, n);
  }

  lemma NamesLast(es: seq<Entity>)
    requires es != []
    ensures forall n :: n in Names(es) <==> n in Names(es[..|es| - 1]) || n == es[|es| - 1].name
  {
    var k := |es| - 1;
    forall n ensures n in Names(es) <==> n in Names(es[..k]) || n == es[k].name {
      if n in Names(es) {
        var x :| x in es && x.name == n;
        var i :| 0 <= i < |es| && es[i] == x;
        if i < k { assert es[..k][i] == x; }
      }
      if n in Names(es[..k]) {
        var x :| x in es[..k] && x.name == n;
        assert x in es;
      }
    }
  }

  /** Adding entities makes exactly the listed names new nodes, appended after the existing ones
      (which keep their order), and leaves the edges alone. */
  lemma {:induction false} AddEntitiesNodes(g: Graph, es: seq<Entity>)
    requires WellFormed(g)
    ensures WellFormed(AddEntities(g, es))
    ensures forall n :: n in AddEntities(g, es).nodes <==> n in g.nodes || n in Names(es)
    ensures |g.nodes| <= |AddEntities(g, es).nodes| && AddEntities(g, es).nodes[..|g.nodes|] == g.nodes
    ensures AddEntities(g, es).pairs == g.pairs && AddEntities(g, es).labels == g.labels
    decreases |es|
  {
    if es != [] {
      var k := |es| - 1;
      var h := AddEntities(g, es[..k]);
      var h' := AddEntities(g, es);
      AddEntitiesNodes(g, es[..k]);
      AddNodeStep(h, es[k].name, es[k].entityType);
      assert h' == AddNode(h, es[k].name, es[k].entityType);
      NamesLast(es);
      assert h'.nodes[..|g.nodes|] == h'.nodes[..|h.nodes|][..|g.nodes|];
    }
  }

  /** After adding entities, a listed name has the type of its last listing; every other node
      keeps its type, or its lack of one. */
  lemma {:induction false} AddEntitiesTypes(g: Graph, es: seq<Entity>)
    ensures forall n :: n in Names(es) ==> TypeOf(AddEntities(g, es), n) == Some(es[LastNamed(es, n)].entityType)
    ensures forall n :: n !in Names(es) ==> TypeOf(AddEntities(g, es), n) == TypeOf(g, n)
    decreases |es|
  {
    if es != [] {
      var k := |es| - 1;
      AddEntitiesTypes(g, es[..k]);
      assert es == es[..k] + [es[k]];
      assert Names(es) == Names(es[..k]) + {es[k].name};
      forall n | n in Names(es)
        ensures TypeOf(AddEntities(g, es), n) == Some(es[LastNamed(es, n)].entityType)
      {
        if n != es[k].name {
          assert n in Names(es[..k]);
          var i := LastNamed(es[..k], n);
          assert es[i] == es[..k][i];
          assert LastNamed(es, n) == i;
        }
      }
    }
  }

  /** Adding edges makes exactly the missing endpoints new nodes, appended after the existing ones;
      existing edges keep their positions, and no node's type changes. When every endpoint is a
      node already, the nodes are unchanged. */
  lemma {:induction false} AddEdgesNodes(g: Graph, rs: seq<Relation>)
    requires WellFormed(g)
    ensures WellFormed(AddEdges(g, rs))
    ensures forall n :: n in AddEdges(g, rs).nodes <==> n in g.nodes || n in Endpoints(rs)
    ensures |g.nodes| <= |AddEdges(g, rs).nodes| && AddEdges(g, rs).nodes[..|g.nodes|] == g.nodes
    ensures |g.pairs| <= |AddEdges(g, rs).pairs| && AddEdges(g, rs).pairs[..|g.pairs|] == g.pairs
    ensures AddEdges(g, rs).types == g.types
    ensures (forall n :: n in Endpoints(rs) ==> n in g.nodes) ==> AddEdges(g, rs).nodes == g.nodes
    decreases |rs|
  {
    if rs != [] {
      var k := |rs| - 1;
      var h := AddEdges(g, rs[..k]);
      var h' := AddEdges(g, rs);
      AddEdgesNodes(g, rs[..k]);
      AddEdgeStep(h, rs[k].source, rs[k].target, rs[k].relation);
      assert h' == AddEdge(h, rs[k].source, rs[k].target, rs[k].relation);
      EndpointsLast(rs);
      assert h'.nodes[..|g.nodes|] == h'.nodes[..|h.nodes|][..|g.nodes|];
      assert h'.pairs[..|g.pairs|] == h'.pairs[..|h.pairs|][..|g.pairs|];
    }
  }

  lemma EndpointsLast(rs: seq<Relation>)
    requires rs != []
    ensures forall n :: n in Endpoints(rs) <==>
      n in Endpoints(rs[..|rs| - 1]) || n == rs[|rs| - 1].source || n == rs[|rs| - 1].target
  {
    var k := |rs| - 1;
    forall n ensures n in Endpoints(rs) <==> n in Endpoints(rs[..k]) || n == rs[k].source || n == rs[k].target {
      if n in Endpoints(rs) {
        var x :| x in rs && (x.source == n || x.target == n);
        var i :| 0 <= i < |rs| && rs[i] == x;
        if i < k { assert rs[..k][i] == x; }
      }
      if n in Endpoints(rs[..k]) {
        var x :| x in rs[..k] && (x.source == n || x.target == n);
        assert x in rs;
      }
    }
  }

  /** After adding edges, a pair that some relation names carries the label of the last
      relation on it; every other pair, in particular the reverse of an added pair, keeps its
      edge or its lack of one. */
  lemma {:induction false} AddEdgesLabels(g: Graph, rs: seq<Relation>)
    ensures forall p :: p in Pairs(rs) ==> LabelOf(AddEdges(g, rs), p) == Some(rs[LastOnPair(rs, p)].relation)
    ensures forall p :: p !in Pairs(rs) ==> LabelOf(AddEdges(g, rs), p) == LabelOf(g, p)
    decreases |rs|
  {
    if rs != [] {
      var k := |rs| - 1;
      AddEdgesLabels(g, rs[..k]);
      assert rs == rs[..k] + [rs[k]];
      var q := (rs[k].source, rs[k].target);
      assert Pairs(rs) == Pairs(rs[..k]) + {q};
      forall p | p in Pairs(rs)
        ensures LabelOf(AddEdges(g, rs), p) == Some(rs[LastOnPair(rs, p)].relation)
      {
        if p != q {
          assert p in Pairs(rs[..k]);
          var i := LastOnPair(rs[..k], p);
          assert rs[i] == rs[..k][i];
          assert LastOnPair(rs, p) == i;
        }
      }
    }
  }

  // ---- get_graph ----

  /** A node record of the dump: `{"name": n, **data}`; `entityType` is absent for a node that has
      no `type` attribute. */
  datatype NodeRecord = NodeRecord(name: Name, entityType: Option<string>)

  datatype EdgeRecord = EdgeRecord(source: Name, target: Name, relation: string)

  datatype GraphDump = GraphDump(nodes: seq<NodeRecord>, edges: seq<EdgeRecord>)

  /** The pairs of `ps` that leave `u`, in order. */
  function OutPairs(ps: seq<(Name, Name)>, u: Name): (r: seq<(Name, Name)>)
    ensures forall i :: 0 <= i < |r| ==> r[i] in ps
  {
    if ps == [] then []
    else (if ps[0].0 == u then [ps[0]] else []) + OutPairs(ps[1..], u)
  }

  /** The pairs of `ps` whose source is in `ns`, in order. */
  function SourcedIn(ps: seq<(Name, Name)>, ns: seq<Name>): seq<(Name, Name)> {
    if ps == [] then []
    else (if ps[0].0 in ns then [ps[0]] else []) + SourcedIn(ps[1..], ns)
  }

  /** The order in which `edges(data=True)` reports the edges: source by source in node order,
      and the edges of one source in the order they were first added. */
  function EdgeOrder(ns: seq<Name>, ps: seq<(Name, Name)>): (r: seq<(Name, Name)>)
    ensures forall i :: 0 <= i < |r| ==> r[i] in ps
  {
    if ns == [] then [] else OutPairs(ps, ns[0]) + EdgeOrder(ns[1..], ps)
  }

  /** `get_graph`: one record per node and one per edge. */
  function Dump(g: Graph): GraphDump
    requires WellFormed(g)
  {
    var es := EdgeOrder(g.nodes, g.pairs);
    GraphDump(
      seq(|g.nodes|, i requires 0 <= i < |g.nodes| => NodeRecord(g.nodes[i], TypeOf(g, g.nodes[i]))),
      seq(|es|, k requires 0 <= k < |es| => EdgeRecord(es[k].0, es[k].1, g.labels[es[k]])))
  }

  /** The (source, target) pair of each edge record. */
  function EdgeKeys(es: seq<EdgeRecord>): (r: seq<(Name, Name)>)
    ensures |r| == |es|
  {
    seq(|es|, k requires 0 <= k < |es| => (es[k].source, es[k].target))
  }

  lemma {:induction false} SourcedInNone(ps: seq<(Name, Name)>)
    ensures SourcedIn(ps, []) == []
  {
    if ps != [] { SourcedInNone(ps[1..]); }
  }

  lemma {:induction false} SourcedInAll(ps: seq<(Name, Name)>, ns: seq<Name>)
    requires forall p :: p in ps ==> p.0 in ns
    ensures SourcedIn(ps, ns) == ps
  {
    if ps != [] { SourcedInAll(ps[1..], ns); }
  }

  lemma {:induction false} SourcedInSplit(ps: seq<(Name, Name)>, ns: seq<Name>)
    requires ns != [] && ns[0] !in ns[1..]
    ensures multiset(SourcedIn(ps, ns)) == multiset(OutPairs(ps, ns[0])) + multiset(SourcedIn(ps, ns[1..]))
  {
    if ps != [] {
      SourcedInSplit(ps[1..], ns);
      assert ps[0].0 in ns <==> ps[0].0 == ns[0] || ps[0].0 in ns[1..];
    }
  }

  lemma {:induction false} EdgeOrderPermutes(ns: seq<Name>, ps: seq<(Name, Name)>)
    requires NoDuplicates(ns)
    ensures multiset(EdgeOrder(ns, ps)) == multiset(SourcedIn(ps, ns))
  {
    if ns == [] {
      SourcedInNone(ps);
    } else {
      assert NoDuplicates(ns[1..]);
      assert ns[0] !in ns[1..];
      EdgeOrderPermutes(ns[1..], ps);
      SourcedInSplit(ps, ns);
    }
  }

  /** `get_graph` reports every node once, in node order, with its type if it has one, and every
      edge exactly once with its label. */
  lemma DumpFaithful(g: Graph)
    requires WellFormed(g)
    ensures |Dump(g).nodes| == |g.nodes|
    ensures forall i :: 0 <= i < |g.nodes| ==> Dump(g).nodes[i] == NodeRecord(g.nodes[i], TypeOf(g, g.nodes[i]))
    ensures multiset(EdgeKeys(Dump(g).edges)) == multiset(g.pairs)
    ensures |Dump(g).edges| == |g.pairs|
    ensures forall k :: 0 <= k < |Dump(g).edges| ==>
      LabelOf(g, (Dump(g).edges[k].source, Dump(g).edges[k].target)) == Some(Dump(g).edges[k].relation)
  {
    DumpEdges(g, Dump(g));
  }

  lemma DumpEdges(g: Graph, d: GraphDump)
    requires WellFormed(g) && d == Dump(g)
    ensures multiset(EdgeKeys(d.edges)) == multiset(g.pairs)
    ensures |d.edges| == |g.pairs|
    ensures forall k :: 0 <= k < |d.edges| ==>
      LabelOf(g, (d.edges[k].source, d.edges[k].target)) == Some(d.edges[k].relation)
  {
    var es := EdgeOrder(g.nodes, g.pairs);
    assert |d.edges| == |es|;
    assert forall k :: 0 <= k < |es| ==> d.edges[k] == EdgeRecord(es[k].0, es[k].1, g.labels[es[k]]);
    assert EdgeKeys(d.edges) == es;
    EdgeOrderPermutes(g.nodes, g.pairs);
    SourcedInAll(g.pairs, g.nodes);
    assert |multiset(es)| == |es|;
  }
}

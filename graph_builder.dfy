/** `build_knowledge_graph`: a fresh directed graph grown from annotated example items, with no
    endpoint check, so that an edge brings in any endpoint it names. */
module GraphBuilder {
  import opened Collections
  import opened Graphs
  import opened KnowledgeBase

  /** A relation triple of an item: the middle element is the edge label. */
  datatype Triple = Triple(source: Name, relation: string, target: Name)

  /** One item of the input list: its text, its (entity, type) pairs and its triples. */
  datatype Item = Item(text: string, entities: seq<Entity>, relations: seq<Triple>)

  /** The `add_edge` call a triple turns into. */
  function Edges(ts: seq<Triple>): (rs: seq<Relation>)
    ensures |rs| == |ts|
    ensures forall i :: 0 <= i < |ts| ==> rs[i] == Relation(ts[i].source, ts[i].target, ts[i].relation)
  {
    seq(|ts|, i requires 0 <= i < |ts| => Relation(ts[i].source, ts[i].target, ts[i].relation))
  }

  /** One pass of the outer loop: the item's entities, then its triples. */
  function AddItem(g: Graph, item: Item): Graph {
    AddEdges(AddEntities(g, item.entities), Edges(item.relations))
  }

  /** The graph built from `data`, starting from the empty graph. */
  function Build(data: seq<Item>): Graph
    decreases |data|
  {
    if data == [] then EmptyGraph
    else AddItem(Build(data[..|data| - 1]), data[|data| - 1])
  }

  /** All entities of all items, in processing order. */
  function AllEntities(data: seq<Item>): seq<Entity>
    decreases |data|
  {
    if data == [] then [] else AllEntities(data[..|data| - 1]) + data[|data| - 1].entities
  }

  /** All triples of all items, as the relations they add, in processing order. */
  function AllEdges(data: seq<Item>): seq<Relation>
    decreases |data|
  {
    if data == [] then [] else AllEdges(data[..|data| - 1]) + Edges(data[|data| - 1].relations)
  }

  /** `build_knowledge_graph(data)`: a new graph, grown entity by entity and triple by triple. */
  method BuildKnowledgeGraph(data: seq<Item>) returns (graph: KnowledgeGraph)
    ensures fresh(graph) && graph.Valid() && graph.Model() == Build(data)
  {
    graph := new KnowledgeGraph();
    for k := 0 to |data|
      invariant fresh(graph) && graph.Valid() && graph.Model() == Build(data[..k])
    {
      AddItemTo(graph, data[k]);
      assert data[..k + 1][..k] == data[..k];
    }
    assert data[..|data|] == data;
  }

  /** One pass of the outer loop of `build_knowledge_graph`. */
  method AddItemTo(graph: KnowledgeGraph, item: Item)
    requires graph.Valid()
    modifies graph
    ensures graph.Valid() && graph.Model() == AddItem(old(graph.Model()), item)
  {
    ghost var start := graph.Model();
    for i := 0 to |item.entities|
      invariant graph.Valid() && graph.Model() == AddEntities(start, item.entities[..i])
    {
      graph.AddNode(item.entities[i].name, item.entities[i].entityType);
      assert item.entities[..i + 1][..i] == item.entities[..i];
    }
    assert item.entities[..|item.entities|] == item.entities;
    ghost var mid := graph.Model();
    var edges := Edges(item.relations);
    for i := 0 to |item.relations|
      invariant graph.Valid() && graph.Model() == AddEdges(mid, edges[..i])
    {
      var t := item.relations[i];
      graph.AddEdge(t.source, t.target, t.relation);
      assert edges[..i + 1][..i] == edges[..i];
    }
    assert edges[..|item.relations|] == edges;
  }

  /** The nodes of the built graph are the listed entities together with every triple endpoint,
      each once; no `type` is ever lost or invented: exactly the listed names carry one, the
      type of their last listing. An endpoint that is never listed is a node without a type. */
  lemma {:induction false} BuildNodesAndTypes(data: seq<Item>)
    ensures WellFormed(Build(data))
    ensures forall n :: n in Build(data).nodes <==> n in Names(AllEntities(data)) || n in Endpoints(AllEdges(data))
    ensures forall n :: n in Names(AllEntities(data)) ==>
      TypeOf(Build(data), n) == Some(AllEntities(data)[LastNamed(AllEntities(data), n)].entityType)
    ensures forall n :: n !in Names(AllEntities(data)) ==> TypeOf(Build(data), n) == None
    decreases |data|
  {
    if data != [] {
      var k := |data| - 1;
      var p := data[..k];
      var item := data[k];
      BuildNodesAndTypes(p);
      var g := Build(p);
      var h := AddEntities(g, item.entities);
      AddEntitiesNodes(g, item.entities);
      AddEntitiesTypes(g, item.entities);
      AddEdgesNodes(h, Edges(item.relations));
      assert Build(data) == AddEdges(h, Edges(item.relations));
      var es := AllEntities(data);
      assert es == AllEntities(p) + item.entities;
      NamesConcat(AllEntities(p), item.entities);
      EndpointsConcat(AllEdges(p), Edges(item.relations));
      forall n | n in Names(es)
        ensures TypeOf(Build(data), n) == Some(es[LastNamed(es, n)].entityType)
      {
        if n in Names(item.entities) {
          var i := LastNamed(item.entities, n);
          assert es[|AllEntities(p)| + i] == item.entities[i];
          assert LastNamed(es, n) == |AllEntities(p)| + i;
        } else {
          var i := LastNamed(AllEntities(p), n);
          assert es[i] == AllEntities(p)[i];
          forall j | i < j < |es| ensures es[j].name != n {
            if j >= |AllEntities(p)| {
              assert es[j] == item.entities[j - |AllEntities(p)|];
            }
          }
          assert LastNamed(es, n) == i;
        }
      }
    }
  }

  /** Every edge of the built graph comes from a triple, and carries the middle element of the
      last triple on its (source, target) pair. */
  lemma {:induction false} BuildLabels(data: seq<Item>)
    ensures forall p :: p in Pairs(AllEdges(data)) ==>
      LabelOf(Build(data), p) == Some(AllEdges(data)[LastOnPair(AllEdges(data), p)].relation)
    ensures forall p :: p !in Pairs(AllEdges(data)) ==> LabelOf(Build(data), p) == None
    decreases |data|
  {
    if data != [] {
      var k := |data| - 1;
      var pre := data[..k];
      var item := data[k];
      BuildLabels(pre);
      var g := Build(pre);
      var h := AddEntities(g, item.entities);
      var ts := Edges(item.relations);
      AddEntitiesKeepsLabels(g, item.entities);
      AddEdgesLabels(h, ts);
      assert Build(data) == AddEdges(h, ts);
      var rs := AllEdges(data);
      assert rs == AllEdges(pre) + ts;
      PairsConcat(AllEdges(pre), ts);
      forall p | p in Pairs(rs)
        ensures LabelOf(Build(data), p) == Some(rs[LastOnPair(rs, p)].relation)
      {
        if p in Pairs(ts) {
          var i := LastOnPair(ts, p);
          assert rs[|AllEdges(pre)| + i] == ts[i];
          assert LastOnPair(rs, p) == |AllEdges(pre)| + i;
        } else {
          var i := LastOnPair(AllEdges(pre), p);
          assert rs[i] == AllEdges(pre)[i];
          forall j | i < j < |rs| ensures (rs[j].source, rs[j].target) != p {
            if j >= |AllEdges(pre)| {
              assert rs[j] == ts[j - |AllEdges(pre)|];
            }
          }
          assert LastOnPair(rs, p) == i;
        }
      }
    }
  }

  lemma AddEntitiesKeepsLabels(g: Graph, es: seq<Entity>)
    ensures AddEntities(g, es).labels == g.labels
  {
  }

  lemma NamesConcat(a: seq<Entity>, b: seq<Entity>)
    ensures Names(a + b) == Names(a) + Names(b)
  {
    forall n | n in Names(a + b) ensures n in Names(a) + Names(b) {
      var e :| e in a + b && e.name == n;
    }
    forall n | n in Names(a) + Names(b) ensures n in Names(a + b) {
      if n in Names(a) { var e :| e in a && e.name == n; assert e in a + b; }
      else { var e :| e in b && e.name == n; assert e in a + b; }
    }
  }

  lemma EndpointsConcat(a: seq<Relation>, b: seq<Relation>)
    ensures Endpoints(a + b) == Endpoints(a) + Endpoints(b)
  {
    forall n | n in Endpoints(a + b) ensures n in Endpoints(a) + Endpoints(b) {
      var r :| r in a + b && (r.source == n || r.target == n);
    }
    forall n | n in Endpoints(a) + Endpoints(b) ensures n in Endpoints(a + b) {
      if n in Endpoints(a) { var r :| r in a && (r.source == n || r.target == n); assert r in a + b; }
      else { var r :| r in b && (r.source == n || r.target == n); assert r in a + b; }
    }
  }

  lemma PairsConcat(a: seq<Relation>, b: seq<Relation>)
    ensures Pairs(a + b) == Pairs(a) + Pairs(b)
  {
    forall p | p in Pairs(a + b) ensures p in Pairs(a) + Pairs(b) {
      var r :| r in a + b && (r.source, r.target) == p;
    }
    forall p | p in Pairs(a) + Pairs(b) ensures p in Pairs(a + b) {
      if p in Pairs(a) { var r :| r in a && (r.source, r.target) == p; assert r in a + b; }
      else { var r :| r in b && (r.source, r.target) == p; assert r in a + b; }
    }
  }
}

/** The example dataset of the builder script and what building it yields. */
module SampleGraph {
  import opened Collections
  import opened Graphs
  import opened GraphBuilder

  const SampleData: seq<Item> := [
    Item("The RoDTEP scheme provides duty drawback incentives for exporters in India.",
      [Entity("RoDTEP scheme", "Scheme"), Entity("duty drawback", "Incentive"), Entity("India", "Country")],
      [Triple("RoDTEP scheme", "provides", "duty drawback"), Triple("duty drawback", "applies to", "India")]),
    Item("Exporters to Europe must comply with CE marking regulations.",
      [Entity("Europe", "Region"), Entity("CE marking regulations", "Regulation")],
      [Triple("CE marking regulations", "applies to", "Europe")]),
    Item("The US offers tax incentives for green energy products.",
      [Entity("US", "Country"), Entity("tax incentives", "Incentive"), Entity("green energy products", "Product")],
      [Triple("US", "offers", "tax incentives"), Triple("tax incentives", "targets", "green energy products")])
  ]

  const SampleEntities: seq<Entity> := [
    Entity("RoDTEP scheme", "Scheme"), Entity("duty drawback", "Incentive"), Entity("India", "Country"),
    Entity("Europe", "Region"), Entity("CE marking regulations", "Regulation"),
    Entity("US", "Country"), Entity("tax incentives", "Incentive"), Entity("green energy products", "Product")]

  const SampleEdges: seq<Relation> := [
    Relation("RoDTEP scheme", "duty drawback", "provides"), Relation("duty drawback", "India", "applies to"),
    Relation("CE marking regulations", "Europe", "applies to"),
    Relation("US", "tax incentives", "offers"), Relation("tax incentives", "green energy products", "targets")]

  lemma SampleFlattened()
    ensures AllEntities(SampleData) == SampleEntities
    ensures AllEdges(SampleData) == SampleEdges
  {
    SampleEntitiesFlattened();
    SampleEdgesFlattened();
  }

  lemma SamplePrefixes()
    ensures SampleData[..3] == SampleData
    ensures SampleData[..3][..2] == SampleData[..2]
    ensures SampleData[..2][..1] == SampleData[..1]
    ensures SampleData[..1][..0] == []
  {
  }

  lemma SampleEntitiesFlattened()
    ensures AllEntities(SampleData) == SampleEntities
  {
    SamplePrefixes();
    assert AllEntities(SampleData[..1]) == SampleData[0].entities;
    assert AllEntities(SampleData[..2]) == SampleData[0].entities + SampleData[1].entities;
  }

  lemma SampleEdgesFlattened()
    ensures AllEdges(SampleData) == SampleEdges
  {
    SamplePrefixes();
    var e0 := Edges(SampleData[0].relations);
    var e1 := Edges(SampleData[1].relations);
    var e2 := Edges(SampleData[2].relations);
    assert e0 == SampleEdges[..2];
    assert e1 == SampleEdges[2..3];
    assert e2 == SampleEdges[3..];
    assert AllEdges(SampleData[..1]) == e0;
    assert AllEdges(SampleData[..2]) == e0 + e1;
    assert SampleEdges == SampleEdges[..2] + SampleEdges[2..3] + SampleEdges[3..];
  }

  const SampleNames: seq<Name> := ["RoDTEP scheme", "duty drawback", "India", "Europe",
    "CE marking regulations", "US", "tax incentives", "green energy products"]

  const SamplePairs: seq<(Name, Name)> := [("RoDTEP scheme", "duty drawback"), ("duty drawback", "India"),
    ("CE marking regulations", "Europe"), ("US", "tax incentives"), ("tax incentives", "green energy products")]

  /** Building the example dataset gives 8 nodes and 5 edges. */
  lemma SampleGraphSize()
    ensures |Build(SampleData).nodes| == 8
    ensures |Build(SampleData).pairs| == 5
  {
    var g := Build(SampleData);
    BuildNodesAndTypes(SampleData);
    BuildLabels(SampleData);
    SampleFlattened();
    SampleNamesListed();
    SampleEndpointsListed();
    assert forall n :: n in g.nodes <==> n in SampleNames;
    SampleNamesDistinct();
    SameElementsSameLength(g.nodes, SampleNames);
    SamplePairsListed();
    assert forall p :: p in g.pairs <==> p in SamplePairs;
    SamplePairsDistinct();
    SameElementsSameLength(g.pairs, SamplePairs);
  }

  lemma SampleNamesListed()
    ensures forall n :: n in Names(SampleEntities) <==> n in SampleNames
  {
    forall n | n in Names(SampleEntities) ensures n in SampleNames {
      var e :| e in SampleEntities && e.name == n;
    }
    forall n | n in SampleNames ensures n in Names(SampleEntities) {
      var i :| 0 <= i < |SampleNames| && SampleNames[i] == n;
      assert SampleEntities[i].name == n;
    }
  }

  lemma SampleEndpointsListed()
    ensures forall n :: n in Endpoints(SampleEdges) ==> n in SampleNames
  {
    forall n | n in Endpoints(SampleEdges) ensures n in SampleNames {
      var r :| r in SampleEdges && (r.source == n || r.target == n);
    }
  }

  lemma SamplePairsListed()
    ensures forall p :: p in Pairs(SampleEdges) <==> p in SamplePairs
  {
    forall p | p in Pairs(SampleEdges) ensures p in SamplePairs {
      var r :| r in SampleEdges && (r.source, r.target) == p;
    }
    forall p | p in SamplePairs ensures p in Pairs(SampleEdges) {
      var i :| 0 <= i < |SamplePairs| && SamplePairs[i] == p;
      assert (SampleEdges[i].source, SampleEdges[i].target) == p;
    }
  }

  lemma SampleNamesDistinct()
    ensures NoDuplicates(SampleNames)
  {
    assert SampleNames[0][0] != SampleNames[1][0];
  }

  lemma SamplePairsDistinct()
    ensures NoDuplicates(SamplePairs)
  {
    assert SamplePairs[0].0[0] != SamplePairs[1].0[0];
  }
}

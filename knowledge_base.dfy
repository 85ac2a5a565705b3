/** The compliance knowledge-graph service: one module-level graph that the endpoints
    `add_entities`, `add_relations`, `get_graph`, `bulk_upload` and `clear_graph` read and change. */
module KnowledgeBase {
  import opened Http
  import opened Collections
  import opened Graphs

  /** The body of a `bulk_upload` request. */
  datatype GraphData = GraphData(entities: seq<Entity>, relations: seq<Relation>)

  /** The 404 that `add_relations` raises for a relation with an unknown endpoint. */
  const EndpointNotFound: HttpError := HttpError(404, "Source or target entity not found.")

  /** Both endpoints of `r` are nodes of `g` (`has_node` on each). */
  predicate EndpointsPresent(g: Graph, r: Relation) {
    r.source in g.nodes && r.target in g.nodes
  }

  /** The position of the first relation with an endpoint that is not a node, or `|rs|`. */
  function FirstMissing(g: Graph, rs: seq<Relation>): (k: nat)
    ensures k <= |rs|
    ensures forall j :: 0 <= j < k ==> EndpointsPresent(g, rs[j])
    ensures k < |rs| ==> !EndpointsPresent(g, rs[k])
  {
    if rs == [] || !EndpointsPresent(g, rs[0]) then 0 else 1 + FirstMissing(g, rs[1..])
  }

  /** The graph `add_relations` leaves behind: the edges of the relations before the first bad one
      (all of them when there is none) stay added. */
  function AddRelationsGraph(g: Graph, rs: seq<Relation>): Graph {
    AddEdges(g, rs[..FirstMissing(g, rs)])
  }

  /** The reply of `add_relations`. */
  function AddRelationsReply(g: Graph, rs: seq<Relation>): Result<string> {
    if FirstMissing(g, rs) == |rs| then Ok(Decimal(|rs|) + " relations added successfully.")
    else Err(EndpointNotFound)
  }

  /** `add_relations` fails, with the 404, exactly when some relation names an endpoint that is not
      a node of the graph it started from. */
  lemma AddRelationsFailsIff(g: Graph, rs: seq<Relation>)
    ensures AddRelationsReply(g, rs).Err? <==> exists i :: 0 <= i < |rs| && !EndpointsPresent(g, rs[i])
    ensures AddRelationsReply(g, rs).Err? ==> AddRelationsReply(g, rs).error == HttpError(404, "Source or target entity not found.")
  {
  }

  /** `add_relations` never adds a node and never changes a type: it checks both endpoints before
      each `add_edge`. */
  lemma AddRelationsKeepsNodes(g: Graph, rs: seq<Relation>)
    requires WellFormed(g)
    ensures WellFormed(AddRelationsGraph(g, rs))
    ensures AddRelationsGraph(g, rs).nodes == g.nodes && AddRelationsGraph(g, rs).types == g.types
  {
    var k := FirstMissing(g, rs);
    assert forall r :: r in rs[..k] ==> EndpointsPresent(g, r);
    AddEdgesNodes(g, rs[..k]);
  }

  /** When `add_relations` fails there is no rollback: every relation before the bad one is an edge
      of the graph, carrying the label of the last of them on its pair, and no other edge changed. */
  lemma AddRelationsNoRollback(g: Graph, rs: seq<Relation>)
    requires WellFormed(g)
    requires AddRelationsReply(g, rs).Err?
    ensures var k := FirstMissing(g, rs);
      k < |rs| && !EndpointsPresent(g, rs[k]) &&
      forall j :: 0 <= j < k ==>
        LabelOf(AddRelationsGraph(g, rs), (rs[j].source, rs[j].target)).Some?
    ensures forall p :: p !in Pairs(rs[..FirstMissing(g, rs)]) ==>
      LabelOf(AddRelationsGraph(g, rs), p) == LabelOf(g, p)
  {
    var k := FirstMissing(g, rs);
    AddEdgesLabels(g, rs[..k]);
    forall j | 0 <= j < k
      ensures LabelOf(AddRelationsGraph(g, rs), (rs[j].source, rs[j].target)).Some?
    {
      assert rs[..k][j] == rs[j];
      assert (rs[j].source, rs[j].target) in Pairs(rs[..k]);
    }
  }

  /** `bulk_upload` runs `add_entities` and then `add_relations` on the result. */
  function BulkUploadGraph(g: Graph, data: GraphData): Graph {
    AddRelationsGraph(AddEntities(g, data.entities), data.relations)
  }

  function BulkUploadReply(g: Graph, data: GraphData): Result<string> {
    match AddRelationsReply(AddEntities(g, data.entities), data.relations)
    case Ok(_) => Ok("Graph data uploaded successfully.")
    case Err(e) => Err(e)
  }

  /** A relation of a batch may name an entity of the same batch; and when the relation step fails,
      every entity of the batch has still been added. */
  lemma BulkUploadEntitiesFirst(g: Graph, data: GraphData)
    requires WellFormed(g)
    ensures forall n :: n in Names(data.entities) ==> n in BulkUploadGraph(g, data).nodes
    ensures (forall r :: r in data.relations ==>
               (r.source in g.nodes || r.source in Names(data.entities)) &&
               (r.target in g.nodes || r.target in Names(data.entities)))
            <==> BulkUploadReply(g, data).Ok?
  {
    var h := AddEntities(g, data.entities);
    AddEntitiesNodes(g, data.entities);
    AddRelationsKeepsNodes(h, data.relations);
    AddRelationsFailsIff(h, data.relations);
  }

  /** One pass of the `add_relations` loop on a relation whose endpoints are present: the edge is
      added and the nodes stay as they were. */
  lemma CheckedEdgeStep(g0: Graph, rs: seq<Relation>, i: nat)
    requires WellFormed(g0) && i < |rs| && EndpointsPresent(g0, rs[i])
    requires WellFormed(AddEdges(g0, rs[..i])) && AddEdges(g0, rs[..i]).nodes == g0.nodes
    ensures AddEdges(g0, rs[..i + 1]) == AddEdge(AddEdges(g0, rs[..i]), rs[i].source, rs[i].target, rs[i].relation)
    ensures WellFormed(AddEdges(g0, rs[..i + 1])) && AddEdges(g0, rs[..i + 1]).nodes == g0.nodes
  {
    assert rs[..i + 1][..i] == rs[..i];
    var h := AddEdges(g0, rs[..i]);
    AddEdgeStep(h, rs[i].source, rs[i].target, rs[i].relation);
  }

  /** The graph store. Its four fields are exactly those of `Graphs.Graph`. */
  class KnowledgeGraph {
    var nodes: seq<Name>
    var types: map<Name, string>
    var pairs: seq<(Name, Name)>
    var labels: map<(Name, Name), string>

    function Model(): Graph
      reads this
    {
      Graph(nodes, types, pairs, labels)
    }

    predicate Valid()
      reads this
    {
      WellFormed(Model())
    }

    /** `nx.DiGraph()`: a graph with no nodes and no edges. */
    constructor ()
      ensures Valid() && Model() == EmptyGraph
    {
      nodes, types, pairs, labels := [], map[], [], map[];
    }

    /** `add_node(name, type=entityType)`. */
    method AddNode(name: Name, entityType: string)
      requires Valid()
      modifies this
      ensures Valid() && Model() == Graphs.AddNode(old(Model()), name, entityType)
    {
      AddNodeStep(Model(), name, entityType);
      if name !in nodes {
        nodes := nodes + [name];
      }
      types := types[name := entityType];
    }

    /** `add_edge(source, target, relation=relation)`. */
    method AddEdge(source: Name, target: Name, relation: string)
      requires Valid()
      modifies this
      ensures Valid() && Model() == Graphs.AddEdge(old(Model()), source, target, relation)
    {
      AddEdgeStep(Model(), source, target, relation);
      ghost var h := InsertNode(InsertNode(Model(), source), target);
      if source !in nodes {
        nodes := nodes + [source];
      }
      if target !in nodes {
        nodes := nodes + [target];
      }
      assert nodes == h.nodes;
      if (source, target) !in labels {
        pairs := pairs + [(source, target)];
      }
      labels := labels[(source, target) := relation];
    }

    /** `add_entities`: adds or retypes each listed name in turn; the reply counts the list,
        repeats included. */
    method AddEntities(entities: seq<Entity>) returns (message: string)
      requires Valid()
      modifies this
      ensures Valid() && Model() == Graphs.AddEntities(old(Model()), entities)
      ensures message == Decimal(|entities|) + " entities added successfully."
    {
      for i := 0 to |entities|
        invariant Valid() && Model() == Graphs.AddEntities(old(Model()), entities[..i])
      {
        AddNode(entities[i].name, entities[i].entityType);
        assert entities[..i + 1][..i] == entities[..i];
      }
      assert entities[..|entities|] == entities;
      message := Decimal(|entities|) + " entities added successfully.";
    }

    /** `add_relations`: checks and adds each relation in turn, raising the 404 at the first one
        with an unknown endpoint and keeping the edges added before it. */
    method AddRelations(relations: seq<Relation>) returns (result: Result<string>)
      requires Valid()
      modifies this
      ensures Valid() && Model() == AddRelationsGraph(old(Model()), relations)
      ensures result == AddRelationsReply(old(Model()), relations)
    {
      ghost var g0 := Model();
      var i := 0;
      while i < |relations|
        invariant 0 <= i <= |relations|
        invariant i <= FirstMissing(g0, relations)
        invariant Valid() && Model() == AddEdges(g0, relations[..i]) && nodes == g0.nodes
      {
        var r := relations[i];
        if r.source !in nodes || r.target !in nodes {
          assert FirstMissing(g0, relations) == i;
          return Err(EndpointNotFound);
        }
        CheckedEdgeStep(g0, relations, i);
        AddEdge(r.source, r.target, r.relation);
        i := i + 1;
      }
      assert relations[..|relations|] == relations;
      result := Ok(Decimal(|relations|) + " relations added successfully.");
    }

    /** `get_graph`: the node and edge records; it changes nothing. */
    function GetGraph(): (dump: GraphDump)
      reads this
      requires Valid()
      ensures |dump.nodes| == |nodes| && |dump.edges| == |pairs|
      ensures forall i :: 0 <= i < |nodes| ==> dump.nodes[i] == NodeRecord(nodes[i], TypeOf(Model(), nodes[i]))
      ensures multiset(EdgeKeys(dump.edges)) == multiset(pairs)
      ensures forall k :: 0 <= k < |dump.edges| ==>
        (dump.edges[k].source, dump.edges[k].target) in labels &&
        labels[(dump.edges[k].source, dump.edges[k].target)] == dump.edges[k].relation
    {
      DumpFaithful(Model());
      Dump(Model())
    }

    /** `bulk_upload`: `add_entities`, then `add_relations`; a failure of the second keeps the
        effects of the first. */
    method BulkUpload(data: GraphData) returns (result: Result<string>)
      requires Valid()
      modifies this
      ensures Valid() && Model() == BulkUploadGraph(old(Model()), data)
      ensures result == BulkUploadReply(old(Model()), data)
    {
      var _ := AddEntities(data.entities);
      var added := AddRelations(data.relations);
      match added
      case Ok(_) => result := Ok("Graph data uploaded successfully.");
      case Err(e) => result := Err(e);
    }

    /** `clear_graph`: removes every node and edge. */
    method Clear() returns (message: string)
      modifies this
      ensures Valid() && Model() == EmptyGraph
      ensures message == "Knowledge graph cleared successfully."
    {
      nodes, types, pairs, labels := [], map[], [], map[];
      message := "Knowledge graph cleared successfully.";
    }
  }
}

/**
 * Building the interaction graph (`plot_interaction_network` up to the
 * zero-edge check): a directed graph object updated in place, and the value
 * it holds after each record, as a specification.
 */
module Network {
  import opened Wrappers
  import opened Records
  import opened Quantitation
  import opened Coloring

  /** Display size of the queried gene when it is first added. */
  const QueriedGeneSize: nat := 1200
  /** Display size given to every endpoint of a valid record. */
  const InteractorSize: nat := 500

  /** A node's attribute dictionary: colour, size and an optional label. */
  datatype Attrs = Attrs(color: Color, size: nat, labelAttr: Option<string>)

  /** An interaction record: its identifier and its field mapping. */
  type Interaction = (string, Details)

  /**
   * `add_node(n, color=..., size=..., [label=...])` on a node map: an
   * existing node keeps its attribute dictionary, updated with the given
   * keywords; a new node gets just those. `labelAttr == None` means the keyword
   * was not passed.
   */
  function WithNode(nodes: map<string, Attrs>, n: string, color: Color, size: nat,
                    labelAttr: Option<string>): (r: map<string, Attrs>)
    ensures r.Keys == nodes.Keys + {n}
    ensures r[n].color == color && r[n].size == size
    ensures r[n].labelAttr == if labelAttr.Some? then labelAttr
                          else if n in nodes then nodes[n].labelAttr
                          else None
    ensures forall m :: m in nodes && m != n ==> r[m] == nodes[m]
  {
    var kept := if labelAttr.Some? then labelAttr else if n in nodes then nodes[n].labelAttr else None;
    nodes[n := Attrs(color, size, kept)]
  }

  /** Node map and edge set of a directed graph, as a value. */
  datatype Graph = Graph(nodes: map<string, Attrs>, edges: set<(string, string)>)

  /** Every edge joins two nodes of the graph. */
  ghost predicate EndpointsAreNodes(g: Graph) {
    forall e :: e in g.edges ==> e.0 in g.nodes && e.1 in g.nodes
  }

  /** The graph before any record: the queried gene alone, orange and large. */
  function Initial(gene: string): (g: Graph)
    ensures g.nodes.Keys == {gene} && g.edges == {}
    ensures g.nodes[gene] == Attrs(Orange, QueriedGeneSize, Some(gene))
  {
    Graph(map[gene := Attrs(Orange, QueriedGeneSize, Some(gene))], {})
  }

  /** The quantitation a record contributes once coerced. */
  function QuantOf(d: Details, parse: string -> Option<real>): (q: Option<real>)
    ensures Get(d, "QUANTITATION") in {None, Some("-")} ==> q.None?
    ensures q.Some? ==> "QUANTITATION" in d && q == parse(d["QUANTITATION"])
    ensures "QUANTITATION" in d && d["QUANTITATION"] != "-" ==> q == parse(d["QUANTITATION"])
  {
    CoerceQuantitation(ExtractInteractors(d).quantitation, parse)
  }

  /** The edge a record contributes: `(A, B)` when both are truthy. */
  function EdgeOf(d: Details): (r: Option<(string, string)>)
    ensures r.Some? <==> IsValid(ExtractInteractors(d))
    ensures r.Some? ==> r.value == (ExtractInteractors(d).a.value, ExtractInteractors(d).b.value)
  {
    var e := ExtractInteractors(d);
    if IsValid(e) then Some((e.a.value, e.b.value)) else None
  }

  /** The record is valid and `x` is one of its two endpoints. */
  predicate Mentions(d: Details, x: string)
    ensures Mentions(d, x) <==> IsValid(ExtractInteractors(d)) &&
                                (ExtractInteractors(d).a.value == x || ExtractInteractors(d).b.value == x)
  {
    EdgeOf(d).Some? && (EdgeOf(d).value.0 == x || EdgeOf(d).value.1 == x)
  }

  /**
   * One iteration of the loop: a record without both interactors leaves the
   * graph as it is; otherwise both endpoints are (re)styled with their
   * colour and the interactor size, and the edge A -> B is added.
   */
  function Step(g: Graph, d: Details, gene: string, parse: string -> Option<real>): (r: Graph)
    ensures EdgeOf(d).None? ==> r == g
    ensures EdgeOf(d).Some? ==> r.edges == g.edges + {EdgeOf(d).value}
    ensures r.nodes.Keys == g.nodes.Keys + (if EdgeOf(d).Some? then {EdgeOf(d).value.0, EdgeOf(d).value.1} else {})
    ensures forall x :: x in g.nodes && !Mentions(d, x) ==> r.nodes[x] == g.nodes[x]
    ensures forall x :: Mentions(d, x) ==>
              r.nodes[x].color == NodeColor(x, gene, QuantOf(d, parse)) &&
              r.nodes[x].size == InteractorSize &&
              r.nodes[x].labelAttr == (if x in g.nodes then g.nodes[x].labelAttr else None)
  {
    match EdgeOf(d)
    case None => g
    case Some((a, b)) =>
      var q := QuantOf(d, parse);
      var n1 := WithNode(g.nodes, a, NodeColor(a, gene, q), InteractorSize, None);
      var n2 := WithNode(n1, b, NodeColor(b, gene, q), InteractorSize, None);
      Graph(n2, g.edges + {(a, b)})
  }

  /** The graph after processing the records in order, from `Initial(gene)`. */
  function Run(records: seq<Interaction>, gene: string, parse: string -> Option<real>): (g: Graph)
    ensures gene in g.nodes && g.nodes[gene].color == Orange
    decreases |records|
  {
    if records == [] then Initial(gene)
    else Step(Run(records[..|records| - 1], gene, parse), records[|records| - 1].1, gene, parse)
  }

  /** The networkx `DiGraph` the function builds, holding nodes and edges. */
  class InteractionGraph {
    var nodes: map<string, Attrs>
    var edges: set<(string, string)>

    ghost predicate Valid()
      reads this
    {
      EndpointsAreNodes(Graph(nodes, edges))
    }

    /** `nx.DiGraph()`: an empty graph. */
    constructor ()
      ensures Valid()
      ensures nodes == map[] && edges == {}
    {
      nodes := map[];
      edges := {};
    }

    /** `G.add_node(n, color=color, size=size[, label=label])`. */
    method AddNode(n: string, color: Color, size: nat, labelAttr: Option<string>)
      requires Valid()
      modifies this
      ensures Valid()
      ensures nodes == WithNode(old(nodes), n, color, size, labelAttr)
      ensures edges == old(edges)
    {
      nodes := WithNode(nodes, n, color, size, labelAttr);
    }

    /**
     * `G.add_edge(u, v)`: the edge set gains (u, v), so adding an edge that is
     * already there changes nothing.
     */
    method AddEdge(u: string, v: string)
      requires Valid()
      requires u in nodes && v in nodes
      modifies this
      ensures Valid()
      ensures edges == old(edges) + {(u, v)}
      ensures nodes == old(nodes)
    {
      edges := edges + {(u, v)};
    }

    /** `len(G.edges)`. */
    function EdgeCount(): (n: nat)
      reads this
      ensures n == 0 <==> edges == {}
    {
      |edges|
    }
  }

  /**
   * What the function goes on to do after the loop: stop with "No valid
   * edges found" when there is no edge, or draw the graph it built.
   */
  datatype PlotOutcome = NoValidEdges | Draw(graph: Graph)

  /**
   * `plot_interaction_network` up to the drawing: builds the graph from the
   * records in order and stops before drawing exactly when it has no edge.
   */
  method PlotInteractionNetwork(interactions: seq<Interaction>, gene: string,
                                parse: string -> Option<real>)
    returns (outcome: PlotOutcome)
    ensures outcome.NoValidEdges? <==> Run(interactions, gene, parse).edges == {}
    ensures outcome.Draw? ==> outcome.graph == Run(interactions, gene, parse)
  {
    var g := new InteractionGraph();
    g.AddNode(gene, Orange, QueriedGeneSize, Some(gene));
    assert Graph(g.nodes, g.edges) == Initial(gene);
    for i := 0 to |interactions|
      invariant g.Valid()
      invariant Graph(g.nodes, g.edges) == Run(interactions[..i], gene, parse)
    {
      assert interactions[..i + 1][..i] == interactions[..i];
      var (_, details) := interactions[i];
      var extracted := ExtractInteractors(details);
      if Truthy(extracted.a) && Truthy(extracted.b) {
        var quantitation := CoerceQuantitation(extracted.quantitation, parse);
        var a, b := extracted.a.value, extracted.b.value;
        g.AddNode(a, NodeColor(a, gene, quantitation), InteractorSize, None);
        g.AddNode(b, NodeColor(b, gene, quantitation), InteractorSize, None);
        g.AddEdge(a, b);
      }
    }
    assert interactions[..|interactions|] == interactions;
    if g.EdgeCount() == 0 {
      return NoValidEdges;
    }
    outcome := Draw(Graph(g.nodes, g.edges));
  }
}

/**
 * What the graph built from a sequence of records is: which nodes and edges
 * it has, the attributes of each node, and where drawing is skipped.
 */
module NetworkProps {
  import opened Wrappers
  import opened Records
  import opened Quantitation
  import opened Coloring
  import opened Network

  /** The values present in a sequence of optional values. */
  ghost function Present<T>(s: seq<Option<T>>): set<T> {
    set i | 0 <= i < |s| && s[i].Some? :: s[i].value
  }

  /** Appending an entry adds its value, if any, to the present values. */
  lemma PresentSnoc<T>(s: seq<Option<T>>, o: Option<T>)
    ensures Present(s + [o]) == Present(s) + (if o.Some? then {o.value} else {})
  {
    var t := s + [o];
    forall x | x in Present(t)
      ensures x in Present(s) || (o.Some? && x == o.value)
    {
      var i :| 0 <= i < |t| && t[i].Some? && t[i].value == x;
      if i < |s| {
        assert t[i] == s[i];
      }
    }
    forall x | x in Present(s)
      ensures x in Present(t)
    {
      var i :| 0 <= i < |s| && s[i].Some? && s[i].value == x;
      assert t[i] == s[i];
    }
    if o.Some? {
      assert t[|s|] == o;
    }
  }

  /** The edge each record contributes, record by record. */
  function EdgeList(rs: seq<Interaction>): (r: seq<Option<(string, string)>>)
    ensures |r| == |rs|
    ensures forall i :: 0 <= i < |rs| ==> r[i] == EdgeOf(rs[i].1)
    decreases |rs|
  {
    if rs == [] then [] else EdgeList(rs[..|rs| - 1]) + [EdgeOf(rs[|rs| - 1].1)]
  }

  /** The set of pairs (A, B) of the valid records. */
  ghost function ValidEdges(rs: seq<Interaction>): set<(string, string)> {
    Present(EdgeList(rs))
  }

  /** The edge set is exactly the set of pairs of the valid records. */
  lemma {:induction false} RunEdges(rs: seq<Interaction>, gene: string, parse: string -> Option<real>)
    ensures Run(rs, gene, parse).edges == ValidEdges(rs)
    decreases |rs|
  {
    if rs != [] {
      RunEdges(rs[..|rs| - 1], gene, parse);
      PresentSnoc(EdgeList(rs[..|rs| - 1]), EdgeOf(rs[|rs| - 1].1));
    }
  }

  /** An edge is present exactly when some valid record has that pair. */
  lemma EdgeIffValidRecord(rs: seq<Interaction>, gene: string, parse: string -> Option<real>,
                           e: (string, string))
    ensures e in Run(rs, gene, parse).edges <==>
            exists i :: 0 <= i < |rs| && EdgeOf(rs[i].1) == Some(e)
  {
    RunEdges(rs, gene, parse);
    if exists i :: 0 <= i < |rs| && EdgeOf(rs[i].1) == Some(e) {
      var i :| 0 <= i < |rs| && EdgeOf(rs[i].1) == Some(e);
      assert EdgeList(rs)[i] == Some(e);
    }
  }

  /** Every edge joins two non-empty interactor names. */
  lemma EdgeEndpointsNonEmpty(rs: seq<Interaction>, gene: string, parse: string -> Option<real>,
                              e: (string, string))
    requires e in Run(rs, gene, parse).edges
    ensures e.0 != "" && e.1 != ""
  {
    EdgeIffValidRecord(rs, gene, parse, e);
  }

  /** Drawing is skipped exactly when no record has both interactors. */
  lemma NoEdgesIffNoValidRecord(rs: seq<Interaction>, gene: string, parse: string -> Option<real>)
    ensures Run(rs, gene, parse).edges == {} <==>
            forall i :: 0 <= i < |rs| ==> !IsValid(ExtractInteractors(rs[i].1))
  {
    RunEdges(rs, gene, parse);
    if exists i :: 0 <= i < |rs| && IsValid(ExtractInteractors(rs[i].1)) {
      var i :| 0 <= i < |rs| && IsValid(ExtractInteractors(rs[i].1));
      assert EdgeList(rs)[i].value in ValidEdges(rs);
    }
  }

  /** Both endpoints of every edge are nodes of the graph. */
  lemma {:induction false} RunEndpointsAreNodes(rs: seq<Interaction>, gene: string,
                                                parse: string -> Option<real>)
    ensures EndpointsAreNodes(Run(rs, gene, parse))
    decreases |rs|
  {
    if rs != [] {
      RunEndpointsAreNodes(rs[..|rs| - 1], gene, parse);
    }
  }

  /**
   * The index of the last valid record that has `x` as an endpoint, or
   * `None` when no valid record does.
   */
  function LastMention(rs: seq<Interaction>, x: string): (r: Option<nat>)
    ensures r.Some? ==> r.value < |rs| && Mentions(rs[r.value].1, x) &&
                        forall j :: r.value < j < |rs| ==> !Mentions(rs[j].1, x)
    ensures r.None? ==> forall j :: 0 <= j < |rs| ==> !Mentions(rs[j].1, x)
    decreases |rs|
  {
    if rs == [] then None
    else if Mentions(rs[|rs| - 1].1, x) then Some(|rs| - 1)
    else
      var r := LastMention(rs[..|rs| - 1], x);
      assert forall j :: 0 <= j < |rs| - 1 ==> rs[..|rs| - 1][j] == rs[j];
      r
  }

  /** The label attribute: only the queried gene was given one. */
  function LabelOf(x: string, gene: string): Option<string> {
    if x == gene then Some(gene) else None
  }

  /**
   * The attributes a node has after all records: those computed from the
   * last valid record that mentions it, or the initial ones of the queried
   * gene when no valid record mentions it.
   */
  function ExpectedAttrs(rs: seq<Interaction>, gene: string, parse: string -> Option<real>,
                         x: string): Attrs
  {
    match LastMention(rs, x)
    case Some(i) => Attrs(NodeColor(x, gene, QuantOf(rs[i].1, parse)), InteractorSize, LabelOf(x, gene))
    case None => Attrs(Orange, QueriedGeneSize, Some(gene))
  }

  /**
   * The nodes are the queried gene and the endpoints of the valid records,
   * and each node's attributes are those of the last valid record that
   * mentions it (last write wins); an unmentioned node keeps its own.
   */
  lemma {:induction false} RunNodeAttrs(rs: seq<Interaction>, gene: string,
                                        parse: string -> Option<real>, x: string)
    ensures x in Run(rs, gene, parse).nodes <==> x == gene || LastMention(rs, x).Some?
    ensures x in Run(rs, gene, parse).nodes ==>
              Run(rs, gene, parse).nodes[x] == ExpectedAttrs(rs, gene, parse, x)
    decreases |rs|
  {
    if rs != [] {
      var n := |rs| - 1;
      var init := rs[..n];
      RunNodeAttrs(init, gene, parse, x);
      RunNodeAttrs(init, gene, parse, gene);
      if !Mentions(rs[n].1, x) {
        assert LastMention(rs, x) == LastMention(init, x);
        if LastMention(init, x).Some? {
          assert init[LastMention(init, x).value] == rs[LastMention(init, x).value];
        }
      }
    }
  }

  /**
   * The queried gene is always a node and always orange, and keeps its
   * label; its size is 1200 unless some valid record has it as an endpoint,
   * in which case it is 500.
   */
  lemma QueriedGeneAttrs(rs: seq<Interaction>, gene: string, parse: string -> Option<real>)
    ensures gene in Run(rs, gene, parse).nodes
    ensures Run(rs, gene, parse).nodes[gene].color == Orange
    ensures Run(rs, gene, parse).nodes[gene].labelAttr == Some(gene)
    ensures Run(rs, gene, parse).nodes[gene].size ==
            if exists i :: 0 <= i < |rs| && Mentions(rs[i].1, gene) then InteractorSize
            else QueriedGeneSize
  {
    RunNodeAttrs(rs, gene, parse, gene);
    if LastMention(rs, gene).None? {
      assert !exists i :: 0 <= i < |rs| && Mentions(rs[i].1, gene);
    }
  }

  /** A record without both interactors leaves the graph unchanged. */
  lemma RunSkipsInvalid(rs: seq<Interaction>, r: Interaction, gene: string,
                        parse: string -> Option<real>)
    requires !IsValid(ExtractInteractors(r.1))
    ensures Run(rs + [r], gene, parse) == Run(rs, gene, parse)
  {
    assert (rs + [r])[..|rs|] == rs;
  }

  /**
   * Processing the same record twice in a row gives the same graph as
   * processing it once: the node attributes and the edge are re-added
   * unchanged.
   */
  lemma StepIdempotent(g: Graph, d: Details, gene: string, parse: string -> Option<real>)
    ensures Step(Step(g, d, gene, parse), d, gene, parse) == Step(g, d, gene, parse)
  {
    var once := Step(g, d, gene, parse);
    var twice := Step(once, d, gene, parse);
    assert twice.nodes.Keys == once.nodes.Keys;
    forall x | x in once.nodes
      ensures twice.nodes[x] == once.nodes[x]
    {
      if Mentions(d, x) {
        assert x in once.nodes && once.nodes[x].labelAttr == twice.nodes[x].labelAttr;
      }
    }
  }

  /** Repeating the last record adds no edge and changes no attribute. */
  lemma RunRepeatLast(rs: seq<Interaction>, r: Interaction, gene: string,
                      parse: string -> Option<real>)
    ensures Run(rs + [r, r], gene, parse) == Run(rs + [r], gene, parse)
  {
    assert (rs + [r, r])[..|rs| + 1] == rs + [r];
    assert (rs + [r])[..|rs|] == rs;
    StepIdempotent(Run(rs, gene, parse), r.1, gene, parse);
  }

  /**
   * One record naming `fimH` and `fimG` with quantitation "3.5", queried for
   * `fimH`: two nodes, `fimH` orange and `fimG` green, and one edge.
   */
  lemma SingleRecordExample()
    ensures var g := Run([("1", map["OFFICIAL_SYMBOL_A" := "fimH", "OFFICIAL_SYMBOL_B" := "fimG",
                                    "QUANTITATION" := "3.5"])], "fimH", ParseDecimal);
            && g.nodes == map["fimH" := Attrs(Orange, InteractorSize, Some("fimH")),
                              "fimG" := Attrs(SpringGreen, InteractorSize, None)]
            && g.edges == {("fimH", "fimG")}
  {
    var d: Details := map["OFFICIAL_SYMBOL_A" := "fimH", "OFFICIAL_SYMBOL_B" := "fimG",
                          "QUANTITATION" := "3.5"];
    var rs: seq<Interaction> := [("1", d)];
    assert rs[..0] == [];
    ParseThreePointFive();
    assert ExtractInteractors(d) == Extracted(Some("fimH"), Some("fimG"), Some("3.5"));
    assert QuantOf(d, ParseDecimal) == Some(3.5);
    assert EdgeOf(d) == Some(("fimH", "fimG"));
    var n0 := Initial("fimH").nodes;
    var n1 := WithNode(n0, "fimH", Orange, InteractorSize, None);
    assert n1 == map["fimH" := Attrs(Orange, InteractorSize, Some("fimH"))];
    var n2 := WithNode(n1, "fimG", SpringGreen, InteractorSize, None);
    assert Step(Initial("fimH"), d, "fimH", ParseDecimal) == Graph(n2, {("fimH", "fimG")});
    assert Run(rs, "fimH", ParseDecimal) == Step(Initial("fimH"), d, "fimH", ParseDecimal);
  }

  /** When no record has both interactors, only the queried gene remains. */
  lemma AllInvalidExample(rs: seq<Interaction>, gene: string, parse: string -> Option<real>)
    requires forall i :: 0 <= i < |rs| ==> !IsValid(ExtractInteractors(rs[i].1))
    ensures Run(rs, gene, parse) == Initial(gene)
  {
    RunEdges(rs, gene, parse);
    assert ValidEdges(rs) == {};
    forall x | x in Run(rs, gene, parse).nodes
      ensures x == gene
    {
      RunNodeAttrs(rs, gene, parse, x);
    }
    RunNodeAttrs(rs, gene, parse, gene);
  }
}

# Gene interaction network builder, modelled in Dafny

The program sends one gene name to an interaction web service. It receives
a dictionary of interaction records and puts them into a directed graph.
The graph has the queried gene and every interactor of the records that have
both interactors as nodes, each with a display colour and size. It has one
edge for each distinct pair (A, B) of those records. This project models
how the graph is built and proves what the graph holds once every record
has been processed.

- `wrappers.dfy`, module `Wrappers`: `Option`, which stands for Python's
  `None` or a present value.
- `records.dfy`, module `Records`: `extract_interactors`. Each interactor
  comes from a chain of Python `or` over candidate field names; the
  quantitation is read from one field.
- `quantitation.dfy`, module `Quantitation`: coercing the raw quantitation
  into an optional number. Python's `float` is a function parameter `parse`;
  `parse(s) == None` means the conversion raised `ValueError`.
  `ParseDecimal` is one concrete `parse`, for plain decimal literals. The
  worked examples use it.
- `coloring.dfy`, module `Coloring`: the four colours and the nested
  `get_node_color` rule.
- `network.dfy`, module `Network`: the networkx `DiGraph` as a class
  `InteractionGraph`. Its node map and edge set are updated in place by
  `AddNode` and `AddEdge`. `PlotInteractionNetwork` is the loop over the
  records, followed by the zero-edge check. Beside it, `Step` and `Run` are
  the value-level specification: the graph after one record, and after a
  whole sequence of records. `WithNode` models networkx's `add_node`. On a
  node that already exists, `add_node` updates its attribute dictionary
  instead of replacing it. So the queried gene keeps the `label` it was
  first given.
- `network_props.dfy`, module `NetworkProps`: lemmas about `Run`.

The records dictionary is a sequence of `(id, fields)` pairs, in insertion
order, because that is the order in which Python iterates a dict. Each
record's fields are a `map<string, string>`.

Line 87 adds the queried gene as the central node with size 1200. Lines
112-113 reset its size to 500 whenever a valid record names it, and its
colour stays orange. The model follows the code: see `QueriedGeneAttrs`.

## Model

| member | source | states |
|---|---|---|
| `Records.Get` | gene_interaction_pipeline.py:68-70 | `dict.get`: present exactly when the key is in the record, and then it is the stored value |
| `Records.Truthy` | gene_interaction_pipeline.py:68-69 | Python truthiness of an optional string: present and non-empty, as `or` (lines 68-69) and the `if` (line 92) test it |
| `Records.IsValid` | gene_interaction_pipeline.py:92 | the `if interactor_a and interactor_b` test: both interactors are truthy |
| `Records.FirstTruthy` | gene_interaction_pipeline.py:68-69 | a chain of `or` over field lookups is truthy iff some field's value is; then it is the value of the first truthy field; otherwise it is the last field's value, possibly absent |
| `Records.ExtractInteractors` | gene_interaction_pipeline.py:57-71 | A is `OFFICIAL_SYMBOL_A` when that is present and non-empty, otherwise whatever `InteractorA` holds, possibly nothing; the same for B; the quantitation is the raw `QUANTITATION` value with no fallback; A (or B) is truthy iff one of its two fields is |
| `Quantitation.CoerceQuantitation` | gene_interaction_pipeline.py:94-97 | total: a missing value and "-" are absent; the result is present iff the value is neither missing nor "-" and the conversion succeeds, and it is then the converted number |
| `Quantitation.ParseDecimal` | gene_interaction_pipeline.py:95 | a plain decimal literal, standing in for `float`: it fails on every string without a digit, including "" and "-"; a negative result needs a leading "-" and a positive result excludes one |
| `Quantitation.CoercionAbsentSamples` | gene_interaction_pipeline.py:94-97 | None, "-" and "abc" coerce to absent |
| `Quantitation.CoercionNumericSamples` | gene_interaction_pipeline.py:94-95 | "5", "-3.2", "0" and "3.5" coerce to 5.0, -3.2, 0.0 and 3.5 |
| `Coloring.ColorName` | gene_interaction_pipeline.py:102-109 | every colour is one of the four names the drawing uses |
| `Coloring.ColorNameInjective` | gene_interaction_pipeline.py:102-109 | distinct colours have distinct names, like the four string literals of the rule |
| `Coloring.NodeColor` | gene_interaction_pipeline.py:100-109 | orange iff the endpoint is the queried gene, whatever the quantitation; any other endpoint is springgreen iff q > 0, lightcoral iff q < 0, lightblue iff q is 0 or absent |
| `Network.WithNode` | gene_interaction_pipeline.py:112-113 | `add_node` sets colour and size, adds the node if new, keeps an existing label unless a new one is given, and leaves every other node alone |
| `Network.Initial` | gene_interaction_pipeline.py:84-87 | the graph starts with the queried gene as its only node (orange, size 1200, labelled) and no edge |
| `Network.QuantOf` | gene_interaction_pipeline.py:94-97 | the coerced quantitation of a record: absent when `QUANTITATION` is missing or "-", and otherwise the conversion of that field's value |
| `Network.EdgeOf` | gene_interaction_pipeline.py:92-114 | a record gives an edge iff both its interactors are truthy, and the edge is then (A, B) |
| `Network.Mentions` | gene_interaction_pipeline.py:92-113 | a node is named by a record iff the record is valid and the node is its A or its B |
| `Network.Step` | gene_interaction_pipeline.py:89-114 | a record missing either interactor leaves the graph unchanged; a valid record adds exactly its edge A to B and at most its two endpoints as nodes; each endpoint gets its colour and size 500 and keeps its label; every other node is unchanged |
| `Network.Run` | gene_interaction_pipeline.py:89-114 | the graph after the records in order, starting from `Initial`; the queried gene stays a node and stays orange; its other properties are the NetworkProps lemmas |
| `Network.InteractionGraph.constructor` | gene_interaction_pipeline.py:84 | `nx.DiGraph()` builds an empty graph |
| `Network.InteractionGraph.AddNode` | gene_interaction_pipeline.py:112-113 | the node map becomes `WithNode` of the old one; the edges do not change; every edge still joins two nodes |
| `Network.InteractionGraph.AddEdge` | gene_interaction_pipeline.py:114 | the edge set gains (u, v), so re-adding an edge changes nothing; the nodes do not change |
| `Network.InteractionGraph.EdgeCount` | gene_interaction_pipeline.py:116 | `len(G.edges)` is zero iff the edge set is empty |
| `Network.PlotInteractionNetwork` | gene_interaction_pipeline.py:84-118 | the in-place loop ends with the graph `Run` specifies; the function stops before drawing iff that graph has no edge, and otherwise draws it |
| `NetworkProps.RunEdges` | gene_interaction_pipeline.py:112-114 | the final edge set equals the set of pairs (A, B) taken from the valid records |
| `NetworkProps.EdgeIffValidRecord` | gene_interaction_pipeline.py:92-114 | (a, b) is an edge iff some valid record has interactors a and b |
| `NetworkProps.EdgeEndpointsNonEmpty` | gene_interaction_pipeline.py:92-114 | both endpoints of every edge are non-empty strings, because only records with two truthy interactors add one |
| `NetworkProps.NoEdgesIffNoValidRecord` | gene_interaction_pipeline.py:116-118 | the graph has no edge, so drawing is skipped, iff no record has both interactors |
| `NetworkProps.RunEndpointsAreNodes` | gene_interaction_pipeline.py:112-114 | both endpoints of every edge are nodes |
| `NetworkProps.LastMention` | gene_interaction_pipeline.py:89-113 | the index of the last valid record that names a node, or none when no valid record names it |
| `NetworkProps.RunNodeAttrs` | gene_interaction_pipeline.py:87-113 | the nodes are exactly the queried gene plus the endpoints of the valid records; each node's attributes come from the last valid record that names it (last write wins); when no valid record names the queried gene, it keeps its initial attributes |
| `NetworkProps.QueriedGeneAttrs` | gene_interaction_pipeline.py:87-113 | the queried gene is always a node, always orange, always labelled; its size is 500 if any valid record names it and 1200 otherwise |
| `NetworkProps.RunSkipsInvalid` | gene_interaction_pipeline.py:92 | appending a record that lacks either interactor does not change the resulting graph |
| `NetworkProps.StepIdempotent` | gene_interaction_pipeline.py:112-114 | processing the same record twice in a row gives the same graph as processing it once |
| `NetworkProps.RunRepeatLast` | gene_interaction_pipeline.py:112-114 | repeating the last record of a sequence changes neither the nodes nor the edges |
| `NetworkProps.SingleRecordExample` | gene_interaction_pipeline.py:84-114 | the single record fimH to fimG with quantitation "3.5", queried for fimH, gives nodes fimH (orange, 500) and fimG (springgreen, 500) and the single edge fimH to fimG |
| `NetworkProps.AllInvalidExample` | gene_interaction_pipeline.py:84-92 | when no record has both interactors, the graph is the initial one-node graph |

## Left out

- `fetch_gene_interactions` (lines 6-54) is left out. It is one HTTP request made through an external library, with a timeout, status checks and JSON decoding. The model starts from the records it returns.
- Drawing (lines 120-148) is left out: reading the attributes back for drawing, the seeded spring layout, matplotlib, the title and the legend. `PlotOutcome.Draw` carries the graph that would be drawn.
- The console entry point (lines 151-166) is left out: the prompt, printing the first ten records, and the "No interactions to display" branch. The messages printed on standard output are not modelled; reaching the zero-edge message is `PlotOutcome.NoValidEdges`.
- Quantitation.ParseDecimal: accepts only an optional sign and digits with at most one decimal point. Python's `float` also accepts surrounding whitespace, exponents, underscores, `inf` and `nan`. Every general theorem about the graph is stated for an arbitrary `parse`, so it holds whatever `float` accepts; only the worked example `SingleRecordExample` fixes `parse` to `ParseDecimal`. The IEEE values `inf`, `nan` and rounding are not representable as `real`. Under Python, `nan` compares false both ways and would give lightblue.
- Field values are strings only. JSON `null`, numbers and nested values in a record are not modelled. A `QUANTITATION` value that is not a string is outside the model. A JSON number would be converted by `float` (`float(5)` is 5.0); a list or dict would make `float` raise `TypeError`, which the code does not catch.
- Network.InteractionGraph.AddEdge: requires both endpoints to be nodes already, which every call in the loop meets. networkx's `add_edge` would also create missing endpoints with empty attributes; that case is not modelled.
- The interaction identifier of each record is carried along but unused, as in the code.

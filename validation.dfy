/** The generated connectivity rules: which node type may lie directly
    downstream of which, and how many flow and control links each node type
    needs and allows on its in- and out-side. */
module Validation {

  /** The 15 node types of the rules. */
  const NodeTypes: set<string> := {
    "PidControl", "LevelBoundary", "Pump", "UserDemand", "TabulatedRatingCurve",
    "FlowDemand", "FlowBoundary", "Basin", "ManningResistance", "LevelDemand",
    "DiscreteControl", "Outlet", "ContinuousControl", "LinearResistance", "Terminal"
  }

  /** `connectivity`: the allowed downstream types of each node type. */
  const Connectivity: map<string, seq<string>> := map[
    "PidControl" := ["Outlet", "Pump"],
    "LevelBoundary" := ["Outlet", "TabulatedRatingCurve", "LinearResistance", "Pump"],
    "Pump" := ["LevelBoundary", "Basin", "Terminal"],
    "UserDemand" := ["LevelBoundary", "Basin", "Terminal"],
    "TabulatedRatingCurve" := ["LevelBoundary", "Basin", "Terminal"],
    "FlowDemand" := ["LinearResistance", "Outlet", "TabulatedRatingCurve", "ManningResistance", "Pump"],
    "FlowBoundary" := ["LevelBoundary", "Basin", "Terminal"],
    "Basin" := ["LinearResistance", "UserDemand", "Outlet", "TabulatedRatingCurve", "ManningResistance", "Pump"],
    "ManningResistance" := ["Basin"],
    "LevelDemand" := ["Basin"],
    "DiscreteControl" := ["LinearResistance", "PidControl", "Outlet", "TabulatedRatingCurve", "ManningResistance", "Pump"],
    "Outlet" := ["LevelBoundary", "Basin", "Terminal"],
    "ContinuousControl" := ["Outlet", "Pump"],
    "LinearResistance" := ["LevelBoundary", "Basin"],
    "Terminal" := []
  ]

  /** Python's largest 64-bit integer, the "unbounded" entry of the amount tables. */
  const UNBOUNDED: int := 9223372036854775807

  /** `flow_edge_amount`: `[min_in, max_in, min_out, max_out]` flow links per type. */
  const FlowEdgeAmount: map<string, seq<int>> := map[
    "PidControl" := [0, 0, 0, 0],
    "LevelBoundary" := [0, UNBOUNDED, 0, UNBOUNDED],
    "Pump" := [1, 1, 1, 1],
    "UserDemand" := [1, 1, 1, 1],
    "TabulatedRatingCurve" := [1, 1, 1, 1],
    "FlowDemand" := [0, 0, 0, 0],
    "FlowBoundary" := [0, 0, 1, UNBOUNDED],
    "Basin" := [0, UNBOUNDED, 0, UNBOUNDED],
    "ManningResistance" := [1, 1, 1, 1],
    "LevelDemand" := [0, 0, 0, 0],
    "DiscreteControl" := [0, 0, 0, 0],
    "Outlet" := [1, 1, 1, 1],
    "ContinuousControl" := [0, 0, 0, 0],
    "LinearResistance" := [1, 1, 1, 1],
    "Terminal" := [1, UNBOUNDED, 0, 0]
  ]

  /** `control_edge_amount`: `[min_in, max_in, min_out, max_out]` control links per type. */
  const ControlEdgeAmount: map<string, seq<int>> := map[
    "PidControl" := [0, 1, 1, 1],
    "LevelBoundary" := [0, 0, 0, 0],
    "Pump" := [0, 1, 0, 0],
    "UserDemand" := [0, 0, 0, 0],
    "TabulatedRatingCurve" := [0, 1, 0, 0],
    "FlowDemand" := [0, 0, 1, 1],
    "FlowBoundary" := [0, 0, 0, 0],
    "Basin" := [0, 1, 0, 0],
    "ManningResistance" := [0, 1, 0, 0],
    "LevelDemand" := [0, 0, 1, UNBOUNDED],
    "DiscreteControl" := [0, 0, 1, UNBOUNDED],
    "Outlet" := [0, 1, 0, 0],
    "ContinuousControl" := [0, 0, 1, UNBOUNDED],
    "LinearResistance" := [0, 1, 0, 0],
    "Terminal" := [0, 0, 0, 0]
  ]

  /** `can_connect` over any connectivity table. */
  function CanConnectIn(table: map<string, seq<string>>, up: string, down: string): (r: bool)
    ensures r <==> up in table && down in table[up]
    ensures up !in table ==> !r
  {
    if up in table then down in table[up] else false
  }

  /** `can_connect(node_up, node_down)` over the generated table. */
  function CanConnect(up: string, down: string): bool {
    CanConnectIn(Connectivity, up, down)
  }

  /** Nothing may lie downstream of a Terminal. */
  lemma TerminalHasNoDownstream(down: string)
    ensures !CanConnect("Terminal", down)
  {
  }

  /** An unknown upstream type connects to nothing. */
  lemma UnknownUpstream(up: string, down: string)
    requires up !in NodeTypes
    ensures !CanConnect(up, down)
  {
  }

  /** Every type named as a downstream type is itself a node type of the rules. */
  lemma DownstreamTypesAreKnown(up: string, down: string)
    requires CanConnect(up, down)
    ensures down in NodeTypes && down in Connectivity
  {
  }

  /** The three tables speak of the same node types. */
  lemma TablesShareKeys()
    ensures Connectivity.Keys == NodeTypes
    ensures FlowEdgeAmount.Keys == NodeTypes
    ensures ControlEdgeAmount.Keys == NodeTypes
  {
  }

  /** An amount entry is a well-formed `[min_in, max_in, min_out, max_out]`. */
  predicate AmountEntry(a: seq<int>) {
    |a| == 4 && 0 <= a[0] <= a[1] && 0 <= a[2] <= a[3]
  }

  /** Every entry of both amount tables has its minima below its maxima. */
  lemma AmountsWellFormed(t: string)
    requires t in NodeTypes
    ensures AmountEntry(FlowEdgeAmount[t]) && AmountEntry(ControlEdgeAmount[t])
  {
  }
}

/** The link table of a model and its `add` operation, which appends one
    link between two nodes after checking the connectivity rules, the ban on
    reverse links, the per-type neighbour limits and the uniqueness of link
    ids and of (from, to) pairs. Node geometry is a type parameter `P`. */
module Links {
  import opened Common
  import opened Strings
  import Validation

  /** Node types whose outgoing links are control links. */
  const SpatialControlNodeTypes: set<string> := {
    "ContinuousControl", "DiscreteControl", "FlowDemand", "LevelDemand", "PidControl"
  }

  datatype NodeData<P> = NodeData(nodeId: int, nodeType: string, geometry: P)

  /** A link's line: the straight segment between its nodes, or one given by the caller. */
  datatype LinkGeometry<P> = Straight(start: P, end: P) | Given(points: seq<P>)

  datatype Row<P> = Row(
    linkId: int, fromId: int, toId: int, linkType: string, name: string, geometry: LinkGeometry<P>)

  /** The rule tables `add` consults: allowed downstream types, and the flow
      and control neighbour amounts `[min_in, max_in, min_out, max_out]`. */
  datatype Tables = Tables(
    connectivity: map<string, seq<string>>,
    flowAmount: map<string, seq<int>>,
    controlAmount: map<string, seq<int>>)

  /** The generated tables. */
  const GeneratedTables := Tables(
    Validation.Connectivity, Validation.FlowEdgeAmount, Validation.ControlEdgeAmount)

  /** The table (absent when no link was ever read or added) and the used link ids. */
  datatype State<P> = State(df: Option<seq<Row<P>>>, usedIds: set<int>, maxId: int)

  /** The link type inferred from the from-node. */
  function LinkType(fromType: string): (t: string)
    ensures t == "control" <==> fromType in SpatialControlNodeTypes
    ensures t == "flow" <==> fromType !in SpatialControlNodeTypes
  {
    if fromType in SpatialControlNodeTypes then "control" else "flow"
  }

  /** The number of rows into `toId` of the given link type. */
  function InNeighbors<P>(rows: seq<Row<P>>, toId: int, linkType: string): (n: nat)
    ensures n <= |rows|
    ensures n == 0 <==> forall k :: 0 <= k < |rows| ==> !(rows[k].toId == toId && rows[k].linkType == linkType)
  {
    if rows == [] then 0
    else
      var last := rows[|rows| - 1];
      InNeighbors(rows[..|rows| - 1], toId, linkType) + (if last.toId == toId && last.linkType == linkType then 1 else 0)
  }

  /** The number of rows out of `fromId` of the given link type. */
  function OutNeighbors<P>(rows: seq<Row<P>>, fromId: int, linkType: string): (n: nat)
    ensures n <= |rows|
    ensures n == 0 <==> forall k :: 0 <= k < |rows| ==> !(rows[k].fromId == fromId && rows[k].linkType == linkType)
  {
    if rows == [] then 0
    else
      var last := rows[|rows| - 1];
      OutNeighbors(rows[..|rows| - 1], fromId, linkType) + (if last.fromId == fromId && last.linkType == linkType then 1 else 0)
  }

  predicate ReverseExists<P>(rows: seq<Row<P>>, fromId: int, toId: int) {
    exists k :: 0 <= k < |rows| && rows[k].fromId == toId && rows[k].toId == fromId
  }

  /** Two rows join the same pair of nodes (`duplicated(subset=[from, to]).any()`). */
  predicate HasDuplicatePair<P>(rows: seq<Row<P>>) {
    exists i, j :: 0 <= i < j < |rows| && rows[i].fromId == rows[j].fromId && rows[i].toId == rows[j].toId
  }

  /** `table[nodeType][k]`, with the KeyError and IndexError Python raises. */
  function AmountAt(table: map<string, seq<int>>, nodeType: string, k: nat): (r: Result<int>)
    ensures r.Ok? <==> nodeType in table && k < |table[nodeType]|
    ensures r.Ok? ==> r.value == table[nodeType][k]
    ensures nodeType !in table ==> r == Err(KeyError(nodeType))
  {
    if nodeType !in table then Err(KeyError(nodeType))
    else if k >= |table[nodeType]| then Err(IndexError)
    else Ok(table[nodeType][k])
  }

  function LimitMessage(nodeId: int, limit: int, linkType: string, side: string, got: nat): string {
    "Node " + IntToString(nodeId) + " can have at most " + IntToString(limit) + " " + linkType +
    " link " + side + "(s) (got " + IntToString(got) + ")"
  }

  /** `_validate_link`: the to-node must have fewer same-type in-links than its
      maximum, and the from-node fewer same-type out-links than its maximum. */
  function ValidateLink<P>(t: Tables, rows: seq<Row<P>>, to: NodeData<P>, from: NodeData<P>, linkType: string): (r: Result<()>)
    ensures r.Ok? && linkType == "flow" ==>
      AmountAt(t.flowAmount, to.nodeType, 1).Ok? && AmountAt(t.flowAmount, from.nodeType, 3).Ok? &&
      InNeighbors(rows, to.nodeId, linkType) < AmountAt(t.flowAmount, to.nodeType, 1).value &&
      OutNeighbors(rows, from.nodeId, linkType) < AmountAt(t.flowAmount, from.nodeType, 3).value
    ensures r.Ok? && linkType == "control" ==>
      AmountAt(t.controlAmount, to.nodeType, 1).Ok? && AmountAt(t.controlAmount, from.nodeType, 3).Ok? &&
      InNeighbors(rows, to.nodeId, linkType) < AmountAt(t.controlAmount, to.nodeType, 1).value &&
      OutNeighbors(rows, from.nodeId, linkType) < AmountAt(t.controlAmount, from.nodeType, 3).value
    ensures r.Err? ==> r.error.ValueError? || r.error.KeyError? || r.error == IndexError
  {
    var inNeighbor := InNeighbors(rows, to.nodeId, linkType);
    var outNeighbor := OutNeighbors(rows, from.nodeId, linkType);
    var maxInFlow :- AmountAt(t.flowAmount, to.nodeType, 1);
    var maxOutFlow :- AmountAt(t.flowAmount, from.nodeType, 3);
    var maxInControl :- AmountAt(t.controlAmount, to.nodeType, 1);
    var maxOutControl :- AmountAt(t.controlAmount, from.nodeType, 3);
    if linkType == "flow" then
      if inNeighbor >= maxInFlow then Err(ValueError(LimitMessage(to.nodeId, maxInFlow, "flow", "inneighbor", inNeighbor)))
      else if outNeighbor >= maxOutFlow then Err(ValueError(LimitMessage(from.nodeId, maxOutFlow, "flow", "outneighbor", outNeighbor)))
      else Ok(())
    else if linkType == "control" then
      if inNeighbor >= maxInControl then Err(ValueError(LimitMessage(to.nodeId, maxInControl, "control", "inneighbor", inNeighbor)))
      else if outNeighbor >= maxOutControl then Err(ValueError(LimitMessage(from.nodeId, maxOutControl, "control", "outneighbor", outNeighbor)))
      else Ok(())
    else Ok(())
  }

  /** What one call of `add` leaves behind and what it raises. */
  datatype AddOutcome<P> = AddOutcome(state: State<P>, result: Result<()>)

  /** `LinkTable.add`. */
  function AddSpec<P>(t: Tables, s: State<P>, from: NodeData<P>, to: NodeData<P>,
                      geometry: Option<seq<P>>, name: string, linkId: Option<int>): AddOutcome<P>
  {
    if !Validation.CanConnectIn(t.connectivity, from.nodeType, to.nodeType) then
      // The error message lists the allowed types of the from-type, which
      // raises KeyError itself when that type is unknown.
      if from.nodeType !in t.connectivity then AddOutcome(s, Err(KeyError(from.nodeType)))
      else AddOutcome(s, Err(ValueError("cannot be downstream")))
    else if s.df.Some? && "UserDemand" !in [from.nodeType, to.nodeType]
            && ReverseExists(s.df.value, from.nodeId, to.nodeId) then
      AddOutcome(s, Err(ValueError("the opposite link already exists")))
    else if s.df.None? then AddOutcome(s, Err(AssertionError("")))
    else
      var rows := s.df.value;
      var linkType := LinkType(from.nodeType);
      var v := ValidateLink(t, rows, to, from, linkType);
      if v.Err? then AddOutcome(s, Err(v.error))
      else if linkId.Some? && linkId.value in s.usedIds then
        AddOutcome(s, Err(ValueError("Link IDs have to be unique, but " + IntToString(linkId.value) + " already exists.")))
      else
        var id := if linkId.Some? then linkId.value else s.maxId + 1;
        var geom := if geometry.Some? then Given(geometry.value) else Straight(from.geometry, to.geometry);
        var rows1 := rows + [Row(id, from.nodeId, to.nodeId, linkType, name, geom)];
        if HasDuplicatePair(rows1) then
          AddOutcome(State(Some(rows1), s.usedIds, s.maxId), Err(ValueError("Links have to be unique")))
        else
          AddOutcome(State(Some(rows1), s.usedIds + {id}, if id > s.maxId then id else s.maxId), Ok(()))
  }

  /** The largest link id of a non-empty table (`df.index.max()`). */
  function MaxLinkId<P>(rows: seq<Row<P>>): (m: int)
    requires |rows| > 0
    ensures forall k :: 0 <= k < |rows| ==> rows[k].linkId <= m
    ensures exists k :: 0 <= k < |rows| && rows[k].linkId == m
  {
    if |rows| == 1 then rows[0].linkId
    else
      var m := MaxLinkId(rows[1..]);
      assert forall k :: 1 <= k < |rows| ==> rows[k] == rows[1..][k - 1];
      if rows[0].linkId > m then rows[0].linkId else m
  }

  function LinkIds<P>(rows: seq<Row<P>>): set<int> {
    set k | 0 <= k < |rows| :: rows[k].linkId
  }

  /** `_update_used_ids` after construction: the used ids are the table's
      index and the maximum is the index maximum. */
  function Seed<P>(df: Option<seq<Row<P>>>): (s: State<P>)
    ensures s.df == df
    ensures df.Some? && |df.value| > 0 ==>
      s.usedIds == LinkIds(df.value) && (forall i :: i in s.usedIds ==> i <= s.maxId) && s.maxId in s.usedIds
    ensures df.None? || df.value == [] ==> s.usedIds == {} && s.maxId == 0
  {
    if df.Some? && |df.value| > 0 then
      var m := MaxLinkId(df.value);
      State(df, LinkIds(df.value), m)
    else State(df, {}, 0)
  }

  predicate DistinctIds<P>(rows: seq<Row<P>>) {
    forall i, j :: 0 <= i < j < |rows| ==> rows[i].linkId != rows[j].linkId
  }

  /** The table invariant `add` keeps: unique ids and pairs, every row's id
      recorded as used, and the recorded maximum above every used id. */
  predicate Valid<P>(s: State<P>) {
    (forall i :: i in s.usedIds ==> i <= s.maxId) &&
    (s.df.Some? ==>
      !HasDuplicatePair(s.df.value) && DistinctIds(s.df.value) &&
      forall k :: 0 <= k < |s.df.value| ==> s.df.value[k].linkId in s.usedIds)
  }

  /** A table read with unique ids and pairs starts out valid. */
  lemma SeedValid<P>(df: Option<seq<Row<P>>>)
    requires df.Some? ==> !HasDuplicatePair(df.value) && DistinctIds(df.value)
    ensures Valid(Seed(df))
  {
  }

  /** If the nodes' types cannot be connected, `add` raises and changes nothing. */
  lemma AddRejectsUnconnectable<P>(t: Tables, s: State<P>, from: NodeData<P>, to: NodeData<P>,
                                   geometry: Option<seq<P>>, name: string, linkId: Option<int>)
    requires !Validation.CanConnectIn(t.connectivity, from.nodeType, to.nodeType)
    ensures var o := AddSpec(t, s, from, to, geometry, name, linkId);
      o.state == s && o.result.Err? && (o.result.error.ValueError? || o.result.error.KeyError?)
  {
  }

  /** A link whose reverse exists is refused, with nothing changed, unless
      one of its nodes is a UserDemand. */
  lemma AddRejectsReverse<P>(t: Tables, s: State<P>, from: NodeData<P>, to: NodeData<P>,
                             geometry: Option<seq<P>>, name: string, linkId: Option<int>)
    requires Validation.CanConnectIn(t.connectivity, from.nodeType, to.nodeType)
    requires s.df.Some? && ReverseExists(s.df.value, from.nodeId, to.nodeId)
    requires from.nodeType != "UserDemand" && to.nodeType != "UserDemand"
    ensures var o := AddSpec(t, s, from, to, geometry, name, linkId);
      o.state == s && o.result.Err? && o.result.error.ValueError?
  {
  }

  /** Without a table there is nothing to add to: `add` fails its assertion. */
  lemma AddWithoutTable<P>(t: Tables, s: State<P>, from: NodeData<P>, to: NodeData<P>,
                           geometry: Option<seq<P>>, name: string, linkId: Option<int>)
    requires Validation.CanConnectIn(t.connectivity, from.nodeType, to.nodeType)
    requires s.df.None?
    ensures AddSpec(t, s, from, to, geometry, name, linkId) == AddOutcome(s, Err(AssertionError("")))
  {
  }

  /** A successful `add` left the to-node below its in-link maximum and the
      from-node below its out-link maximum for the inferred link type. */
  lemma AddRespectsNeighborLimits<P>(t: Tables, s: State<P>, from: NodeData<P>, to: NodeData<P>,
                                     geometry: Option<seq<P>>, name: string, linkId: Option<int>)
    requires AddSpec(t, s, from, to, geometry, name, linkId).result.Ok?
    ensures s.df.Some?
    ensures var amount := if LinkType(from.nodeType) == "flow" then t.flowAmount else t.controlAmount;
      AmountAt(amount, to.nodeType, 1).Ok? && AmountAt(amount, from.nodeType, 3).Ok? &&
      InNeighbors(s.df.value, to.nodeId, LinkType(from.nodeType)) < AmountAt(amount, to.nodeType, 1).value &&
      OutNeighbors(s.df.value, from.nodeId, LinkType(from.nodeType)) < AmountAt(amount, from.nodeType, 3).value
  {
    var v := ValidateLink(t, s.df.value, to, from, LinkType(from.nodeType));
    assert v.Ok?;
  }

  /** The checks `add` makes before it looks at the link id: the types can
      connect, no opposite link blocks the new one, there is a table, and
      the neighbour limits hold. */
  predicate PassesChecks<P>(t: Tables, s: State<P>, from: NodeData<P>, to: NodeData<P>) {
    Validation.CanConnectIn(t.connectivity, from.nodeType, to.nodeType) &&
    s.df.Some? &&
    !("UserDemand" !in [from.nodeType, to.nodeType] && ReverseExists(s.df.value, from.nodeId, to.nodeId)) &&
    ValidateLink(t, s.df.value, to, from, LinkType(from.nodeType)).Ok?
  }

  /** A link id that is already in use is refused and nothing changes; once
      the earlier checks pass, the refusal is the ValueError on the id. */
  lemma AddRejectsUsedId<P>(t: Tables, s: State<P>, from: NodeData<P>, to: NodeData<P>,
                            geometry: Option<seq<P>>, name: string, id: int)
    requires id in s.usedIds
    ensures var o := AddSpec(t, s, from, to, geometry, name, Some(id));
      o.state == s && o.result.Err?
    ensures PassesChecks(t, s, from, to) ==>
      AddSpec(t, s, from, to, geometry, name, Some(id)).result ==
        Err(ValueError("Link IDs have to be unique, but " + IntToString(id) + " already exists."))
  {
  }

  /** A duplicate (from, to) pair raises after the table was replaced: the
      row stays in the table, but its id is not recorded as used. */
  lemma AddDuplicatePairKeepsRow<P>(t: Tables, s: State<P>, from: NodeData<P>, to: NodeData<P>,
                                    geometry: Option<seq<P>>, name: string, linkId: Option<int>)
    requires s.df.Some?
    requires exists k :: 0 <= k < |s.df.value| && s.df.value[k].fromId == from.nodeId && s.df.value[k].toId == to.nodeId
    ensures var o := AddSpec(t, s, from, to, geometry, name, linkId);
      o.result.Err? &&
      (o.state == s || (o.state.usedIds == s.usedIds && o.state.maxId == s.maxId &&
                        o.state.df.Some? && |o.state.df.value| == |s.df.value| + 1))
  {
    var o := AddSpec(t, s, from, to, geometry, name, linkId);
    if o.state != s {
      var rows1 := o.state.df.value;
      var k :| 0 <= k < |s.df.value| && s.df.value[k].fromId == from.nodeId && s.df.value[k].toId == to.nodeId;
      assert rows1[k] == s.df.value[k];
      assert rows1[|s.df.value|].fromId == from.nodeId && rows1[|s.df.value|].toId == to.nodeId;
      assert HasDuplicatePair(rows1);
    }
  }

  /** A successful `add` appends exactly one row with the given nodes, type
      and name, under a fresh id, and records that id as used. */
  lemma AddAppendsOneRow<P>(t: Tables, s: State<P>, from: NodeData<P>, to: NodeData<P>,
                            geometry: Option<seq<P>>, name: string, linkId: Option<int>)
    requires AddSpec(t, s, from, to, geometry, name, linkId).result.Ok?
    ensures var o := AddSpec(t, s, from, to, geometry, name, linkId);
      s.df.Some? && o.state.df.Some? &&
      var rows := o.state.df.value;
      |rows| == |s.df.value| + 1 && rows[..|s.df.value|] == s.df.value &&
      var row := rows[|s.df.value|];
      row.fromId == from.nodeId && row.toId == to.nodeId && row.name == name &&
      row.linkType == LinkType(from.nodeType) &&
      (Valid(s) ==> row.linkId !in s.usedIds) &&
      o.state.usedIds == s.usedIds + {row.linkId} &&
      (linkId.Some? ==> row.linkId == linkId.value) &&
      (linkId.None? ==> row.linkId == s.maxId + 1)
  {
  }

  /** A successful `add` keeps the table invariant: the new id is fresh and
      the new pair is not in the table yet. */
  lemma AddPreservesValid<P>(t: Tables, s: State<P>, from: NodeData<P>, to: NodeData<P>,
                             geometry: Option<seq<P>>, name: string, linkId: Option<int>)
    requires Valid(s)
    requires AddSpec(t, s, from, to, geometry, name, linkId).result.Ok?
    ensures Valid(AddSpec(t, s, from, to, geometry, name, linkId).state)
  {
    var o := AddSpec(t, s, from, to, geometry, name, linkId);
    var rows := s.df.value;
    var rows1 := o.state.df.value;
    var id := rows1[|rows|].linkId;
    assert id !in s.usedIds;
    forall i, j | 0 <= i < j < |rows1| ensures rows1[i].linkId != rows1[j].linkId {
      if j == |rows| {
        assert rows1[i] == rows[i];
        assert rows[i].linkId in s.usedIds;
      } else {
        assert rows1[i] == rows[i] && rows1[j] == rows[j];
      }
    }
  }

  /** The link table object: its data frame and the link ids it has handed out. */
  class LinkTable<P> {
    const tables: Tables
    var df: Option<seq<Row<P>>>
    var usedIds: set<int>
    var maxId: int

    function Snapshot(): State<P>
      reads this
    {
      State(df, usedIds, maxId)
    }

    /** Construction runs `_update_used_ids` on the table read. */
    constructor (tables: Tables, df0: Option<seq<Row<P>>>)
      ensures this.tables == tables && Snapshot() == Seed(df0)
    {
      this.tables := tables;
      df := df0;
      usedIds := {};
      maxId := 0;
      new;
      if df0.Some? && |df0.value| > 0 {
        usedIds := usedIds + LinkIds(df0.value);
        maxId := MaxLinkId(df0.value);
      }
    }

    /** `add`, check by check, in the order `LinkTable.add` makes them. */
    method Add(from: NodeData<P>, to: NodeData<P>, geometry: Option<seq<P>>, name: string, linkId: Option<int>)
      returns (r: Result<()>)
      modifies this
      ensures var o := AddSpec(tables, old(Snapshot()), from, to, geometry, name, linkId);
        Snapshot() == o.state && r == o.result
    {
      if !Validation.CanConnectIn(tables.connectivity, from.nodeType, to.nodeType) {
        if from.nodeType !in tables.connectivity {
          return Err(KeyError(from.nodeType));
        }
        return Err(ValueError("cannot be downstream"));
      }
      if df.Some? {
        if "UserDemand" !in [from.nodeType, to.nodeType] && ReverseExists(df.value, from.nodeId, to.nodeId) {
          return Err(ValueError("the opposite link already exists"));
        }
      }
      var geometryToAppend := if geometry.Some? then Given(geometry.value) else Straight(from.geometry, to.geometry);
      var linkType := LinkType(from.nodeType);
      if df.None? {
        return Err(AssertionError(""));
      }
      var valid := ValidateLink(tables, df.value, to, from, linkType);
      if valid.Err? {
        return Err(valid.error);
      }
      var id: int;
      if linkId.None? {
        id := maxId + 1;
      } else if linkId.value in usedIds {
        return Err(ValueError("Link IDs have to be unique, but " + IntToString(linkId.value) + " already exists."));
      } else {
        id := linkId.value;
      }
      df := Some(df.value + [Row(id, from.nodeId, to.nodeId, linkType, name, geometryToAppend)]);
      if HasDuplicatePair(df.value) {
        return Err(ValueError("Links have to be unique"));
      }
      usedIds := usedIds + {id};
      if id > maxId {
        maxId := id;
      }
      return Ok(());
    }
  }
}

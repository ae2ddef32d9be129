/** Schema migrations applied to tables read from older model files: they
    drop obsolete columns and move identifier columns to the index, in
    place on the frame. A frame is its column names in order, each named
    column's values, and its index (name and values). Cell values are
    integers; what they mean does not matter here. */
module Migrations {
  import opened Common

  /** The state of a frame. */
  datatype Table = Table(columns: seq<string>, data: map<string, seq<int>>, indexName: Option<string>, index: seq<int>)

  /** Every listed column has values. */
  predicate WellFormed(t: Table) {
    forall c :: c in t.columns ==> c in t.data
  }

  /** The column names without `c`, in their order. */
  function Remove(columns: seq<string>, c: string): (r: seq<string>)
    ensures forall d :: d in r <==> d in columns && d != c
  {
    if columns == [] then []
    else if columns[0] == c then Remove(columns[1..], c)
    else [columns[0]] + Remove(columns[1..], c)
  }

  /** Removing works name by name, so the remaining columns keep their order. */
  lemma {:induction false} RemoveConcat(a: seq<string>, b: seq<string>, c: string)
    ensures Remove(a + b, c) == Remove(a, c) + Remove(b, c)
    decreases |a|
  {
    if a == [] {
      assert a + b == b;
    } else {
      assert (a + b)[0] == a[0] && (a + b)[1..] == a[1..] + b;
      RemoveConcat(a[1..], b, c);
    }
  }

  /** Removing a name that is absent changes nothing. */
  lemma {:induction false} RemoveAbsent(columns: seq<string>, c: string)
    requires c !in columns
    ensures Remove(columns, c) == columns
    decreases |columns|
  {
    if columns != [] {
      assert columns == [columns[0]] + columns[1..];
      RemoveAbsent(columns[1..], c);
    }
  }

  /** `drop(c, axis=1)`: the column goes; every other column keeps its
      values and place, and the index stays. */
  function DropColumn(t: Table, c: string): (r: Table)
    ensures WellFormed(t) ==> WellFormed(r)
    ensures c !in r.columns && c !in r.data
    ensures forall d :: d in r.columns <==> d in t.columns && d != c
    ensures forall d :: d in t.data && d != c ==> d in r.data && r.data[d] == t.data[d]
    ensures r.indexName == t.indexName && r.index == t.index
  {
    t.(columns := Remove(t.columns, c), data := t.data - {c})
  }

  /** `set_index(c)`: the column's values become the index, replacing the
      old one, and the column leaves the frame. */
  function SetIndex(t: Table, c: string): Table
    requires c in t.data
  {
    Table(Remove(t.columns, c), t.data - {c}, Some(c), t.data[c])
  }

  /** A sequence without repeated values (`Series.is_unique`). */
  predicate Unique(s: seq<int>) {
    forall i, j :: 0 <= i < j < |s| ==> s[i] != s[j]
  }

  // ---------------------------------------------------------------------
  // The migrations on values

  /** `nodeschema_migration`: a `node_id` column must be unique and
      becomes the index; without one the frame is left alone. */
  function NodeMigration(t: Table): (r: Result<Table>)
    requires WellFormed(t)
    ensures r.Err? <==> "node_id" in t.columns && !Unique(t.data["node_id"])
    ensures r.Err? ==> r.error == AssertionError("Node IDs have to be unique.")
    ensures r.Ok? ==> WellFormed(r.value) && "node_id" !in r.value.columns
    ensures r.Ok? && "node_id" in t.columns ==> r.value.indexName == Some("node_id") && r.value.index == t.data["node_id"]
    ensures "node_id" !in t.columns ==> r == Ok(t)
  {
    if "node_id" in t.columns then
      if !Unique(t.data["node_id"]) then Err(AssertionError("Node IDs have to be unique."))
      else Ok(SetIndex(t, "node_id"))
    else Ok(t)
  }

  /** `edgeschema_migration`: drop the node type columns that are present,
      then move an `edge_id` column to the index. None of the three trigger
      columns is left, every other column keeps its values, and `edge_id`,
      if present, is the index. */
  function EdgeMigration(t: Table): (r: Table)
    requires WellFormed(t)
    ensures WellFormed(r)
    ensures "from_node_type" !in r.columns && "to_node_type" !in r.columns && "edge_id" !in r.columns
    ensures forall d :: d in r.columns <==> d in t.columns && d != "from_node_type" && d != "to_node_type" && d != "edge_id"
    ensures forall d :: d in r.columns ==> r.data[d] == t.data[d]
    ensures "edge_id" in t.columns ==> r.indexName == Some("edge_id") && r.index == t.data["edge_id"]
    ensures "edge_id" !in t.columns ==> r.indexName == t.indexName && r.index == t.index
  {
    var t1 := if "from_node_type" in t.columns then DropColumn(t, "from_node_type") else t;
    var t2 := if "to_node_type" in t1.columns then DropColumn(t1, "to_node_type") else t1;
    if "edge_id" in t2.columns then SetIndex(t2, "edge_id") else t2
  }

  /** The tables whose migration drops one obsolete column. */
  datatype DropTable =
    | BasinStatic | BasinTime
    | ContinuousControlVariable | DiscreteControlVariable | PidControlStatic

  /** The column each of those migrations drops. */
  function ObsoleteColumn(k: DropTable): string {
    match k
    case BasinStatic | BasinTime => "urban_runoff"
    case ContinuousControlVariable | DiscreteControlVariable | PidControlStatic => "listen_node_type"
  }

  /** `basinstaticschema_migration` and its four siblings: drop the
      obsolete column if present, touching nothing else. */
  function DropMigration(k: DropTable, t: Table): (r: Table)
    ensures WellFormed(t) ==> WellFormed(r)
    ensures ObsoleteColumn(k) !in r.columns
    ensures forall d :: d in r.columns <==> d in t.columns && d != ObsoleteColumn(k)
    ensures forall d :: d in t.data && d != ObsoleteColumn(k) ==> d in r.data && r.data[d] == t.data[d]
    ensures r.indexName == t.indexName && r.index == t.index
  {
    if ObsoleteColumn(k) in t.columns then DropColumn(t, ObsoleteColumn(k)) else t
  }

  /** Every migration is idempotent: a second run no longer finds its
      trigger column. */
  lemma MigrationsIdempotent(k: DropTable, t: Table)
    requires WellFormed(t)
    ensures NodeMigration(t).Ok? ==> NodeMigration(NodeMigration(t).value) == NodeMigration(t)
    ensures EdgeMigration(EdgeMigration(t)) == EdgeMigration(t)
    ensures DropMigration(k, DropMigration(k, t)) == DropMigration(k, t)
  {
  }

  // ---------------------------------------------------------------------
  // The frame, changed in place

  class Frame {
    var columns: seq<string>
    var data: map<string, seq<int>>
    var indexName: Option<string>
    var index: seq<int>

    function Value(): Table
      reads this
    {
      Table(columns, data, indexName, index)
    }

    ghost predicate Valid()
      reads this
    {
      WellFormed(Value())
    }

    constructor(t: Table)
      requires WellFormed(t)
      ensures Valid() && Value() == t
    {
      columns := t.columns;
      data := t.data;
      indexName := t.indexName;
      index := t.index;
    }

    /** `drop(c, inplace=True, axis=1)`. */
    method Drop(c: string)
      requires Valid()
      modifies this
      ensures Valid() && Value() == DropColumn(old(Value()), c)
    {
      columns := Remove(columns, c);
      data := data - {c};
    }

    /** `set_index(c, inplace=True)`. */
    method SetIndexTo(c: string)
      requires Valid() && c in data
      modifies this
      ensures Valid() && Value() == SetIndex(old(Value()), c)
    {
      indexName := Some(c);
      index := data[c];
      columns := Remove(columns, c);
      data := data - {c};
    }
  }

  /** `nodeschema_migration` on a frame: the frame is changed in place and
      returned. */
  method MigrateNodes(gdf: Frame) returns (r: Result<Frame>)
    requires gdf.Valid()
    modifies gdf
    ensures gdf.Valid()
    ensures NodeMigration(old(gdf.Value())).Err? ==>
      r == Err(NodeMigration(old(gdf.Value())).error) && gdf.Value() == old(gdf.Value())
    ensures NodeMigration(old(gdf.Value())).Ok? ==> r == Ok(gdf) && gdf.Value() == NodeMigration(old(gdf.Value())).value
  {
    if "node_id" in gdf.columns {
      if !Unique(gdf.data["node_id"]) {
        return Err(AssertionError("Node IDs have to be unique."));
      }
      gdf.SetIndexTo("node_id");
    }
    return Ok(gdf);
  }

  /** `edgeschema_migration` on a frame. */
  method MigrateEdges(gdf: Frame) returns (r: Frame)
    requires gdf.Valid()
    modifies gdf
    ensures r == gdf && gdf.Valid() && gdf.Value() == EdgeMigration(old(gdf.Value()))
  {
    if "from_node_type" in gdf.columns {
      gdf.Drop("from_node_type");
    }
    if "to_node_type" in gdf.columns {
      gdf.Drop("to_node_type");
    }
    if "edge_id" in gdf.columns {
      gdf.SetIndexTo("edge_id");
    }
    return gdf;
  }

  /** The drop-only migrations on a frame. */
  method MigrateDrop(k: DropTable, df: Frame) returns (r: Frame)
    requires df.Valid()
    modifies df
    ensures r == df && df.Valid() && df.Value() == DropMigration(k, old(df.Value()))
  {
    if ObsoleteColumn(k) in df.columns {
      df.Drop(ObsoleteColumn(k));
    }
    return df;
  }
}

/** The model-filtering utility: every time table of a model is cut down
    to the rows inside the simulation period, and the number of rows
    removed is reported. Times are timestamps compared as integers; a
    missing time (`NaT`) is `None`. */
module FilterModel {
  import opened Common

  /** A row of a time table: its time and its other cells. */
  datatype Row = Row(time: Option<int>, cells: seq<string>)

  /** A table's frame: column names and rows. */
  datatype DataFrame = DataFrame(columns: seq<string>, rows: seq<Row>)

  /** The row mask: inside `[start, end]`, or without a time. */
  predicate Keep(r: Row, start: int, end: int) {
    r.time.None? || (start <= r.time.value && r.time.value <= end)
  }

  /** `df[mask]`: the rows the mask keeps, in their order. */
  function Kept(rows: seq<Row>, start: int, end: int): seq<Row> {
    if rows == [] then []
    else
      var rest := Kept(rows[..|rows| - 1], start, end);
      if Keep(rows[|rows| - 1], start, end) then rest + [rows[|rows| - 1]] else rest
  }

  /** The mask works row by row, so rows keep their order. */
  lemma {:induction false} KeptConcat(rows: seq<Row>, more: seq<Row>, start: int, end: int)
    ensures Kept(rows + more, start, end) == Kept(rows, start, end) + Kept(more, start, end)
    decreases |more|
  {
    if more == [] {
      assert rows + more == rows;
    } else {
      var init := more[..|more| - 1];
      assert (rows + more)[..|rows + more| - 1] == rows + init;
      KeptConcat(rows, init, start, end);
    }
  }

  /** The kept rows are exactly the rows inside the period or without a
      time. */
  lemma {:induction false} KeptMembers(rows: seq<Row>, start: int, end: int)
    ensures forall r :: r in Kept(rows, start, end) <==> r in rows && Keep(r, start, end)
    decreases |rows|
  {
    if rows != [] {
      var init := rows[..|rows| - 1];
      KeptMembers(init, start, end);
      assert rows == init + [rows[|rows| - 1]];
    }
  }

  /** No more rows are kept than there were, and all are kept exactly when
      the table is unchanged. */
  lemma {:induction false} KeptLength(rows: seq<Row>, start: int, end: int)
    ensures |Kept(rows, start, end)| <= |rows|
    ensures |Kept(rows, start, end)| == |rows| <==> Kept(rows, start, end) == rows
    decreases |rows|
  {
    if rows != [] {
      var init := rows[..|rows| - 1];
      KeptLength(init, start, end);
      assert rows == init + [rows[|rows| - 1]];
    }
  }

  /** Filtering the kept rows again keeps them all. */
  lemma {:induction false} KeptIdempotent(rows: seq<Row>, start: int, end: int)
    ensures Kept(Kept(rows, start, end), start, end) == Kept(rows, start, end)
    decreases |rows|
  {
    if rows != [] {
      var init := rows[..|rows| - 1];
      var last := rows[|rows| - 1];
      KeptIdempotent(init, start, end);
      if Keep(last, start, end) {
        KeptConcat(Kept(init, start, end), [last], start, end);
        assert [last][..0] == [];
      }
    }
  }

  /** Whether the loop looks at a table: it holds a frame with a `time`
      column. */
  predicate IsTimeTable(df: Option<DataFrame>) {
    df.Some? && "time" in df.value.columns
  }

  /** The rows removed from one table. */
  function Removed(df: Option<DataFrame>, start: int, end: int): nat {
    if IsTimeTable(df) then
      KeptLength(df.value.rows, start, end);
      |df.value.rows| - |Kept(df.value.rows, start, end)|
    else 0
  }

  /** What a table holds after filtering: the filtered frame when rows
      were removed, the original otherwise. */
  function Filtered(df: Option<DataFrame>, start: int, end: int): Option<DataFrame> {
    if Removed(df, start, end) > 0 then Some(df.value.(rows := Kept(df.value.rows, start, end))) else df
  }

  /** The reported total: the rows removed from every table. */
  function TotalRemoved(dfs: seq<Option<DataFrame>>, start: int, end: int): nat {
    if dfs == [] then 0 else TotalRemoved(dfs[..|dfs| - 1], start, end) + Removed(dfs[|dfs| - 1], start, end)
  }

  /** A table changes only when rows were removed, and then only its rows
      outside the period go; filtering again neither changes it nor
      counts anything. */
  lemma FilteredFacts(df: Option<DataFrame>, start: int, end: int)
    ensures Filtered(df, start, end) != df ==> Removed(df, start, end) > 0
    ensures Filtered(df, start, end).Some? ==> Filtered(df, start, end).value.columns == df.value.columns
    ensures IsTimeTable(df) ==> Filtered(df, start, end).value.rows == Kept(df.value.rows, start, end)
    ensures Removed(Filtered(df, start, end), start, end) == 0
    ensures Filtered(Filtered(df, start, end), start, end) == Filtered(df, start, end)
  {
    if IsTimeTable(df) {
      KeptLength(df.value.rows, start, end);
      KeptIdempotent(df.value.rows, start, end);
      KeptLength(Kept(df.value.rows, start, end), start, end);
    }
  }

  /** A table of the model, holding a frame or nothing. */
  class TableObject {
    var df: Option<DataFrame>

    constructor(df: Option<DataFrame>)
      ensures this.df == df
    {
      this.df := df;
    }
  }

  /** The frames the tables hold. */
  function Frames(tables: seq<TableObject>): seq<Option<DataFrame>>
    reads tables
  {
    seq(|tables|, i reads tables requires 0 <= i < |tables| => tables[i].df)
  }

  lemma TotalPrefix(dfs: seq<Option<DataFrame>>, i: nat, start: int, end: int)
    requires i < |dfs|
    ensures TotalRemoved(dfs[..i + 1], start, end) == TotalRemoved(dfs[..i], start, end) + Removed(dfs[i], start, end)
  {
    assert dfs[..i + 1][..i] == dfs[..i];
  }

  /** `filter_time_tables` over the tables of all node types, taken in order. */
  method FilterTimeTables(tables: seq<TableObject>, start: int, end: int) returns (totalRowsRemoved: nat)
    requires forall i, j :: 0 <= i < j < |tables| ==> tables[i] != tables[j]
    modifies tables
    ensures totalRowsRemoved == TotalRemoved(old(Frames(tables)), start, end)
    ensures forall i :: 0 <= i < |tables| ==> tables[i].df == Filtered(old(tables[i].df), start, end)
  {
    ghost var before := Frames(tables);
    totalRowsRemoved := 0;
    for i := 0 to |tables|
      invariant totalRowsRemoved == TotalRemoved(before[..i], start, end)
      invariant forall j :: 0 <= j < i ==> tables[j].df == Filtered(before[j], start, end)
      invariant forall j :: i <= j < |tables| ==> tables[j].df == before[j]
    {
      TotalPrefix(before, i, start, end);
      var table := tables[i];
      if table.df.Some? && "time" in table.df.value.columns {
        var originalCount := |table.df.value.rows|;
        var filteredDf := table.df.value.(rows := Kept(table.df.value.rows, start, end));
        var rowsRemoved := originalCount - |filteredDf.rows|;
        if rowsRemoved > 0 {
          totalRowsRemoved := totalRowsRemoved + rowsRemoved;
          table.df := Some(filteredDf);
        }
      }
    }
    assert before[..|tables|] == before;
  }
}

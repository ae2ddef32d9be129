/** The rule that keeps the metadata columns of a results table apart from
    its record columns. */
module ColumnPrefix {
  import opened Strings

  /** `prefix_column`: a column is given the prefix unless there are no
      record columns, it is one of them, it is `fid`, or it already
      carries the prefix. */
  function PrefixColumn(column: string, recordColumns: seq<string>, prefix: string): (r: string)
    ensures r == column || r == prefix + column
    ensures r == prefix + column && prefix != "" ==> |recordColumns| > 0 && column !in recordColumns && column != "fid"
    ensures r == column <== |recordColumns| == 0 || column in recordColumns || column == "fid" || StartsWith(column, prefix)
    ensures StartsWith(r, prefix) || r in recordColumns || r == "fid" || |recordColumns| == 0
  {
    if |recordColumns| > 0 && column !in recordColumns && column != "fid" && !StartsWith(column, prefix) then
      prefix + column
    else
      column
  }

  /** The default prefix. */
  const META_PREFIX: string := "meta_"

  /** Prefixing twice is prefixing once. */
  lemma PrefixColumnIdempotent(column: string, recordColumns: seq<string>, prefix: string)
    ensures PrefixColumn(PrefixColumn(column, recordColumns, prefix), recordColumns, prefix) ==
            PrefixColumn(column, recordColumns, prefix)
  {
    var r := PrefixColumn(column, recordColumns, prefix);
    if r != column {
      assert (prefix + column)[..|prefix|] == prefix;
    }
  }
}

/** The node table of the Python package and its two conversions between
    link connectivity (from/to node ids) and link geometry (two-vertex
    lines), plus the merged id/type listing over several node tables. */
module NodeGeometry {
  import opened Common
  import opened Topology
  import Strings
  import Sorting

  /** One row of the node table: its index label (the node id) and its point. */
  datatype NodeRow = NodeRow(id: int, point: Point)

  /** A line geometry: its vertices in order. */
  type Line = seq<Point>

  /** numpy's refusal to broadcast the to-points into the odd vertex slots. */
  const BROADCAST_MSG := "could not broadcast input array"

  /** The node table's index. */
  function Ids(t: seq<NodeRow>): (r: seq<int>)
    ensures |r| == |t| && forall i :: 0 <= i < |t| ==> r[i] == t[i].id
  {
    seq(|t|, i requires 0 <= i < |t| => t[i].id)
  }

  /** The node table's geometry column. */
  function Points(t: seq<NodeRow>): (r: seq<Point>)
    ensures |r| == |t| && forall i :: 0 <= i < |t| ==> r[i] == t[i].point
  {
    seq(|t|, i requires 0 <= i < |t| => t[i].point)
  }

  ghost predicate UniqueIds(t: seq<NodeRow>) {
    forall i, j :: 0 <= i < j < |t| ==> t[i].id != t[j].id
  }

  ghost predicate DistinctPoints(t: seq<NodeRow>) {
    forall i, j :: 0 <= i < j < |t| ==> t[i].point != t[j].point
  }

  /** The points of every row labelled `id`, in row order (`geometry.loc[id]`). */
  function Matches(t: seq<NodeRow>, id: int): (r: seq<Point>)
    ensures |r| == 0 <==> id !in Ids(t)
  {
    if |t| == 0 then []
    else (if t[0].id == id then [t[0].point] else []) + Matches(t[1..], id)
  }

  /** `geometry.loc[ids]`: the matching points of each label in turn; a
      label without a row is a KeyError. */
  function Loc(t: seq<NodeRow>, ids: seq<int>): (r: Result<seq<Point>>)
    ensures r.Err? <==> exists k :: 0 <= k < |ids| && ids[k] !in Ids(t)
    ensures r.Err? ==> r.error.KeyError?
  {
    if |ids| == 0 then Ok([])
    else if Matches(t, ids[0]) == [] then Err(KeyError(Strings.IntToString(ids[0])))
    else
      var rest :- Loc(t, ids[1..]);
      assert forall k :: 1 <= k < |ids| ==> ids[k] == ids[1..][k - 1];
      Ok(Matches(t, ids[0]) + rest)
  }

  lemma {:induction false} MatchesUnique(t: seq<NodeRow>, j: nat)
    requires UniqueIds(t) && j < |t|
    ensures Matches(t, t[j].id) == [t[j].point]
  {
    if j == 0 {
      assert t[0].id !in Ids(t[1..]) by {
        forall i | 0 <= i < |t[1..]| ensures Ids(t[1..])[i] != t[0].id {
          assert t[1..][i] == t[i + 1];
        }
      }
    } else {
      assert t[1..][j - 1] == t[j];
      MatchesUnique(t[1..], j - 1);
    }
  }

  /** With unique labels, `loc` returns exactly one point per requested id. */
  lemma {:induction false} LocUnique(t: seq<NodeRow>, ids: seq<int>)
    requires UniqueIds(t)
    requires forall k :: 0 <= k < |ids| ==> ids[k] in Ids(t)
    ensures Loc(t, ids).Ok? && |Loc(t, ids).value| == |ids|
    ensures forall k :: 0 <= k < |ids| ==>
      FirstId(t, ids[k]) < |t| && Loc(t, ids).value[k] == t[FirstId(t, ids[k])].point
  {
    if |ids| > 0 {
      assert forall k :: 1 <= k < |ids| ==> ids[k] == ids[1..][k - 1];
      LocUnique(t, ids[1..]);
      MatchesUnique(t, FirstId(t, ids[0]));
      forall k | 1 <= k < |ids|
        ensures Loc(t, ids).value[k] == t[FirstId(t, ids[k])].point
      {
        assert Loc(t, ids).value[k] == Loc(t, ids[1..]).value[k - 1];
      }
    }
  }

  /** Position of the first row labelled `id`, or `|t|`. */
  function FirstId(t: seq<NodeRow>, id: int): (i: nat)
    ensures i <= |t|
    ensures i < |t| ==> t[i].id == id
    ensures i == |t| <==> id !in Ids(t)
  {
    if |t| == 0 then 0
    else if t[0].id == id then 0
    else 1 + FirstId(t[1..], id)
  }

  /** The to-point for link i after numpy broadcasting. */
  function Broadcast(tp: seq<Point>, n: nat, i: nat): Point
    requires |tp| == n || |tp| == 1
    requires i < n
  {
    if |tp| == n then tp[i] else tp[0]
  }

  /** The link geometry `geometry_from_connectivity` returns, link by link. */
  function EdgeGeometry(t: seq<NodeRow>, fromId: seq<int>, toId: seq<int>): Result<seq<Line>> {
    var fp :- Loc(t, fromId);
    var tp :- Loc(t, toId);
    if |tp| != |fp| && |tp| != 1 then Err(ValueError(BROADCAST_MSG))
    else Ok(seq(|fp|, i requires 0 <= i < |fp| => [fp[i], Broadcast(tp, |fp|, i)]))
  }

  /** A from-id without a row is reported first. */
  lemma EdgeGeometryMissingFrom(t: seq<NodeRow>, fromId: seq<int>, toId: seq<int>)
    requires exists k :: 0 <= k < |fromId| && fromId[k] !in Ids(t)
    ensures EdgeGeometry(t, fromId, toId) == Err(Loc(t, fromId).error)
    ensures EdgeGeometry(t, fromId, toId).error.KeyError?
  {
  }

  /** With every from-id present, a to-id without a row is a KeyError. */
  lemma EdgeGeometryMissingTo(t: seq<NodeRow>, fromId: seq<int>, toId: seq<int>)
    requires forall k :: 0 <= k < |fromId| ==> fromId[k] in Ids(t)
    requires exists k :: 0 <= k < |toId| && toId[k] !in Ids(t)
    ensures EdgeGeometry(t, fromId, toId) == Err(Loc(t, toId).error)
    ensures EdgeGeometry(t, fromId, toId).error.KeyError?
  {
  }

  /** With unique labels and as many from-ids as to-ids, all present, line i
      runs from the point of `fromId[i]` to the point of `toId[i]`. */
  lemma EdgeGeometryOk(t: seq<NodeRow>, fromId: seq<int>, toId: seq<int>)
    requires UniqueIds(t)
    requires forall k :: 0 <= k < |fromId| ==> fromId[k] in Ids(t)
    requires forall k :: 0 <= k < |toId| ==> toId[k] in Ids(t)
    requires |fromId| == |toId|
    ensures EdgeGeometry(t, fromId, toId).Ok?
    ensures |EdgeGeometry(t, fromId, toId).value| == |fromId|
    ensures forall i :: 0 <= i < |fromId| ==>
      FirstId(t, fromId[i]) < |t| && FirstId(t, toId[i]) < |t| &&
      EdgeGeometry(t, fromId, toId).value[i] == [t[FirstId(t, fromId[i])].point, t[FirstId(t, toId[i])].point]
  {
    LocUnique(t, fromId);
    LocUnique(t, toId);
  }

  /** The coordinate index shapely receives: vertex k belongs to line k / 2. */
  ghost predicate HalfIndexed(idx: seq<nat>) {
    forall k :: 0 <= k < |idx| ==> idx[k] == k / 2
  }

  /** `np.repeat(np.arange(n), 2)`. */
  function Indices(n: nat): (idx: seq<nat>)
    ensures |idx| == 2 * n && HalfIndexed(idx)
  {
    seq(2 * n, k requires 0 <= k < 2 * n => k / 2)
  }

  /** Number of lines shapely builds: one more than the largest index. */
  function LineCount(idx: seq<nat>): nat {
    if |idx| == 0 then 0
    else
      var before := LineCount(idx[..|idx| - 1]);
      if idx[|idx| - 1] + 1 > before then idx[|idx| - 1] + 1 else before
  }

  /** The vertices of line `i`: those from position `k` on whose index is `i`. */
  function GroupFrom(coords: seq<Point>, idx: seq<nat>, i: nat, k: nat): seq<Point>
    requires |coords| == |idx|
    decreases |coords| - k
  {
    if k >= |coords| then []
    else (if idx[k] == i then [coords[k]] else []) + GroupFrom(coords, idx, i, k + 1)
  }

  /** `shapely.linestrings(coords, indices)`: line i gathers, in order, the
      coordinates whose index is i. */
  function Linestrings(coords: seq<Point>, idx: seq<nat>): seq<Line>
    requires |coords| == |idx|
  {
    seq(LineCount(idx), i requires 0 <= i < LineCount(idx) => GroupFrom(coords, idx, i, 0))
  }

  lemma {:induction false} HalfIndexedCount(idx: seq<nat>)
    requires HalfIndexed(idx)
    ensures LineCount(idx) == (|idx| + 1) / 2
  {
    if |idx| > 0 {
      HalfIndexedCount(idx[..|idx| - 1]);
    }
  }

  lemma {:induction false} GroupAfter(coords: seq<Point>, idx: seq<nat>, i: nat, k: nat)
    requires |coords| == |idx| && HalfIndexed(idx) && k > 2 * i + 1
    ensures GroupFrom(coords, idx, i, k) == []
    decreases |coords| - k
  {
    if k < |coords| {
      GroupAfter(coords, idx, i, k + 1);
    }
  }

  lemma {:induction false} GroupPair(coords: seq<Point>, idx: seq<nat>, i: nat, k: nat)
    requires |coords| == |idx| && HalfIndexed(idx) && 2 * i + 1 < |coords| && k <= 2 * i
    ensures GroupFrom(coords, idx, i, k) == [coords[2 * i], coords[2 * i + 1]]
    decreases 2 * i - k
  {
    if k < 2 * i {
      GroupPair(coords, idx, i, k + 1);
    } else {
      GroupAfter(coords, idx, i, k + 2);
    }
  }

  /** With every vertex index repeated twice, shapely cuts the vertices into
      consecutive two-vertex lines. */
  lemma LinestringsPairs(coords: seq<Point>, n: nat)
    requires |coords| == 2 * n
    ensures |Linestrings(coords, Indices(n))| == n
    ensures forall i :: 0 <= i < n ==> Linestrings(coords, Indices(n))[i] == [coords[2 * i], coords[2 * i + 1]]
  {
    HalfIndexedCount(Indices(n));
    forall i | 0 <= i < n ensures Linestrings(coords, Indices(n))[i] == [coords[2 * i], coords[2 * i + 1]] {
      GroupPair(coords, Indices(n), i, 0);
    }
  }

  /** The vertex buffer: from-points at the even slots, (broadcast)
      to-points at the odd slots. */
  method FillVertices(fp: seq<Point>, tp: seq<Point>) returns (vs: seq<Point>)
    requires |tp| == |fp| || |tp| == 1
    ensures |vs| == 2 * |fp|
    ensures forall i :: 0 <= i < |fp| ==> vs[2 * i] == fp[i] && vs[2 * i + 1] == Broadcast(tp, |fp|, i)
  {
    var n := |fp|;
    var vertices := new Point[2 * n];
    for i := 0 to n
      invariant forall j :: 0 <= j < i ==> vertices[2 * j] == fp[j]
    {
      vertices[2 * i] := fp[i];
    }
    for i := 0 to n
      invariant forall j :: 0 <= j < n ==> vertices[2 * j] == fp[j]
      invariant forall j :: 0 <= j < i ==> vertices[2 * j + 1] == Broadcast(tp, n, j)
    {
      vertices[2 * i + 1] := if |tp| == n then tp[i] else tp[0];
    }
    vs := vertices[..];
  }

  /** `geometry_from_connectivity`: look the points up, fill the vertex
      buffer and cut it into lines. */
  method GeometryFromConnectivity(t: seq<NodeRow>, fromId: seq<int>, toId: seq<int>) returns (r: Result<seq<Line>>)
    ensures r == EdgeGeometry(t, fromId, toId)
  {
    var fp := Loc(t, fromId);
    if fp.Err? {
      return Err(fp.error);
    }
    var tp := Loc(t, toId);
    if tp.Err? {
      return Err(tp.error);
    }
    var n := |fp.value|;
    if |tp.value| != n && |tp.value| != 1 {
      return Err(ValueError(BROADCAST_MSG));
    }
    var vs := FillVertices(fp.value, tp.value);
    LinestringsPairs(vs, n);
    var lines := Linestrings(vs, Indices(n));
    assert lines == EdgeGeometry(t, fromId, toId).value by {
      forall i | 0 <= i < n ensures lines[i] == EdgeGeometry(t, fromId, toId).value[i] {
        assert lines[i] == [vs[2 * i], vs[2 * i + 1]];
      }
    }
    r := Ok(lines);
  }

  /** All vertices of all lines, in order (`shapely.get_coordinates`). */
  function Flatten(lines: seq<Line>): seq<Point> {
    if |lines| == 0 then [] else Flatten(lines[..|lines| - 1]) + lines[|lines| - 1]
  }

  /** `connectivity_from_geometry`: the shared matching routine over the
      node table's labels and points. */
  function ConnectivityFromGeometry(t: seq<NodeRow>, lines: seq<Line>): Result<(seq<int>, seq<int>)> {
    DeriveConnectivity(Ids(t), Points(t), Flatten(lines), SNAP_LINES_MSG)
  }

  ghost predicate TwoVertexLines(lines: seq<Line>) {
    forall i :: 0 <= i < |lines| ==> |lines[i]| == 2
  }

  lemma {:induction false} FlattenPairs(lines: seq<Line>)
    requires TwoVertexLines(lines)
    ensures |Flatten(lines)| == 2 * |lines|
    ensures forall i :: 0 <= i < |lines| ==>
      Flatten(lines)[2 * i] == lines[i][0] && Flatten(lines)[2 * i + 1] == lines[i][1]
  {
    if |lines| > 0 {
      var init := lines[..|lines| - 1];
      FlattenPairs(init);
      forall i | 0 <= i < |lines|
        ensures Flatten(lines)[2 * i] == lines[i][0] && Flatten(lines)[2 * i + 1] == lines[i][1]
      {
        if i < |lines| - 1 {
          assert init[i] == lines[i];
        }
      }
    }
  }

  /** Two-vertex lines that start and end on nodes give one link per line,
      from the first node at its first vertex to the first node at its last. */
  lemma ConnectivityPairs(t: seq<NodeRow>, lines: seq<Line>)
    requires TwoVertexLines(lines)
    requires Snapped(Points(t), Flatten(lines))
    ensures ConnectivityFromGeometry(t, lines).Ok?
    ensures |ConnectivityFromGeometry(t, lines).value.0| == |lines| && |ConnectivityFromGeometry(t, lines).value.1| == |lines|
    ensures forall i :: 0 <= i < |lines| ==>
      FirstIndex(Points(t), lines[i][0]) < |t| && FirstIndex(Points(t), lines[i][1]) < |t| &&
      ConnectivityFromGeometry(t, lines).value.0[i] == t[FirstIndex(Points(t), lines[i][0])].id &&
      ConnectivityFromGeometry(t, lines).value.1[i] == t[FirstIndex(Points(t), lines[i][1])].id
  {
    FlattenPairs(lines);
    DerivePairs(Ids(t), Points(t), Flatten(lines), SNAP_LINES_MSG);
  }

  /** On distinct node coordinates an occupied point names its own row. */
  lemma DistinctFirst(t: seq<NodeRow>, j: nat)
    requires DistinctPoints(t) && j < |t|
    ensures t[j].point in Points(t) && FirstIndex(Points(t), t[j].point) == j
  {
    assert Points(t)[j] == t[j].point;
    FirstIndexFacts(Points(t), t[j].point);
  }

  /** Round trip, connectivity first: with unique labels and distinct node
      coordinates, deriving connectivity from the constructed geometry gives
      back the from and to ids. */
  lemma ConnectivityGeometryRoundTrip(t: seq<NodeRow>, fromId: seq<int>, toId: seq<int>)
    requires UniqueIds(t) && DistinctPoints(t)
    requires forall k :: 0 <= k < |fromId| ==> fromId[k] in Ids(t)
    requires forall k :: 0 <= k < |toId| ==> toId[k] in Ids(t)
    requires |fromId| == |toId|
    ensures EdgeGeometry(t, fromId, toId).Ok?
    ensures ConnectivityFromGeometry(t, EdgeGeometry(t, fromId, toId).value) == Ok((fromId, toId))
  {
    EdgeGeometryOk(t, fromId, toId);
    var lines := EdgeGeometry(t, fromId, toId).value;
    forall i | 0 <= i < |lines|
      ensures |lines[i]| == 2 && lines[i][0] in Points(t) && lines[i][1] in Points(t)
      ensures FirstIndex(Points(t), lines[i][0]) == FirstId(t, fromId[i])
      ensures FirstIndex(Points(t), lines[i][1]) == FirstId(t, toId[i])
    {
      DistinctFirst(t, FirstId(t, fromId[i]));
      DistinctFirst(t, FirstId(t, toId[i]));
    }
    LinesSnapped(t, lines);
    ConnectivityPairs(t, lines);
    var r := ConnectivityFromGeometry(t, lines).value;
    assert r.0 == fromId && r.1 == toId;
  }

  /** Lines whose two vertices are node points leave no vertex unsnapped. */
  lemma LinesSnapped(t: seq<NodeRow>, lines: seq<Line>)
    requires forall i :: 0 <= i < |lines| ==> |lines[i]| == 2 && lines[i][0] in Points(t) && lines[i][1] in Points(t)
    ensures TwoVertexLines(lines) && Snapped(Points(t), Flatten(lines))
  {
    FlattenPairs(lines);
    var flat := Flatten(lines);
    forall k | 0 <= k < |flat| ensures flat[k] in Points(t) {
      assert flat[k] == lines[k / 2][k % 2];
    }
  }

  /** Round trip, geometry first: with unique labels, two-vertex lines that
      start and end on nodes are rebuilt exactly from the derived ids, even
      when several nodes share a coordinate. */
  lemma GeometryConnectivityRoundTrip(t: seq<NodeRow>, lines: seq<Line>)
    requires UniqueIds(t) && TwoVertexLines(lines)
    requires Snapped(Points(t), Flatten(lines))
    ensures ConnectivityFromGeometry(t, lines).Ok?
    ensures EdgeGeometry(t, ConnectivityFromGeometry(t, lines).value.0, ConnectivityFromGeometry(t, lines).value.1) == Ok(lines)
  {
    ConnectivityPairs(t, lines);
    var c := ConnectivityFromGeometry(t, lines).value;
    RebuildLines(t, lines, c.0, c.1);
  }

  /** Ids naming, for each line, the first node at each of its two vertices
      rebuild exactly those lines. */
  lemma RebuildLines(t: seq<NodeRow>, lines: seq<Line>, f: seq<int>, g: seq<int>)
    requires UniqueIds(t) && TwoVertexLines(lines)
    requires |f| == |lines| && |g| == |lines|
    requires forall i :: 0 <= i < |lines| ==>
      FirstIndex(Points(t), lines[i][0]) < |t| && FirstIndex(Points(t), lines[i][1]) < |t| &&
      f[i] == t[FirstIndex(Points(t), lines[i][0])].id && g[i] == t[FirstIndex(Points(t), lines[i][1])].id
    ensures EdgeGeometry(t, f, g) == Ok(lines)
  {
    RebuildIds(t, lines, f, g);
    EdgeGeometryOk(t, f, g);
    var e := EdgeGeometry(t, f, g).value;
    forall i | 0 <= i < |lines| ensures e[i] == lines[i] {
      var x := t[FirstId(t, f[i])].point;
      var y := t[FirstId(t, g[i])].point;
      assert e[i] == [x, y];
      PairOf(lines[i], x, y);
    }
    assert e == lines;
  }

  /** Every derived label is present and looks up a row at the matching vertex. */
  lemma RebuildIds(t: seq<NodeRow>, lines: seq<Line>, f: seq<int>, g: seq<int>)
    requires UniqueIds(t) && TwoVertexLines(lines)
    requires |f| == |lines| && |g| == |lines|
    requires forall i :: 0 <= i < |lines| ==>
      FirstIndex(Points(t), lines[i][0]) < |t| && FirstIndex(Points(t), lines[i][1]) < |t| &&
      f[i] == t[FirstIndex(Points(t), lines[i][0])].id && g[i] == t[FirstIndex(Points(t), lines[i][1])].id
    ensures forall k :: 0 <= k < |f| ==> f[k] in Ids(t)
    ensures forall k :: 0 <= k < |g| ==> g[k] in Ids(t)
    ensures forall i :: 0 <= i < |lines| ==> FirstId(t, f[i]) < |t| && t[FirstId(t, f[i])].point == lines[i][0]
    ensures forall i :: 0 <= i < |lines| ==> FirstId(t, g[i]) < |t| && t[FirstId(t, g[i])].point == lines[i][1]
  {
    forall i | 0 <= i < |lines|
      ensures f[i] in Ids(t) && g[i] in Ids(t)
      ensures FirstId(t, f[i]) < |t| && FirstId(t, g[i]) < |t|
      ensures t[FirstId(t, f[i])].point == lines[i][0] && t[FirstId(t, g[i])].point == lines[i][1]
    {
      RebuildVertex(t, lines[i][0], f[i]);
      RebuildVertex(t, lines[i][1], g[i]);
    }
  }

  lemma PairOf(line: Line, x: Point, y: Point)
    requires |line| == 2 && line[0] == x && line[1] == y
    ensures line == [x, y]
  {
  }

  /** The label of the first node at a point looks up a row at that point. */
  lemma RebuildVertex(t: seq<NodeRow>, p: Point, a: int)
    requires UniqueIds(t)
    requires FirstIndex(Points(t), p) < |t| && a == t[FirstIndex(Points(t), p)].id
    ensures a in Ids(t) && FirstId(t, a) < |t| && t[FirstId(t, a)].point == p
  {
    var i := FirstIndex(Points(t), p);
    UniqueFirst(t, i);
    assert t[i].point == Points(t)[i];
  }

  /** With unique labels a row's own label names that row. */
  lemma UniqueFirst(t: seq<NodeRow>, j: nat)
    requires UniqueIds(t) && j < |t|
    ensures t[j].id in Ids(t) && FirstId(t, t[j].id) == j
  {
    assert Ids(t)[j] == t[j].id;
  }

  /** One node table's `node_ids_and_types()`: its ids and its types. */
  datatype IdsTypes = IdsTypes(ids: seq<int>, types: seq<string>)

  /** pandas' refusal to build a frame from columns of different lengths. */
  const LENGTH_MSG := "All arrays must be of the same length"

  ghost predicate Mismatched(nodes: seq<Option<IdsTypes>>) {
    exists k :: 0 <= k < |nodes| && nodes[k].Some? && |nodes[k].value.ids| != |nodes[k].value.types|
  }

  /** Some present table lists `y` among its ids. */
  ghost predicate Listed(nodes: seq<Option<IdsTypes>>, y: int) {
    exists k :: 0 <= k < |nodes| && nodes[k].Some? && y in nodes[k].value.ids
  }

  function Rows(it: IdsTypes): seq<(int, string)>
    requires |it.ids| == |it.types|
  {
    seq(|it.ids|, i requires 0 <= i < |it.ids| => (it.ids[i], it.types[i]))
  }

  function RowIds(rows: seq<(int, string)>): (r: seq<int>)
    ensures |r| == |rows| && forall j :: 0 <= j < |rows| ==> r[j] == rows[j].0
  {
    seq(|rows|, j requires 0 <= j < |rows| => rows[j].0)
  }

  /** The `(node_id, node_type)` frame after appending every present table
      in turn; absent tables are skipped. */
  function Stacked(nodes: seq<Option<IdsTypes>>): Result<seq<(int, string)>> {
    if |nodes| == 0 then Ok([])
    else
      var acc :- Stacked(nodes[..|nodes| - 1]);
      match nodes[|nodes| - 1]
      case None => Ok(acc)
      case Some(it) => if |it.ids| != |it.types| then Err(ValueError(LENGTH_MSG)) else Ok(acc + Rows(it))
  }

  /** Stacking fails exactly on a present table with columns of different
      lengths; otherwise its ids are those of the present tables. */
  lemma {:induction false} StackedFacts(nodes: seq<Option<IdsTypes>>)
    ensures Stacked(nodes).Err? <==> Mismatched(nodes)
    ensures Stacked(nodes).Err? ==> Stacked(nodes) == Err(ValueError(LENGTH_MSG))
    ensures Stacked(nodes).Ok? ==> forall y :: y in RowIds(Stacked(nodes).value) <==> Listed(nodes, y)
  {
    if |nodes| > 0 {
      var init := nodes[..|nodes| - 1];
      var last := nodes[|nodes| - 1];
      StackedFacts(init);
      assert forall k :: 0 <= k < |init| ==> init[k] == nodes[k];
      if Stacked(init).Ok? && last.Some? && |last.value.ids| == |last.value.types| {
        var acc := Stacked(init).value;
        assert Stacked(nodes).value == acc + Rows(last.value);
        assert RowIds(acc + Rows(last.value)) == RowIds(acc) + last.value.ids;
        forall y ensures Listed(nodes, y) <==> Listed(init, y) || y in last.value.ids {
          if Listed(nodes, y) {
            var k :| 0 <= k < |nodes| && nodes[k].Some? && y in nodes[k].value.ids;
            if k < |init| {
              assert Listed(init, y);
            }
          }
          if Listed(init, y) {
            var k :| 0 <= k < |init| && init[k].Some? && y in init[k].value.ids;
            assert nodes[k] == init[k];
          }
        }
      } else if Stacked(init).Ok? && last.None? {
        forall y ensures Listed(nodes, y) ==> Listed(init, y) {
          if Listed(nodes, y) {
            var k :| 0 <= k < |nodes| && nodes[k].Some? && y in nodes[k].value.ids;
            assert k < |init|;
          }
        }
      }
    }
  }

  lemma {:induction false} StackedErr(nodes: seq<Option<IdsTypes>>, k: nat)
    requires k <= |nodes| && Stacked(nodes[..k]).Err?
    ensures Stacked(nodes) == Stacked(nodes[..k])
    decreases |nodes| - k
  {
    if k < |nodes| {
      assert nodes[..k + 1][..k] == nodes[..k];
      assert Stacked(nodes[..k + 1]) == Stacked(nodes[..k]);
      StackedErr(nodes, k + 1);
    } else {
      assert nodes[..k] == nodes;
    }
  }

  /** Position of the first row carrying `id`, or `|rows|`. */
  function FirstRow(rows: seq<(int, string)>, id: int): (j: nat)
    ensures j <= |rows|
    ensures j < |rows| ==> rows[j].0 == id
    ensures forall i :: 0 <= i < j ==> rows[i].0 != id
  {
    if |rows| == 0 then 0
    else if rows[0].0 == id then 0
    else 1 + FirstRow(rows[1..], id)
  }

  /** `Node.node_ids_and_types`: append the present tables, keep the first
      row of each node id, sort by node id and split the columns. */
  method NodeIdsAndTypes(nodes: seq<Option<IdsTypes>>) returns (r: Result<(seq<int>, seq<string>)>)
    ensures r.Err? <==> Mismatched(nodes)
    ensures r.Err? ==> r.error == ValueError(LENGTH_MSG)
    ensures r.Ok? ==> Sorting.Increasing(r.value.0) && |r.value.1| == |r.value.0|
    ensures r.Ok? ==> forall y :: y in r.value.0 <==> Listed(nodes, y)
    ensures r.Ok? ==> Stacked(nodes).Ok? && forall i :: 0 <= i < |r.value.0| ==>
      FirstRow(Stacked(nodes).value, r.value.0[i]) < |Stacked(nodes).value| &&
      r.value.1[i] == Stacked(nodes).value[FirstRow(Stacked(nodes).value, r.value.0[i])].1
  {
    StackedFacts(nodes);
    var rows: seq<(int, string)> := [];
    for k := 0 to |nodes|
      invariant Stacked(nodes[..k]) == Ok(rows)
    {
      assert nodes[..k + 1][..k] == nodes[..k];
      match nodes[k]
      case None =>
      case Some(it) =>
        if |it.ids| != |it.types| {
          StackedErr(nodes, k + 1);
          return Err(ValueError(LENGTH_MSG));
        }
        rows := rows + Rows(it);
    }
    assert nodes[..|nodes|] == nodes;
    var ids := Sorting.SortUnique(RowIds(rows));
    forall i | 0 <= i < |ids| ensures FirstRow(rows, ids[i]) < |rows| {
      assert ids[i] in ids;
      var j :| 0 <= j < |rows| && RowIds(rows)[j] == ids[i];
    }
    var types := seq(|ids|, i requires 0 <= i < |ids| => rows[FirstRow(rows, ids[i])].1);
    r := Ok((ids, types));
  }
}

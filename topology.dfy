/** Matching line vertices to node coordinates.

    The same routine appears three times in the repository (the Python
    package's node table, and both QGIS plugins): the node points and the
    vertex points are stacked, every row is mapped to the first row holding
    the same coordinate, and each vertex must land on a node row. */
module Topology {
  import opened Common

  /** A coordinate pair; coordinates are only ever compared for equality. */
  datatype Point = Point(x: real, y: real)

  const SNAP_LINES_MSG := "Edge lines contain coordinates that are not in the node layer. Please ensure all edges are snapped to nodes exactly."
  const SNAP_LAYER_MSG := "Edge layer contains coordinates that are not in the node layer. Please ensure all edges are snapped to nodes exactly."
  /** numpy's refusal to reshape an odd number of vertices into pairs. */
  const RESHAPE_MSG := "cannot reshape array into shape (-1, 2)"

  /** Position of the first point equal to `p`, or `|ps|` when there is none. */
  function FirstIndex(ps: seq<Point>, p: Point): (i: nat)
    ensures i <= |ps|
    ensures i < |ps| ==> ps[i] == p
  {
    FirstFrom(ps, p, 0)
  }

  /** Position of the first point equal to `p` at or after position `i`. */
  function FirstFrom(ps: seq<Point>, p: Point, i: nat): (r: nat)
    requires i <= |ps|
    ensures i <= r <= |ps|
    ensures r < |ps| ==> ps[r] == p
    decreases |ps| - i
  {
    if i == |ps| then i
    else if ps[i] == p then i
    else FirstFrom(ps, p, i + 1)
  }

  lemma {:induction false} FirstFromFacts(ps: seq<Point>, p: Point, i: nat)
    requires i <= |ps|
    ensures forall j :: i <= j < FirstFrom(ps, p, i) ==> ps[j] != p
    ensures FirstFrom(ps, p, i) == |ps| <==> forall j :: i <= j < |ps| ==> ps[j] != p
    decreases |ps| - i
  {
    if i < |ps| && ps[i] != p {
      FirstFromFacts(ps, p, i + 1);
    }
  }

  /** No earlier point equals `p`, and the position is past the end exactly
      when `p` does not occur. */
  lemma FirstIndexFacts(ps: seq<Point>, p: Point)
    ensures forall j :: 0 <= j < FirstIndex(ps, p) ==> ps[j] != p
    ensures FirstIndex(ps, p) == |ps| <==> p !in ps
  {
    FirstFromFacts(ps, p, 0);
  }

  /** Searching the second part of a concatenation from its start. */
  lemma {:induction false} FirstFromShift(a: seq<Point>, b: seq<Point>, p: Point, j: nat)
    requires j <= |b|
    ensures FirstFrom(a + b, p, |a| + j) == |a| + FirstFrom(b, p, j)
    decreases |b| - j
  {
    if j < |b| {
      assert (a + b)[|a| + j] == b[j];
      if b[j] != p {
        FirstFromShift(a, b, p, j + 1);
      }
    }
  }

  lemma {:induction false} FirstFromAppend(a: seq<Point>, b: seq<Point>, p: Point, i: nat)
    requires i <= |a|
    ensures FirstFrom(a + b, p, i) == if FirstFrom(a, p, i) < |a| then FirstFrom(a, p, i) else |a| + FirstFrom(b, p, 0)
    decreases |a| - i
  {
    if i == |a| {
      FirstFromShift(a, b, p, 0);
    } else {
      assert (a + b)[i] == a[i];
      if a[i] != p {
        FirstFromAppend(a, b, p, i + 1);
      }
    }
  }

  lemma FirstIndexAppend(a: seq<Point>, b: seq<Point>, p: Point)
    ensures FirstIndex(a + b, p) == if p in a then FirstIndex(a, p) else |a| + FirstIndex(b, p)
  {
    FirstFromAppend(a, b, p, 0);
    FirstIndexFacts(a, p);
  }

  /** `index[inverse]` of a row-wise `np.unique`: for every row, the
      position of the first row with the same coordinate. */
  function UniquesIndex(xy: seq<Point>): (u: seq<nat>)
    ensures |u| == |xy|
  {
    FirstIndices(xy, |xy|)
  }

  /** The first-row positions of the first `m` rows. */
  function FirstIndices(xy: seq<Point>, m: nat): (u: seq<nat>)
    requires m <= |xy|
    ensures |u| == m
  {
    if m == 0 then [] else FirstIndices(xy, m - 1) + [FirstIndex(xy, xy[m - 1])]
  }

  lemma {:induction false} FirstIndicesAt(xy: seq<Point>, m: nat)
    requires m <= |xy|
    ensures forall k :: 0 <= k < m ==> FirstIndices(xy, m)[k] == FirstIndex(xy, xy[k])
  {
    if m > 0 {
      FirstIndicesAt(xy, m - 1);
    }
  }

  /** Row k of the stacked array resolves to the first row with its coordinate. */
  lemma UniquesAt(xy: seq<Point>)
    ensures forall k :: 0 <= k < |xy| ==> UniquesIndex(xy)[k] == FirstIndex(xy, xy[k])
  {
    FirstIndicesAt(xy, |xy|);
  }

  /** The node part of the stacked first-index array points into the node rows only. */
  lemma NodeUniquesBelow(nodeXy: seq<Point>, edgeXy: seq<Point>, u: seq<nat>)
    requires u == UniquesIndex(nodeXy + edgeXy)
    ensures forall k :: 0 <= k < |nodeXy| ==> u[k] == FirstIndex(nodeXy, nodeXy[k]) < |nodeXy|
  {
    UniquesAt(nodeXy + edgeXy);
    forall k | 0 <= k < |nodeXy|
      ensures u[k] == FirstIndex(nodeXy, nodeXy[k]) < |nodeXy|
    {
      assert (nodeXy + edgeXy)[k] == nodeXy[k];
      FirstIndexAppend(nodeXy, edgeXy, nodeXy[k]);
      FirstIndexFacts(nodeXy, nodeXy[k]);
    }
  }

  /** A vertex passes the `isin` test exactly when it lies on a node, and
      then it is resolved to the first node with its coordinate. */
  lemma EdgeUniques(nodeXy: seq<Point>, edgeXy: seq<Point>, u: seq<nat>, k: nat)
    requires u == UniquesIndex(nodeXy + edgeXy) && k < |edgeXy|
    ensures u[|nodeXy| + k] in u[..|nodeXy|] <==> edgeXy[k] in nodeXy
    ensures edgeXy[k] in nodeXy ==> u[|nodeXy| + k] == FirstIndex(nodeXy, edgeXy[k]) < |nodeXy|
  {
    var n := |nodeXy|;
    var p := edgeXy[k];
    var x := u[n + k];
    NodePrefixBelow(nodeXy, edgeXy, u);
    EdgeResolved(nodeXy, edgeXy, u, k);
    if p in nodeXy {
      NodeFixed(nodeXy, edgeXy, u, p);
    }
    IsinCases(u[..n], x, p in nodeXy);
  }

  lemma NodePrefixBelow(nodeXy: seq<Point>, edgeXy: seq<Point>, u: seq<nat>)
    requires u == UniquesIndex(nodeXy + edgeXy)
    ensures |u[..|nodeXy|]| == |nodeXy|
    ensures forall m :: 0 <= m < |nodeXy| ==> u[..|nodeXy|][m] < |nodeXy|
  {
    NodeUniquesBelow(nodeXy, edgeXy, u);
  }

  /** Vertex row k resolves to the first node at its point, or past the nodes. */
  lemma EdgeResolved(nodeXy: seq<Point>, edgeXy: seq<Point>, u: seq<nat>, k: nat)
    requires u == UniquesIndex(nodeXy + edgeXy) && k < |edgeXy|
    ensures u[|nodeXy| + k] == if edgeXy[k] in nodeXy then FirstIndex(nodeXy, edgeXy[k]) else |nodeXy| + FirstIndex(edgeXy, edgeXy[k])
    ensures edgeXy[k] in nodeXy ==> FirstIndex(nodeXy, edgeXy[k]) < |nodeXy| && nodeXy[FirstIndex(nodeXy, edgeXy[k])] == edgeXy[k]
  {
    assert (nodeXy + edgeXy)[|nodeXy| + k] == edgeXy[k];
    UniquesAt(nodeXy + edgeXy);
    FirstIndexAppend(nodeXy, edgeXy, edgeXy[k]);
    FirstIndexFacts(nodeXy, edgeXy[k]);
  }

  /** The first node at a point is its own first-index entry. */
  lemma NodeFixed(nodeXy: seq<Point>, edgeXy: seq<Point>, u: seq<nat>, p: Point)
    requires u == UniquesIndex(nodeXy + edgeXy) && p in nodeXy
    ensures FirstIndex(nodeXy, p) < |nodeXy|
    ensures u[..|nodeXy|][FirstIndex(nodeXy, p)] == FirstIndex(nodeXy, p)
  {
    FirstIndexFacts(nodeXy, p);
    NodeUniquesBelow(nodeXy, edgeXy, u);
  }

  /** In a prefix of positions that all point into the prefix, a fixed point
      is present and a position past the prefix is absent. */
  lemma IsinCases(pre: seq<nat>, x: nat, b: bool)
    requires forall m :: 0 <= m < |pre| ==> pre[m] < |pre|
    requires b ==> x < |pre| && pre[x] == x
    requires !b ==> x >= |pre|
    ensures x in pre <==> b
  {
  }

  /** Every vertex lies on some node. */
  ghost predicate Snapped(nodeXy: seq<Point>, edgeXy: seq<Point>) {
    forall k :: 0 <= k < |edgeXy| ==> edgeXy[k] in nodeXy
  }

  /** `np.isin(ids, pool).all()`. */
  predicate AllIn(ids: seq<nat>, pool: seq<nat>) {
    |ids| == 0 || (AllIn(ids[..|ids| - 1], pool) && ids[|ids| - 1] in pool)
  }

  lemma {:induction false} AllInIff(ids: seq<nat>, pool: seq<nat>)
    ensures AllIn(ids, pool) <==> forall k :: 0 <= k < |ids| ==> ids[k] in pool
  {
    if |ids| > 0 {
      var init := ids[..|ids| - 1];
      AllInIff(init, pool);
      assert forall k :: 0 <= k < |init| ==> init[k] == ids[k];
    }
  }

  /** Vertices that passed the `isin` test point into the node rows. */
  lemma ResolvedBelow(nodeXy: seq<Point>, edgeXy: seq<Point>, u: seq<nat>)
    requires u == UniquesIndex(nodeXy + edgeXy)
    ensures AllIn(u[|nodeXy|..], u[..|nodeXy|]) ==> forall k :: 0 <= k < |edgeXy| ==> u[|nodeXy|..][k] < |nodeXy|
  {
    var n := |nodeXy|;
    NodeUniquesBelow(nodeXy, edgeXy, u);
    AllInIff(u[n..], u[..n]);
    if AllIn(u[n..], u[..n]) {
      forall k | 0 <= k < |edgeXy| ensures u[n..][k] < n {
        assert u[n..][k] in u[..n];
        var m :| 0 <= m < n && u[..n][m] == u[n..][k];
        assert u[..n][m] == u[m];
      }
    }
  }

  /** The shared `derive_connectivity` / `connectivity_from_geometry` core:
      stack, resolve every row to its first coincident row, demand that each
      vertex resolves into the node rows, reshape the vertices into pairs and
      translate positions into node ids.  `msg` is the variant's error text. */
  function DeriveConnectivity(nodeIndex: seq<int>, nodeXy: seq<Point>, edgeXy: seq<Point>, msg: string)
    : Result<(seq<int>, seq<int>)>
    requires |nodeIndex| == |nodeXy|
  {
    var u := UniquesIndex(nodeXy + edgeXy);
    var n := |nodeXy|;
    var nodeIds := u[..n];
    var edgeIds := u[n..];
    if !AllIn(edgeIds, nodeIds) then Err(ValueError(msg))
    else if |edgeIds| % 2 != 0 then Err(ValueError(RESHAPE_MSG))
    else
      ResolvedBelow(nodeXy, edgeXy, u);
      var m := |edgeIds| / 2;
      Ok((seq(m, i requires 0 <= i < m => nodeIndex[edgeIds[2 * i]]),
          seq(m, i requires 0 <= i < m => nodeIndex[edgeIds[2 * i + 1]])))
  }

  /** The `isin` test on the stacked first-index array, vertex by vertex. */
  lemma EdgeIdsFacts(nodeXy: seq<Point>, edgeXy: seq<Point>, u: seq<nat>)
    requires u == UniquesIndex(nodeXy + edgeXy)
    ensures forall k :: 0 <= k < |edgeXy| ==> (u[|nodeXy|..][k] in u[..|nodeXy|] <==> edgeXy[k] in nodeXy)
    ensures forall k :: 0 <= k < |edgeXy| && edgeXy[k] in nodeXy ==>
      u[|nodeXy|..][k] == FirstIndex(nodeXy, edgeXy[k]) < |nodeXy|
  {
    var n := |nodeXy|;
    forall k | 0 <= k < |edgeXy|
      ensures (u[n..][k] in u[..n] <==> edgeXy[k] in nodeXy)
      ensures edgeXy[k] in nodeXy ==> u[n..][k] == FirstIndex(nodeXy, edgeXy[k]) < n
    {
      EdgeUniques(nodeXy, edgeXy, u, k);
      assert u[n..][k] == u[n + k];
    }
  }

  /** A vertex off every node is reported with the variant's message. */
  lemma DeriveUnsnapped(nodeIndex: seq<int>, nodeXy: seq<Point>, edgeXy: seq<Point>, msg: string)
    requires |nodeIndex| == |nodeXy|
    ensures !Snapped(nodeXy, edgeXy) ==> DeriveConnectivity(nodeIndex, nodeXy, edgeXy, msg) == Err(ValueError(msg))
  {
    var u := UniquesIndex(nodeXy + edgeXy);
    EdgeIdsFacts(nodeXy, edgeXy, u);
    var n := |nodeXy|;
    AllInIff(u[n..], u[..n]);
    if !Snapped(nodeXy, edgeXy) {
      var k :| 0 <= k < |edgeXy| && edgeXy[k] !in nodeXy;
      assert u[n..][k] !in u[..n];
    }
  }

  /** With every vertex on a node, an odd vertex count cannot be paired. */
  lemma DeriveOdd(nodeIndex: seq<int>, nodeXy: seq<Point>, edgeXy: seq<Point>, msg: string)
    requires |nodeIndex| == |nodeXy|
    requires Snapped(nodeXy, edgeXy) && |edgeXy| % 2 != 0
    ensures DeriveConnectivity(nodeIndex, nodeXy, edgeXy, msg) == Err(ValueError(RESHAPE_MSG))
  {
    var u := UniquesIndex(nodeXy + edgeXy);
    EdgeIdsFacts(nodeXy, edgeXy, u);
    AllInIff(u[|nodeXy|..], u[..|nodeXy|]);
  }

  /** With every vertex on a node and an even count, vertex pair i becomes
      link i, from the first node at vertex 2i to the first node at vertex
      2i+1. */
  lemma DerivePairs(nodeIndex: seq<int>, nodeXy: seq<Point>, edgeXy: seq<Point>, msg: string)
    requires |nodeIndex| == |nodeXy|
    requires Snapped(nodeXy, edgeXy) && |edgeXy| % 2 == 0
    ensures DeriveConnectivity(nodeIndex, nodeXy, edgeXy, msg).Ok?
    ensures |DeriveConnectivity(nodeIndex, nodeXy, edgeXy, msg).value.0| == |edgeXy| / 2
    ensures |DeriveConnectivity(nodeIndex, nodeXy, edgeXy, msg).value.1| == |edgeXy| / 2
    ensures forall i :: 0 <= i < |edgeXy| / 2 ==>
      FirstIndex(nodeXy, edgeXy[2 * i]) < |nodeIndex| &&
      DeriveConnectivity(nodeIndex, nodeXy, edgeXy, msg).value.0[i] == nodeIndex[FirstIndex(nodeXy, edgeXy[2 * i])]
    ensures forall i :: 0 <= i < |edgeXy| / 2 ==>
      FirstIndex(nodeXy, edgeXy[2 * i + 1]) < |nodeIndex| &&
      DeriveConnectivity(nodeIndex, nodeXy, edgeXy, msg).value.1[i] == nodeIndex[FirstIndex(nodeXy, edgeXy[2 * i + 1])]
  {
    var u := UniquesIndex(nodeXy + edgeXy);
    EdgeIdsFacts(nodeXy, edgeXy, u);
    var n := |nodeXy|;
    AllInIff(u[n..], u[..n]);
    assert forall k :: 0 <= k < |u[n..]| ==> u[n..][k] in u[..n];
  }

  /** Success means every vertex was on a node and the count was even; then
      there is one id per vertex pair, each one of the node ids. */
  lemma DeriveOk(nodeIndex: seq<int>, nodeXy: seq<Point>, edgeXy: seq<Point>, msg: string, c: (seq<int>, seq<int>))
    requires |nodeIndex| == |nodeXy|
    requires DeriveConnectivity(nodeIndex, nodeXy, edgeXy, msg) == Ok(c)
    ensures Snapped(nodeXy, edgeXy) && |edgeXy| % 2 == 0
    ensures 2 * |c.0| == |edgeXy| && 2 * |c.1| == |edgeXy|
    ensures forall i :: 0 <= i < |c.0| ==> c.0[i] in nodeIndex
    ensures forall i :: 0 <= i < |c.1| ==> c.1[i] in nodeIndex
  {
    DeriveUnsnapped(nodeIndex, nodeXy, edgeXy, msg);
    DerivePairs(nodeIndex, nodeXy, edgeXy, msg);
  }
}

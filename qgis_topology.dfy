/** The QGIS plugins' edge-layer helpers: collecting node and edge
    coordinates from the layers, inferring the edge type, writing the
    derived from/to node ids back onto the edge features, and renumbering
    the features after `native:explodelines`. */
module QgisTopology {
  import opened Common
  import opened Topology

  /** A node feature: its feature id (attribute 0), `node_type`, `node_id`
      and point geometry. */
  datatype NodeFeature = NodeFeature(fid: int, nodeType: string, nodeId: int, point: Point)

  /** An edge feature: its polyline and the three attributes the plugin writes. */
  datatype EdgeFeature = EdgeFeature(
    geometry: seq<Point>,
    fromNodeId: Option<int>,
    toNodeId: Option<int>,
    edgeType: Option<string>)

  /** `infer_edge_type`: edges leaving a spatial control node are control
      edges, all others flow edges. */
  function InferEdgeType(fromNodeType: string, spatialControl: set<string>): (t: string)
    ensures t == "control" || t == "flow"
    ensures t == "control" <==> fromNodeType in spatialControl
  {
    if fromNodeType in spatialControl then "control" else "flow"
  }

  /** The node with the greatest position carrying feature id `fid`: the
      entry `node_identifiers` keeps when a fid repeats. */
  function LastWithFid(nodes: seq<NodeFeature>, fid: int): (i: int)
    ensures -1 <= i < |nodes|
    ensures i >= 0 ==> nodes[i].fid == fid
    ensures forall j :: i < j < |nodes| ==> nodes[j].fid != fid
  {
    if |nodes| == 0 then -1
    else if nodes[|nodes| - 1].fid == fid then |nodes| - 1
    else LastWithFid(nodes[..|nodes| - 1], fid)
  }

  function NodeXy(nodes: seq<NodeFeature>): (r: seq<Point>)
    ensures |r| == |nodes| && forall i :: 0 <= i < |nodes| ==> r[i] == nodes[i].point
  {
    seq(|nodes|, i requires 0 <= i < |nodes| => nodes[i].point)
  }

  function NodeIndex(nodes: seq<NodeFeature>): (r: seq<int>)
    ensures |r| == |nodes| && forall i :: 0 <= i < |nodes| ==> r[i] == nodes[i].fid
  {
    seq(|nodes|, i requires 0 <= i < |nodes| => nodes[i].fid)
  }

  /** `collect_node_properties`: the node points and feature ids row by row,
      and a dictionary from feature id to `(node_type, node_id)` in which a
      later feature overwrites an earlier one with the same fid. */
  method CollectNodeProperties(nodes: seq<NodeFeature>)
    returns (xy: seq<Point>, index: seq<int>, identifiers: map<int, (string, int)>)
    ensures xy == NodeXy(nodes) && index == NodeIndex(nodes)
    ensures forall f :: f in identifiers <==> f in index
    ensures forall f :: f in identifiers ==>
      0 <= LastWithFid(nodes, f) &&
      identifiers[f] == (nodes[LastWithFid(nodes, f)].nodeType, nodes[LastWithFid(nodes, f)].nodeId)
  {
    var n := |nodes|;
    var nodeXy := new Point[n];
    var nodeIndex := new int[n];
    identifiers := map[];
    for i := 0 to n
      invariant forall j :: 0 <= j < i ==> nodeXy[j] == nodes[j].point && nodeIndex[j] == nodes[j].fid
      invariant forall f :: f in identifiers <==> exists j :: 0 <= j < i && nodes[j].fid == f
      invariant forall f :: f in identifiers ==>
        0 <= LastWithFid(nodes[..i], f) &&
        identifiers[f] == (nodes[LastWithFid(nodes[..i], f)].nodeType, nodes[LastWithFid(nodes[..i], f)].nodeId)
    {
      nodeXy[i] := nodes[i].point;
      nodeIndex[i] := nodes[i].fid;
      assert nodes[..i + 1][..i] == nodes[..i];
      identifiers := identifiers[nodes[i].fid := (nodes[i].nodeType, nodes[i].nodeId)];
      forall f | f in identifiers && f != nodes[i].fid
        ensures LastWithFid(nodes[..i + 1], f) == LastWithFid(nodes[..i], f)
      {
      }
    }
    assert nodes[..n] == nodes;
    xy := nodeXy[..];
    index := nodeIndex[..];
    forall f ensures f in identifiers <==> f in index {
      if f in identifiers {
        var j :| 0 <= j < n && nodes[j].fid == f;
        assert index[j] == f;
      }
    }
  }

  /** Some edge has a polyline without vertices, so `geometry[0]` fails. */
  predicate HasEmptyLine(edges: seq<EdgeFeature>) {
    exists i :: 0 <= i < |edges| && |edges[i].geometry| == 0
  }

  /** `collect_edge_coordinates`: the first and the last vertex of every
      edge, flattened to one point per row. */
  method CollectEdgeCoordinates(edges: seq<EdgeFeature>) returns (r: Result<seq<Point>>)
    ensures r.Err? <==> HasEmptyLine(edges)
    ensures r.Err? ==> r.error == IndexError
    ensures r.Ok? ==> |r.value| == 2 * |edges| && forall i :: 0 <= i < |edges| ==>
      r.value[2 * i] == edges[i].geometry[0] &&
      r.value[2 * i + 1] == edges[i].geometry[|edges[i].geometry| - 1]
  {
    var n := |edges|;
    var edgeXy := new Point[2 * n];
    for i := 0 to n
      invariant forall j :: 0 <= j < i ==> (|edges[j].geometry| > 0 &&
        edgeXy[2 * j] == edges[j].geometry[0] &&
        edgeXy[2 * j + 1] == edges[j].geometry[|edges[j].geometry| - 1])
    {
      var geometry := edges[i].geometry;
      if |geometry| == 0 {
        return Err(IndexError);
      }
      edgeXy[2 * i] := geometry[0];
      edgeXy[2 * i + 1] := geometry[|geometry| - 1];
    }
    r := Ok(edgeXy[..]);
  }

  /** The endpoint pairs of every edge (what the coordinates collection yields). */
  function Endpoints(edges: seq<EdgeFeature>): (r: seq<Point>)
    requires !HasEmptyLine(edges)
    ensures |r| == 2 * |edges|
    ensures forall i :: 0 <= i < |edges| ==>
      r[2 * i] == edges[i].geometry[0] && r[2 * i + 1] == edges[i].geometry[|edges[i].geometry| - 1]
  {
    if |edges| == 0 then []
    else
      var init := edges[..|edges| - 1];
      assert forall i :: 0 <= i < |init| ==> init[i] == edges[i];
      var g := edges[|edges| - 1].geometry;
      Endpoints(init) + [g[0], g[|g| - 1]]
  }

  /** The new edge features `set_edge_properties` leaves behind, or the
      error that stops it before the layer is touched. */
  function EdgeProperties(nodes: seq<NodeFeature>, edges: seq<EdgeFeature>, spatialControl: set<string>)
    : Result<seq<EdgeFeature>>
  {
    if HasEmptyLine(edges) then Err(IndexError)
    else
      var index := NodeIndex(nodes);
      var c :- DeriveConnectivity(index, NodeXy(nodes), Endpoints(edges), SNAP_LAYER_MSG);
      DeriveOk(index, NodeXy(nodes), Endpoints(edges), SNAP_LAYER_MSG, c);
      Ok(seq(|edges|, i requires 0 <= i < |edges| => Attributed(nodes, edges[i], c.0[i], c.1[i], spatialControl)))
  }

  /** One edge after the attribute writes: the `node_id` (not the fid) and
      inferred type of the from-node, the `node_id` of the to-node. */
  function Attributed(nodes: seq<NodeFeature>, e: EdgeFeature, fid1: int, fid2: int, spatialControl: set<string>): EdgeFeature
    requires fid1 in NodeIndex(nodes) && fid2 in NodeIndex(nodes)
  {
    var n1 := nodes[LastWithFidIn(nodes, fid1)];
    var n2 := nodes[LastWithFidIn(nodes, fid2)];
    e.(fromNodeId := Some(n1.nodeId), toNodeId := Some(n2.nodeId),
       edgeType := Some(InferEdgeType(n1.nodeType, spatialControl)))
  }

  function LastWithFidIn(nodes: seq<NodeFeature>, fid: int): (i: nat)
    requires fid in NodeIndex(nodes)
    ensures i < |nodes| && i == LastWithFid(nodes, fid)
  {
    PresentFid(nodes, fid);
    LastWithFid(nodes, fid)
  }

  lemma PresentFid(nodes: seq<NodeFeature>, fid: int)
    requires fid in NodeIndex(nodes)
    ensures LastWithFid(nodes, fid) >= 0
  {
    var j :| 0 <= j < |nodes| && NodeIndex(nodes)[j] == fid;
    assert nodes[j].fid == fid;
  }

  /** Node fids are unique, as QGIS feature ids are. */
  ghost predicate UniqueFids(nodes: seq<NodeFeature>) {
    forall i, j :: 0 <= i < j < |nodes| ==> nodes[i].fid != nodes[j].fid
  }

  /** With unique fids the look-up finds the node at the vertex itself. */
  lemma UniqueLast(nodes: seq<NodeFeature>, j: nat)
    requires UniqueFids(nodes) && j < |nodes|
    ensures LastWithFid(nodes, nodes[j].fid) == j
  {
  }

  /** What `set_edge_properties` promises: an empty polyline or an endpoint
      off every node stops it; otherwise, with unique node fids, every edge
      gets the `node_id` of the first node at its first vertex, the `node_id`
      of the first node at its last vertex and the type inferred from the
      from-node, and keeps its geometry. */
  lemma EdgePropertiesFacts(nodes: seq<NodeFeature>, edges: seq<EdgeFeature>, spatialControl: set<string>)
    ensures HasEmptyLine(edges) ==> EdgeProperties(nodes, edges, spatialControl) == Err(IndexError)
    ensures !HasEmptyLine(edges) && !Snapped(NodeXy(nodes), Endpoints(edges)) ==>
      EdgeProperties(nodes, edges, spatialControl) == Err(ValueError(SNAP_LAYER_MSG))
    ensures !HasEmptyLine(edges) && Snapped(NodeXy(nodes), Endpoints(edges)) ==>
      EdgeProperties(nodes, edges, spatialControl).Ok? &&
      |EdgeProperties(nodes, edges, spatialControl).value| == |edges| &&
      forall i :: 0 <= i < |edges| ==>
        EdgeProperties(nodes, edges, spatialControl).value[i].geometry == edges[i].geometry
    ensures UniqueFids(nodes) && !HasEmptyLine(edges) && Snapped(NodeXy(nodes), Endpoints(edges)) ==>
      forall i :: 0 <= i < |edges| ==>
        FirstIndex(NodeXy(nodes), edges[i].geometry[0]) < |nodes| &&
        FirstIndex(NodeXy(nodes), edges[i].geometry[|edges[i].geometry| - 1]) < |nodes| &&
        EdgeProperties(nodes, edges, spatialControl).Ok? &&
        |EdgeProperties(nodes, edges, spatialControl).value| == |edges| &&
        EdgeProperties(nodes, edges, spatialControl).value[i] == edges[i].(
          fromNodeId := Some(nodes[FirstIndex(NodeXy(nodes), edges[i].geometry[0])].nodeId),
          toNodeId := Some(nodes[FirstIndex(NodeXy(nodes), edges[i].geometry[|edges[i].geometry| - 1])].nodeId),
          edgeType := Some(InferEdgeType(nodes[FirstIndex(NodeXy(nodes), edges[i].geometry[0])].nodeType, spatialControl)))
  {
    if !HasEmptyLine(edges) {
      var index := NodeIndex(nodes);
      var ends := Endpoints(edges);
      DeriveUnsnapped(index, NodeXy(nodes), ends, SNAP_LAYER_MSG);
      if Snapped(NodeXy(nodes), ends) {
        DerivePairs(index, NodeXy(nodes), ends, SNAP_LAYER_MSG);
        if UniqueFids(nodes) {
          forall i | 0 <= i < |edges|
            ensures LastWithFid(nodes, nodes[FirstIndex(NodeXy(nodes), ends[2 * i])].fid) == FirstIndex(NodeXy(nodes), ends[2 * i])
            ensures LastWithFid(nodes, nodes[FirstIndex(NodeXy(nodes), ends[2 * i + 1])].fid) == FirstIndex(NodeXy(nodes), ends[2 * i + 1])
          {
            UniqueLast(nodes, FirstIndex(NodeXy(nodes), ends[2 * i]));
            UniqueLast(nodes, FirstIndex(NodeXy(nodes), ends[2 * i + 1]));
          }
        }
      }
    }
  }

  /** The edges after writing, for edge i, the attributes the dictionary
      holds for its from-fid and to-fid. */
  function Written(edges: seq<EdgeFeature>, fromFid: seq<int>, toFid: seq<int>,
                   identifiers: map<int, (string, int)>, spatialControl: set<string>): (r: seq<EdgeFeature>)
    requires |fromFid| == |edges| && |toFid| == |edges|
    requires forall k :: 0 <= k < |fromFid| ==> fromFid[k] in identifiers
    requires forall k :: 0 <= k < |toFid| ==> toFid[k] in identifiers
  {
    seq(|edges|, i requires 0 <= i < |edges| =>
      edges[i].(fromNodeId := Some(identifiers[fromFid[i]].1), toNodeId := Some(identifiers[toFid[i]].1),
                edgeType := Some(InferEdgeType(identifiers[fromFid[i]].0, spatialControl))))
  }

  /** The collected coordinates are the endpoint pairs. */
  lemma EndpointsOf(edges: seq<EdgeFeature>, v: seq<Point>)
    requires !HasEmptyLine(edges) && |v| == 2 * |edges|
    requires forall i :: 0 <= i < |edges| ==>
      v[2 * i] == edges[i].geometry[0] && v[2 * i + 1] == edges[i].geometry[|edges[i].geometry| - 1]
    ensures v == Endpoints(edges)
  {
    forall k | 0 <= k < |v| ensures v[k] == Endpoints(edges)[k] {
      var i := k / 2;
      if k % 2 == 0 {
        assert k == 2 * i;
      } else {
        assert k == 2 * i + 1;
      }
    }
  }

  /** Writing from the dictionary `collect_node_properties` builds gives the
      edges `EdgeProperties` describes. */
  lemma WrittenProperties(nodes: seq<NodeFeature>, edges: seq<EdgeFeature>, spatialControl: set<string>,
                          identifiers: map<int, (string, int)>, c: (seq<int>, seq<int>))
    requires !HasEmptyLine(edges)
    requires DeriveConnectivity(NodeIndex(nodes), NodeXy(nodes), Endpoints(edges), SNAP_LAYER_MSG) == Ok(c)
    requires forall f :: f in identifiers <==> f in NodeIndex(nodes)
    requires forall f :: f in identifiers ==>
      0 <= LastWithFid(nodes, f) &&
      identifiers[f] == (nodes[LastWithFid(nodes, f)].nodeType, nodes[LastWithFid(nodes, f)].nodeId)
    ensures |c.0| == |edges| && |c.1| == |edges|
    ensures forall k :: 0 <= k < |c.0| ==> c.0[k] in identifiers
    ensures forall k :: 0 <= k < |c.1| ==> c.1[k] in identifiers
    ensures Written(edges, c.0, c.1, identifiers, spatialControl) == EdgeProperties(nodes, edges, spatialControl).value
  {
    DeriveOk(NodeIndex(nodes), NodeXy(nodes), Endpoints(edges), SNAP_LAYER_MSG, c);
    var w := Written(edges, c.0, c.1, identifiers, spatialControl);
    var e := EdgeProperties(nodes, edges, spatialControl).value;
    forall i | 0 <= i < |edges| ensures w[i] == e[i] {
      assert e[i] == Attributed(nodes, edges[i], c.0[i], c.1[i], spatialControl);
    }
  }

  /** The edge layer the plugin edits in place: its features, in layer
      order, and whether its signals are blocked. */
  class EdgeLayer {
    var features: seq<EdgeFeature>
    var signalsBlocked: bool

    constructor (features0: seq<EdgeFeature>)
      ensures features == features0 && !signalsBlocked
    {
      features := features0;
      signalsBlocked := false;
    }

    /** `set_edge_properties`: derive the connectivity, then, with signals
        blocked, write the three attributes feature by feature and unblock
        the signals again.  A failure while collecting or deriving leaves
        the layer as it was. */
    method SetEdgeProperties(nodes: seq<NodeFeature>, spatialControl: set<string>) returns (r: Result<()>)
      modifies this
      ensures r.Ok? <==> EdgeProperties(nodes, old(features), spatialControl).Ok?
      ensures r.Ok? ==> features == EdgeProperties(nodes, old(features), spatialControl).value && !signalsBlocked
      ensures r.Err? ==> (r.error == EdgeProperties(nodes, old(features), spatialControl).error &&
        features == old(features) && signalsBlocked == old(signalsBlocked))
    {
      var nodeXy, nodeIndex, identifiers := CollectNodeProperties(nodes);
      var edgeXy := CollectEdgeCoordinates(features);
      if edgeXy.Err? {
        return Err(edgeXy.error);
      }
      EndpointsOf(features, edgeXy.value);
      var c := DeriveConnectivity(nodeIndex, nodeXy, edgeXy.value, SNAP_LAYER_MSG);
      if c.Err? {
        return Err(c.error);
      }
      WrittenProperties(nodes, features, spatialControl, identifiers, c.value);
      signalsBlocked := true;
      WriteAttributes(c.value.0, c.value.1, identifiers, spatialControl);
      signalsBlocked := false;
      r := Ok(());
    }

    /** The attribute loop: one `changeAttributeValue` triple per edge. */
    method WriteAttributes(fromFid: seq<int>, toFid: seq<int>, identifiers: map<int, (string, int)>, spatialControl: set<string>)
      requires |fromFid| == |features| && |toFid| == |features|
      requires forall k :: 0 <= k < |fromFid| ==> fromFid[k] in identifiers
      requires forall k :: 0 <= k < |toFid| ==> toFid[k] in identifiers
      modifies this
      ensures features == Written(old(features), fromFid, toFid, identifiers, spatialControl)
      ensures signalsBlocked == old(signalsBlocked)
    {
      ghost var expected := Written(features, fromFid, toFid, identifiers, spatialControl);
      var i := 0;
      while i < |features|
        invariant 0 <= i <= |features| == |expected|
        invariant features[..i] == expected[..i]
        invariant forall j :: i <= j < |features| ==> features[j] == old(features)[j]
        invariant signalsBlocked == old(signalsBlocked)
      {
        var (type1, id1) := identifiers[fromFid[i]];
        var (_, id2) := identifiers[toFid[i]];
        var edgeType := InferEdgeType(type1, spatialControl);
        features := features[i := features[i].(fromNodeId := Some(id1), toNodeId := Some(id2), edgeType := Some(edgeType))];
        i := i + 1;
        assert features[..i] == expected[..i] by {
          assert features[..i] == features[..i - 1] + [features[i - 1]];
          assert expected[..i] == expected[..i - 1] + [expected[i - 1]];
        }
      }
      assert features == features[..i];
    }

    /** The feature overwrite in `explode_lines`: delete every feature, then
        add the exploded ones, renumbered; each keeps the geometry and the
        attributes it came with. */
    method ExplodeLines(exploded: seq<LineFeature>) returns (added: seq<LineFeature>)
      modifies this
      ensures added == Renumbered(exploded)
      ensures |features| == |exploded| && forall i :: 0 <= i < |exploded| ==> features[i] == AsEdge(exploded[i])
      ensures !signalsBlocked
    {
      signalsBlocked := true;
      features := [];
      var newFeatures := new LineFeature[|exploded|](i requires 0 <= i < |exploded| => exploded[i]);
      Renumber(newFeatures);
      added := newFeatures[..];
      features := seq(|added|, i requires 0 <= i < |added| => AsEdge(added[i]));
      signalsBlocked := false;
    }
  }

  /** A feature produced by `native:explodelines`: its `fid` attribute, its
      one-segment geometry and the attributes of the line it was cut from. */
  datatype LineFeature = LineFeature(
    fid: int,
    geometry: seq<Point>,
    fromNodeId: Option<int>,
    toNodeId: Option<int>,
    edgeType: Option<string>)

  /** The edge feature a line feature becomes on the edge layer. */
  function AsEdge(l: LineFeature): EdgeFeature {
    EdgeFeature(l.geometry, l.fromNodeId, l.toNodeId, l.edgeType)
  }

  /** The features with their `fid` set to 1, 2, ... in order, everything
      else kept. */
  function Renumbered(fs: seq<LineFeature>): (r: seq<LineFeature>)
    ensures |r| == |fs|
    ensures forall i :: 0 <= i < |fs| ==> r[i].fid == i + 1 && AsEdge(r[i]) == AsEdge(fs[i])
  {
    seq(|fs|, i requires 0 <= i < |fs| => fs[i].(fid := i + 1))
  }

  /** Renumbered features carry distinct fids, all in `1..|fs|`. */
  lemma RenumberedDistinct(fs: seq<LineFeature>)
    ensures forall i, j :: 0 <= i < j < |fs| ==> Renumbered(fs)[i].fid != Renumbered(fs)[j].fid
    ensures forall i :: 0 <= i < |fs| ==> 1 <= Renumbered(fs)[i].fid <= |fs|
  {
  }

  /** The renumbering loop: `feature["fid"] = i + 1` for each new feature. */
  method Renumber(a: array<LineFeature>)
    modifies a
    ensures a[..] == Renumbered(old(a[..]))
  {
    for i := 0 to a.Length
      invariant forall j :: 0 <= j < i ==> a[j] == old(a[j]).(fid := j + 1)
      invariant forall j :: i <= j < a.Length ==> a[j] == old(a[j])
    {
      a[i] := a[i].(fid := i + 1);
    }
  }
}

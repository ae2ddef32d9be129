/** The network simplification that prepares a Ribasim model for Delwaq
    (`_setup_graph`): flow links between non-control nodes become a directed
    graph; junctions and connector nodes are bypassed, opposite links at a
    UserDemand are folded, links between a Terminal and a UserDemand are
    dropped, basins are numbered 1..n and boundaries -1, -2, ..., and every
    basin gains its own boundary links. */
module DelwaqGraph {
  import opened Common
  import opened DiGraph
  import Links
  import Strings

  datatype NodeRow = NodeRow(nodeId: int, nodeType: string)

  datatype LinkRow = LinkRow(linkId: int, fromId: int, toId: int, linkType: string)

  const JUNCTION := "Junction"
  const USER_DEMAND := "UserDemand"
  const MULTI_MSG := "Cannot simplify network with junctions that have multiple inflow and outflow links."
  const DUPLICATE_MSG := "Merging links would create duplicate links."

  // ---------------------------------------------------------------- building

  /** The current exporter and the older coupling script, which differ in
      the nodes they leave out of the graph. */
  datatype Variant = Current | Coupled

  /** A node row of type `t` that the variant leaves out: a spatial control
      node, or in the older script any type whose name contains "Control". */
  predicate Excluded(v: Variant, t: string) {
    match v
    case Current => t in Links.SpatialControlNodeTypes
    case Coupled => Strings.Contains(t, "Control")
  }

  /** Every link carries at least one id. */
  predicate NonEmptyIds(g: Graph) {
    forall e :: e in g.ids ==> |g.ids[e]| > 0
  }

  /** The ids of link `e`, or none for a missing link. */
  function IdsOf(g: Graph, e: Link): seq<int> {
    if e in g.ids then g.ids[e] else []
  }


  /** The error on a missing table: the current exporter asserts the table
      is present, the older script calls a method on `None`. */
  function MissingTable(v: Variant): Exception {
    match v
    case Current => AssertionError("")
    case Coupled => AttributeError("'NoneType' object has no attribute 'itertuples'")
  }

  /** Every typed node comes from a non-control node row and carries its own
      id as original id. */
  predicate FromNodeRows(v: Variant, g: Graph, ns: seq<NodeRow>) {
    forall k :: k in g.info && g.info[k].Attrs? ==>
      g.info[k].origId == k && NodeRow(k, g.info[k].ntype) in ns &&
      !Excluded(v, g.info[k].ntype)
  }

  /** Every non-control node row became a typed node. */
  predicate CoversNodeRows(v: Variant, g: Graph, ns: seq<NodeRow>) {
    forall row :: row in ns && !Excluded(v, row.nodeType) ==>
      row.nodeId in g.info && g.info[row.nodeId].Attrs?
  }

  predicate IsFlowRow(row: LinkRow, e: Link) {
    row.linkType == "flow" && (row.fromId, row.toId) == e
  }

  /** Every link comes from a flow row and carries that row's id alone. */
  predicate FromLinkRows(g: Graph, ls: seq<LinkRow>) {
    forall e :: e in g.ids ==> exists row :: row in ls && IsFlowRow(row, e) && g.ids[e] == [row.linkId]
  }

  predicate CoversLinkRows(g: Graph, ls: seq<LinkRow>) {
    forall row :: row in ls && row.linkType == "flow" ==> (row.fromId, row.toId) in g.ids
  }

  /** A node without attributes is the end point of some flow row. */
  predicate ImplicitFromLinkRows(g: Graph, ls: seq<LinkRow>) {
    forall k :: k in g.info && g.info[k].Implicit? ==>
      exists row :: row in ls && row.linkType == "flow" && (row.fromId == k || row.toId == k)
  }

  /** Adding the node of row `row` keeps the node invariants. */
  lemma AddNodeRowStep(v: Variant, g: Graph, ns: seq<NodeRow>, i: nat)
    requires i < |ns|
    requires Valid(g) && g.ids == map[] && (forall k :: k in g.info ==> g.info[k].Attrs?)
    requires FromNodeRows(v, g, ns[..i]) && CoversNodeRows(v, g, ns[..i])
    ensures var h := if !Excluded(v, ns[i].nodeType)
                     then AddNode(g, ns[i].nodeId, ns[i].nodeType, ns[i].nodeId) else g;
      Valid(h) && h.ids == map[] && (forall k :: k in h.info ==> h.info[k].Attrs?) &&
      FromNodeRows(v, h, ns[..i + 1]) && CoversNodeRows(v, h, ns[..i + 1])
  {
    var row := ns[i];
    assert ns[..i + 1] == ns[..i] + [row];
    if !Excluded(v, row.nodeType) {
      var h := AddNode(g, row.nodeId, row.nodeType, row.nodeId);
      NodeRowFrom(v, g, h, ns[..i], row);
      NodeRowCovers(v, g, h, ns[..i], row);
    }
  }

  lemma NodeRowFrom(v: Variant, g: Graph, h: Graph, ns: seq<NodeRow>, row: NodeRow)
    requires !Excluded(v, row.nodeType)
    requires h == AddNode(g, row.nodeId, row.nodeType, row.nodeId) && FromNodeRows(v, g, ns)
    ensures FromNodeRows(v, h, ns + [row])
  {
    assert forall x :: x in ns ==> x in ns + [row];
    assert row in ns + [row];
  }

  lemma NodeRowCovers(v: Variant, g: Graph, h: Graph, ns: seq<NodeRow>, row: NodeRow)
    requires h == AddNode(g, row.nodeId, row.nodeType, row.nodeId) && CoversNodeRows(v, g, ns)
    ensures CoversNodeRows(v, h, ns + [row])
  {
    assert forall x :: x in ns + [row] ==> x in ns || x == row;
  }

  /** Adding the link of row `ls[j]` keeps the link invariants. */
  lemma AddLinkRowStep(v: Variant, g: Graph, ns: seq<NodeRow>, ls: seq<LinkRow>, j: nat)
    requires j < |ls|
    requires Valid(g) && FromNodeRows(v, g, ns) && CoversNodeRows(v, g, ns)
    requires FromLinkRows(g, ls[..j]) && CoversLinkRows(g, ls[..j]) && ImplicitFromLinkRows(g, ls[..j])
    ensures var h := if ls[j].linkType == "flow"
                     then AddEdge(g, ls[j].fromId, ls[j].toId, [ls[j].linkId]) else g;
      Valid(h) && FromNodeRows(v, h, ns) && CoversNodeRows(v, h, ns) &&
      FromLinkRows(h, ls[..j + 1]) && CoversLinkRows(h, ls[..j + 1]) &&
      ImplicitFromLinkRows(h, ls[..j + 1])
  {
    var row := ls[j];
    assert ls[..j + 1] == ls[..j] + [row];
    if row.linkType == "flow" {
      var h := AddEdge(g, row.fromId, row.toId, [row.linkId]);
      FlowRowNodes(v, g, h, ns, ls[..j], row);
      FlowRowLinks(g, h, ls[..j], row);
    }
  }

  lemma FlowRowNodes(v: Variant, g: Graph, h: Graph, ns: seq<NodeRow>, ls: seq<LinkRow>, row: LinkRow)
    requires row.linkType == "flow" && h == AddEdge(g, row.fromId, row.toId, [row.linkId])
    requires FromNodeRows(v, g, ns) && CoversNodeRows(v, g, ns) && ImplicitFromLinkRows(g, ls)
    ensures FromNodeRows(v, h, ns) && CoversNodeRows(v, h, ns) && ImplicitFromLinkRows(h, ls + [row])
  {
    forall k | k in h.info && h.info[k].Implicit?
      ensures exists x :: x in ls + [row] && x.linkType == "flow" && (x.fromId == k || x.toId == k)
    {
      if k in g.info {
        var x :| x in ls && x.linkType == "flow" && (x.fromId == k || x.toId == k);
        assert x in ls + [row];
      } else {
        assert row in ls + [row];
      }
    }
  }

  lemma FlowRowLinks(g: Graph, h: Graph, ls: seq<LinkRow>, row: LinkRow)
    requires row.linkType == "flow" && h == AddEdge(g, row.fromId, row.toId, [row.linkId])
    requires FromLinkRows(g, ls) && CoversLinkRows(g, ls)
    ensures FromLinkRows(h, ls + [row]) && CoversLinkRows(h, ls + [row])
  {
    assert IsFlowRow(row, (row.fromId, row.toId));
    assert row in ls + [row];
    forall e | e in h.ids
      ensures exists x :: x in ls + [row] && IsFlowRow(x, e) && h.ids[e] == [x.linkId]
    {
      if e != (row.fromId, row.toId) {
        var x :| x in ls && IsFlowRow(x, e) && g.ids[e] == [x.linkId];
        assert x in ls + [row];
      }
    }
  }

  /** What `Build` promises of the graph of two tables: it is valid, holds
      exactly the non-control node rows, and exactly the flow links with
      their row ids. */
  ghost predicate BuiltFrom(v: Variant, g: Graph, ns: seq<NodeRow>, ls: seq<LinkRow>) {
    Valid(g) && FromNodeRows(v, g, ns) && CoversNodeRows(v, g, ns) &&
    FromLinkRows(g, ls) && CoversLinkRows(g, ls) && ImplicitFromLinkRows(g, ls)
  }

  /** The graph of the node and link tables; a missing table fails with
      `MissingTable(v)`. */
  method Build(v: Variant, nodes: Option<seq<NodeRow>>, links: Option<seq<LinkRow>>) returns (r: Result<Graph>)
    ensures r.Ok? <==> nodes.Some? && links.Some?
    ensures r.Err? ==> r.error == MissingTable(v)
    ensures r.Ok? ==> Valid(r.value)
    ensures r.Ok? ==> FromNodeRows(v, r.value, nodes.value) && CoversNodeRows(v, r.value, nodes.value)
    ensures r.Ok? ==> FromLinkRows(r.value, links.value) && CoversLinkRows(r.value, links.value)
    ensures r.Ok? ==> ImplicitFromLinkRows(r.value, links.value)
  {
    if nodes.None? {
      return Err(MissingTable(v));
    }
    var ns := nodes.value;
    var g := Empty();
    var i := 0;
    while i < |ns|
      invariant 0 <= i <= |ns|
      invariant Valid(g) && g.ids == map[]
      invariant forall k :: k in g.info ==> g.info[k].Attrs?
      invariant FromNodeRows(v, g, ns[..i]) && CoversNodeRows(v, g, ns[..i])
    {
      AddNodeRowStep(v, g, ns, i);
      if !Excluded(v, ns[i].nodeType) {
        g := AddNode(g, ns[i].nodeId, ns[i].nodeType, ns[i].nodeId);
      }
      i := i + 1;
    }
    assert ns[..i] == ns;
    if links.None? {
      return Err(MissingTable(v));
    }
    var ls := links.value;
    var j := 0;
    while j < |ls|
      invariant 0 <= j <= |ls|
      invariant Valid(g)
      invariant FromNodeRows(v, g, ns) && CoversNodeRows(v, g, ns)
      invariant FromLinkRows(g, ls[..j]) && CoversLinkRows(g, ls[..j])
      invariant ImplicitFromLinkRows(g, ls[..j])
    {
      AddLinkRowStep(v, g, ns, ls, j);
      if ls[j].linkType == "flow" {
        g := AddEdge(g, ls[j].fromId, ls[j].toId, [ls[j].linkId]);
      }
      j := j + 1;
    }
    assert ls[..j] == ls;
    return Ok(g);
  }

  // --------------------------------------------------------------- junctions

  /** Merged links carry the inflow link's id unless the junction has exactly
      one inflow and at least one outflow. */
  function Converging(nIn: nat, nOut: nat): (c: bool)
    ensures !c <==> nIn == 1 && nOut >= 1
  {
    !(nIn == 1 && nOut >= 1)
  }

  /** `ids[0]`, which fails on an empty list. */
  function First(ids: seq<int>): (r: Result<int>)
    ensures r.Ok? <==> |ids| > 0
    ensures r.Ok? ==> r.value == ids[0]
    ensures r.Err? ==> r.error == IndexError
  {
    if |ids| == 0 then Err(IndexError) else Ok(ids[0])
  }

  /** The id the merged link from `i` to `o` through junction `j` carries. */
  function Carried(ids: map<Link, seq<int>>, converging: bool, j: int, i: int, o: int): Result<int> {
    var e := if converging then (i, j) else (j, o);
    if e in ids then First(ids[e]) else Err(IndexError)
  }

  /** One pass of the innermost loop: link `i` to `o` unless that link exists. */
  function InflowStep(g: Graph, c: bool, j: int, i: int, cur: Graph, o: int): Result<Graph> {
    var id :- Carried(g.ids, c, j, i, o);
    if (i, o) in cur.ids then Err(ValueError(DUPLICATE_MSG)) else Ok(AddEdge(cur, i, o, [id]))
  }

  /** The merges of inflow neighbour `i` with the outflow neighbours `os`, in order. */
  function Inflow(g: Graph, c: bool, j: int, i: int, cur: Graph, os: seq<int>): Result<Graph>
    decreases |os|
  {
    if os == [] then Ok(cur)
    else
      var h :- Inflow(g, c, j, i, cur, os[..|os| - 1]);
      InflowStep(g, c, j, i, h, os[|os| - 1])
  }

  /** The merges of the inflow neighbours `ins`, in order. */
  function Inflows(g: Graph, c: bool, j: int, ins: seq<int>, outs: seq<int>): Result<Graph>
    decreases |ins|
  {
    if ins == [] then Ok(g)
    else
      var h :- Inflows(g, c, j, ins[..|ins| - 1], outs);
      Inflow(g, c, j, ins[|ins| - 1], h, outs)
  }

  /** Bypassing junction `j`: its inflow neighbours linked to its outflow neighbours. */
  function JunctionMerge(g: Graph, j: int): Result<Graph> {
    var ins := Pred(g, j);
    var outs := Succ(g, j);
    if |ins| > 1 && |outs| > 1 then Err(ValueError(MULTI_MSG))
    else Inflows(g, Converging(|ins|, |outs|), j, ins, outs)
  }

  /** The pairs the merge of a junction has handled: every outflow neighbour
      of the inflow neighbours in `insDone`, and the outflow neighbours
      `outsDone` of `i`. */
  predicate Done(e: Link, insDone: set<int>, outs: set<int>, i: int, outsDone: set<int>) {
    (e.0 in insDone && e.1 in outs) || (e.0 == i && e.1 in outsDone)
  }

  /** The graph part way through merging junction `j`: nodes as before, old
      links untouched, and each handled pair a new link with the carried id. */
  ghost predicate MergeInv(g: Graph, cur: Graph, c: bool, j: int, outs: set<int>,
                           insDone: set<int>, i: int, outsDone: set<int>) {
    cur.order == g.order && cur.info == g.info &&
    (forall e :: e in g.ids ==> e in cur.ids && cur.ids[e] == g.ids[e]) &&
    (forall e :: e in cur.ids ==> e in g.ids || Done(e, insDone, outs, i, outsDone)) &&
    (forall e: Link :: Done(e, insDone, outs, i, outsDone) ==>
      e !in g.ids && e in cur.ids && Carried(g.ids, c, j, e.0, e.1).Ok? &&
      cur.ids[e] == [Carried(g.ids, c, j, e.0, e.1).value])
  }

  lemma MergeStep(g: Graph, cur: Graph, c: bool, j: int, outs: set<int>,
                  insDone: set<int>, i: int, outsDone: set<int>, o: int)
    requires MergeInv(g, cur, c, j, outs, insDone, i, outsDone)
    requires o in outs && i !in insDone && o !in outsDone
    requires Carried(g.ids, c, j, i, o).Ok? && (i, o) !in cur.ids
    ensures MergeInv(g, Linked(cur, (i, o), [Carried(g.ids, c, j, i, o).value]), c, j, outs, insDone, i, outsDone + {o})
  {
  }

  /** A pair not handled yet that is already linked was linked before the merge. */
  lemma MergeDuplicate(g: Graph, cur: Graph, c: bool, j: int, outs: set<int>,
                       insDone: set<int>, i: int, outsDone: set<int>, o: int)
    requires MergeInv(g, cur, c, j, outs, insDone, i, outsDone)
    requires i !in insDone && o !in outsDone && (i, o) in cur.ids
    ensures (i, o) in g.ids
  {
  }

  /** Moving on to the next inflow neighbour. */
  lemma MergeNext(g: Graph, cur: Graph, c: bool, j: int, outs: set<int>, insDone: set<int>, i: int, i': int)
    requires MergeInv(g, cur, c, j, outs, insDone, i, outs)
    ensures MergeInv(g, cur, c, j, outs, insDone + {i}, i', {})
  {
  }

  /** With nothing handled for it, the current inflow neighbour does not matter. */
  lemma MergeSwitch(g: Graph, cur: Graph, c: bool, j: int, outs: set<int>, insDone: set<int>, i: int, i': int)
    requires MergeInv(g, cur, c, j, outs, insDone, i, {})
    ensures MergeInv(g, cur, c, j, outs, insDone, i', {})
  {
  }

  function Elems(s: seq<int>): set<int> {
    set x | x in s
  }

  lemma ElemsSnoc(s: seq<int>)
    requires s != []
    ensures Elems(s) == Elems(s[..|s| - 1]) + {s[|s| - 1]}
  {
    assert s == s[..|s| - 1] + [s[|s| - 1]];
  }

  /** What the merges of one inflow neighbour do. */
  lemma {:induction false} InflowFacts(g: Graph, c: bool, j: int, i: int, cur: Graph, os: seq<int>,
                                       all: set<int>, insDone: set<int>)
    requires Valid(cur) && MergeInv(g, cur, c, j, all, insDone, i, {})
    requires i in g.info && i !in insDone && Distinct(os) && Elems(os) <= all
    requires forall o :: o in all ==> o in g.info
    ensures var r := Inflow(g, c, j, i, cur, os);
      (r.Ok? ==> Valid(r.value) && MergeInv(g, r.value, c, j, all, insDone, i, Elems(os))) &&
      (r.Err? ==> r.error in {ValueError(DUPLICATE_MSG), IndexError}) &&
      (r == Err(ValueError(DUPLICATE_MSG)) ==> exists o :: o in os && (i, o) in g.ids)
    decreases |os|
  {
    if os != [] {
      var os' := os[..|os| - 1];
      var o := os[|os| - 1];
      DistinctAt(os, |os| - 1);
      assert Distinct(os');
      ElemsSnoc(os);
      InflowFacts(g, c, j, i, cur, os', all, insDone);
      var r' := Inflow(g, c, j, i, cur, os');
      if r'.Ok? {
        var h := r'.value;
        if Carried(g.ids, c, j, i, o).Ok? {
          if (i, o) in h.ids {
            MergeDuplicate(g, h, c, j, all, insDone, i, Elems(os'), o);
          } else {
            var l := [Carried(g.ids, c, j, i, o).value];
            MergeStep(g, h, c, j, all, insDone, i, Elems(os'), o);
            LinkedValid(h, (i, o), l);
            LinkedIsAddEdge(h, (i, o), l);
          }
        }
      }
    }
  }

  /** What the merges of all inflow neighbours do. */
  lemma {:induction false} InflowsFacts(g: Graph, c: bool, j: int, ins: seq<int>, outs: seq<int>)
    requires Valid(g) && Distinct(ins) && Distinct(outs)
    requires forall x :: x in ins ==> x in g.info
    requires forall o :: o in outs ==> o in g.info
    ensures var r := Inflows(g, c, j, ins, outs);
      (r.Ok? ==> Valid(r.value) && MergeInv(g, r.value, c, j, Elems(outs), Elems(ins), 0, {})) &&
      (r.Err? ==> r.error in {ValueError(DUPLICATE_MSG), IndexError}) &&
      (r == Err(ValueError(DUPLICATE_MSG)) ==> exists i, o :: i in ins && o in outs && (i, o) in g.ids)
    decreases |ins|
  {
    if ins != [] {
      var ins' := ins[..|ins| - 1];
      var i := ins[|ins| - 1];
      DistinctAt(ins, |ins| - 1);
      assert Distinct(ins');
      ElemsSnoc(ins);
      InflowsFacts(g, c, j, ins', outs);
      var r' := Inflows(g, c, j, ins', outs);
      if r'.Ok? {
        var h := r'.value;
        MergeSwitch(g, h, c, j, Elems(outs), Elems(ins'), 0, i);
        InflowFacts(g, c, j, i, h, outs, Elems(outs), Elems(ins'));
        var r := Inflow(g, c, j, i, h, outs);
        if r.Ok? {
          MergeNext(g, r.value, c, j, Elems(outs), Elems(ins'), i, 0);
        }
      }
    }
  }

  /** Bypassing one junction keeps the nodes and the old links, links every
      inflow neighbour to every outflow neighbour with the carried id, and
      fails exactly as the checks of `_setup_graph` do. */
  lemma JunctionMergeFacts(g: Graph, j: int)
    requires Valid(g)
    ensures var r := JunctionMerge(g, j);
      var c := Converging(|Pred(g, j)|, |Succ(g, j)|);
      (|Pred(g, j)| > 1 && |Succ(g, j)| > 1 <==> r == Err(ValueError(MULTI_MSG))) &&
      (r.Err? ==> r.error in {ValueError(MULTI_MSG), ValueError(DUPLICATE_MSG), IndexError}) &&
      (r == Err(ValueError(DUPLICATE_MSG)) ==>
        exists i, o :: i in Pred(g, j) && o in Succ(g, j) && (i, o) in g.ids) &&
      (r.Ok? ==> Valid(r.value) && r.value.order == g.order && r.value.info == g.info) &&
      (r.Ok? ==> forall e :: e in g.ids ==> e in r.value.ids && r.value.ids[e] == g.ids[e]) &&
      (r.Ok? ==> forall e :: e in r.value.ids ==> e in g.ids || (e.0 in Pred(g, j) && e.1 in Succ(g, j))) &&
      (r.Ok? ==> forall i, o :: i in Pred(g, j) && o in Succ(g, j) ==>
        (i, o) !in g.ids && (i, o) in r.value.ids &&
        Carried(g.ids, c, j, i, o).Ok? && r.value.ids[(i, o)] == [Carried(g.ids, c, j, i, o).value])
  {
    var ins := Pred(g, j);
    var outs := Succ(g, j);
    if !(|ins| > 1 && |outs| > 1) {
      var c := Converging(|ins|, |outs|);
      forall x | x in ins ensures x in g.info {
        assert (x, j) in g.ids;
      }
      forall o | o in outs ensures o in g.info {
        assert (j, o) in g.ids;
      }
      InflowsFacts(g, c, j, ins, outs);
      var r := Inflows(g, c, j, ins, outs);
      if r.Ok? {
        MergeDone(g, r.value, c, j, Elems(ins), Elems(outs), 0);
      }
    }
  }

  /** After every inflow neighbour, the merge is complete. */
  lemma MergeDone(g: Graph, cur: Graph, c: bool, j: int, ins: set<int>, outs: set<int>, i: int)
    requires MergeInv(g, cur, c, j, outs, ins, i, {})
    ensures forall e :: e in g.ids ==> e in cur.ids && cur.ids[e] == g.ids[e]
    ensures forall e :: e in cur.ids ==> e in g.ids || (e.0 in ins && e.1 in outs)
    ensures forall x, o :: x in ins && o in outs ==>
      (x, o) !in g.ids && (x, o) in cur.ids && Carried(g.ids, c, j, x, o).Ok? &&
      cur.ids[(x, o)] == [Carried(g.ids, c, j, x, o).value]
  {
    forall x, o | x in ins && o in outs
      ensures (x, o) !in g.ids && (x, o) in cur.ids && Carried(g.ids, c, j, x, o).Ok? &&
        cur.ids[(x, o)] == [Carried(g.ids, c, j, x, o).value]
    {
      assert Done((x, o), ins, outs, i, {});
    }
  }

  /** A failure part-way through the inner loop ends it. */
  lemma {:induction false} InflowErr(g: Graph, c: bool, j: int, i: int, cur: Graph, os: seq<int>, k: nat)
    requires k <= |os| && Inflow(g, c, j, i, cur, os[..k]).Err?
    ensures Inflow(g, c, j, i, cur, os) == Inflow(g, c, j, i, cur, os[..k])
    decreases |os|
  {
    if k < |os| {
      var init := os[..|os| - 1];
      assert init[..k] == os[..k];
      InflowErr(g, c, j, i, cur, init, k);
    } else {
      assert os[..k] == os;
    }
  }

  /** A failure part-way through the outer loop ends it. */
  lemma {:induction false} InflowsErr(g: Graph, c: bool, j: int, ins: seq<int>, outs: seq<int>, k: nat)
    requires k <= |ins| && Inflows(g, c, j, ins[..k], outs).Err?
    ensures Inflows(g, c, j, ins, outs) == Inflows(g, c, j, ins[..k], outs)
    decreases |ins|
  {
    if k < |ins| {
      var init := ins[..|ins| - 1];
      assert init[..k] == ins[..k];
      InflowsErr(g, c, j, init, outs, k);
    } else {
      assert ins[..k] == ins;
    }
  }

  lemma InflowNext(g: Graph, c: bool, j: int, i: int, start: Graph, os: seq<int>, b: nat, cur: Graph)
    requires b < |os| && Inflow(g, c, j, i, start, os[..b]) == Ok(cur)
    ensures Inflow(g, c, j, i, start, os[..b + 1]) == InflowStep(g, c, j, i, cur, os[b])
  {
    assert os[..b + 1][..b] == os[..b];
  }

  lemma InflowsNext(g: Graph, c: bool, j: int, ins: seq<int>, outs: seq<int>, a: nat, cur: Graph)
    requires a < |ins| && Inflows(g, c, j, ins[..a], outs) == Ok(cur)
    ensures Inflows(g, c, j, ins[..a + 1], outs) == Inflow(g, c, j, ins[a], cur, outs)
  {
    assert ins[..a + 1][..a] == ins[..a];
  }

  /** The inner loop: merges of inflow neighbour `i` with every outflow neighbour. */
  method MergeInflow(g: Graph, c: bool, j: int, i: int, start: Graph, outs: seq<int>) returns (r: Result<Graph>)
    ensures r == Inflow(g, c, j, i, start, outs)
  {
    var cur := start;
    var b := 0;
    while b < |outs|
      invariant 0 <= b <= |outs|
      invariant Inflow(g, c, j, i, start, outs[..b]) == Ok(cur)
    {
      InflowNext(g, c, j, i, start, outs, b, cur);
      var step := InflowStep(g, c, j, i, cur, outs[b]);
      if step.Err? {
        InflowErr(g, c, j, i, start, outs, b + 1);
        return step;
      }
      cur := step.value;
      b := b + 1;
    }
    assert outs[..b] == outs;
    return Ok(cur);
  }

  /** The outer loop: merges of every inflow neighbour in turn. */
  method MergeInflows(g: Graph, c: bool, j: int, ins: seq<int>, outs: seq<int>) returns (r: Result<Graph>)
    ensures r == Inflows(g, c, j, ins, outs)
  {
    var cur := g;
    var a := 0;
    while a < |ins|
      invariant 0 <= a <= |ins|
      invariant Inflows(g, c, j, ins[..a], outs) == Ok(cur)
    {
      InflowsNext(g, c, j, ins, outs, a, cur);
      var next := MergeInflow(g, c, j, ins[a], cur, outs);
      if next.Err? {
        InflowsErr(g, c, j, ins, outs, a + 1);
        return next;
      }
      cur := next.value;
      a := a + 1;
    }
    assert ins[..a] == ins;
    return Ok(cur);
  }

  /** One junction, bypassed as the nested loops of `_setup_graph` do it. */
  method MergeJunction(g: Graph, j: int) returns (r: Result<Graph>)
    ensures r == JunctionMerge(g, j)
  {
    var ins := Pred(g, j);
    var outs := Succ(g, j);
    if |ins| > 1 && |outs| > 1 {
      return Err(ValueError(MULTI_MSG));
    }
    r := MergeInflows(g, Converging(|ins|, |outs|), j, ins, outs);
  }

  // ------------------------------------------------------- removing junctions

  predicate IsJunction(g: Graph, k: int) {
    k in g.info && g.info[k].Attrs? && g.info[k].ntype == JUNCTION
  }

  /** A pass over the nodes: the graph so far and the nodes marked for removal. */
  datatype Pass = Pass(g: Graph, removed: seq<int>)

  /** The body of the junction loop for node `k`. */
  function JunctionStep(p: Pass, k: int): Result<Pass> {
    var t :- TypeOf(p.g, k);
    if t == JUNCTION then
      var h :- JunctionMerge(p.g, k);
      Ok(Pass(h, p.removed + [k]))
    else Ok(p)
  }

  /** The junction loop over the nodes `ks`, in order. */
  function Junctions(p: Pass, ks: seq<int>): Result<Pass>
    decreases |ks|
  {
    if ks == [] then Ok(p)
    else
      var q :- Junctions(p, ks[..|ks| - 1]);
      JunctionStep(q, ks[|ks| - 1])
  }

  /** What the junction loop over `ks` leaves: the nodes and the old links
      kept, every visited node typed, and exactly the junctions marked. */
  ghost predicate JunctionsDone(g: Graph, ks: seq<int>, p: Pass)
    requires forall k :: k in ks ==> k in g.info
  {
    Valid(p.g) && p.g.order == g.order && p.g.info == g.info &&
    (NonEmptyIds(g) ==> NonEmptyIds(p.g)) &&
    (forall e :: e in g.ids ==> e in p.g.ids && p.g.ids[e] == g.ids[e]) &&
    (forall k :: k in ks ==> g.info[k].Attrs?) &&
    Distinct(p.removed) && (forall k :: k in p.removed <==> k in ks && IsJunction(g, k))
  }

  /** The junction loop keeps the nodes and the old links, every node it
      visits must be typed, and it marks exactly the junctions. */
  lemma {:induction false} JunctionsFacts(g: Graph, ks: seq<int>)
    requires Valid(g) && Distinct(ks) && forall k :: k in ks ==> k in g.info
    ensures var r := Junctions(Pass(g, []), ks);
      (r.Ok? ==> JunctionsDone(g, ks, r.value)) &&
      (r.Err? ==> r.error in {KeyError("type"), ValueError(MULTI_MSG), ValueError(DUPLICATE_MSG), IndexError})
    decreases |ks|
  {
    if ks != [] {
      var ks' := ks[..|ks| - 1];
      JunctionsFacts(g, ks');
      var r' := Junctions(Pass(g, []), ks');
      if r'.Ok? {
        JunctionStepFacts(g, ks', ks[|ks| - 1], r'.value);
        assert ks == ks' + [ks[|ks| - 1]];
      }
    }
  }

  lemma JunctionStepFacts(g: Graph, ks: seq<int>, k: int, q: Pass)
    requires Valid(g) && (forall x :: x in ks ==> x in g.info) && k in g.info && k !in ks
    requires JunctionsDone(g, ks, q)
    ensures var r := JunctionStep(q, k);
      (r.Ok? ==> JunctionsDone(g, ks + [k], r.value)) &&
      (r.Err? ==> r.error in {KeyError("type"), ValueError(MULTI_MSG), ValueError(DUPLICATE_MSG), IndexError})
  {
    if g.info[k].Attrs? && g.info[k].ntype == JUNCTION {
      assert TypeOf(q.g, k) == Ok(JUNCTION);
      JunctionMergeKeeps(q.g, k);
      var h := JunctionMerge(q.g, k);
      if h.Ok? {
        JunctionMarked(g, ks, k, q, h.value);
      }
    } else if g.info[k].Attrs? {
      JunctionSkipped(g, ks, k, q);
    }
  }

  lemma JunctionSkipped(g: Graph, ks: seq<int>, k: int, q: Pass)
    requires (forall x :: x in ks ==> x in g.info) && k in g.info && g.info[k].Attrs? && !IsJunction(g, k)
    requires JunctionsDone(g, ks, q)
    ensures JunctionsDone(g, ks + [k], q)
  {
    assert forall x :: x in ks + [k] <==> x in ks || x == k;
  }

  lemma JunctionMarked(g: Graph, ks: seq<int>, k: int, q: Pass, h: Graph)
    requires (forall x :: x in ks ==> x in g.info) && IsJunction(g, k) && k !in ks
    requires JunctionsDone(g, ks, q)
    requires Valid(h) && h.order == q.g.order && h.info == q.g.info
    requires forall e :: e in q.g.ids ==> e in h.ids && h.ids[e] == q.g.ids[e]
    requires NonEmptyIds(q.g) ==> NonEmptyIds(h)
    ensures JunctionsDone(g, ks + [k], Pass(h, q.removed + [k]))
  {
    assert forall x :: x in ks + [k] <==> x in ks || x == k;
    DistinctSnoc(q.removed, k);
  }

  /** What the junction loop needs of one merge. */
  lemma JunctionMergeKeeps(g: Graph, j: int)
    requires Valid(g)
    ensures var r := JunctionMerge(g, j);
      (r.Err? ==> r.error in {ValueError(MULTI_MSG), ValueError(DUPLICATE_MSG), IndexError}) &&
      (r.Ok? ==> Valid(r.value) && r.value.order == g.order && r.value.info == g.info) &&
      (r.Ok? ==> forall e :: e in g.ids ==> e in r.value.ids && r.value.ids[e] == g.ids[e]) &&
      (r.Ok? && NonEmptyIds(g) ==> NonEmptyIds(r.value))
  {
    JunctionMergeFacts(g, j);
    var r := JunctionMerge(g, j);
    if r.Ok? && NonEmptyIds(g) {
      forall e | e in r.value.ids ensures |r.value.ids[e]| > 0 {
        if e !in g.ids {
          var i, o := e.0, e.1;
          assert i in Pred(g, j) && o in Succ(g, j);
        }
      }
    }
  }

  /** The node at place `n` of `ks` is not in the graph or was listed before. */
  predicate Unremovable(ks: seq<int>, info: map<int, NodeInfo>, n: nat)
    requires n < |ks|
  {
    ks[n] !in info || ks[n] in ks[..n]
  }

  /** `G.remove_node(k)` for each `k` of `ks` in turn. */
  function RemoveNodes(g: Graph, ks: seq<int>): Result<Graph>
    decreases |ks|
  {
    if ks == [] then Ok(g)
    else
      var h :- RemoveNodes(g, ks[..|ks| - 1]);
      RemoveNode(h, ks[|ks| - 1])
  }

  /** Removing a list of nodes succeeds exactly when no node is listed twice
      and every one is in the graph; it leaves the other nodes and the links
      between them as they were. */
  lemma RemoveNodesFacts(g: Graph, ks: seq<int>)
    requires Valid(g)
    ensures var r := RemoveNodes(g, ks);
      (r.Ok? <==> Distinct(ks) && forall k :: k in ks ==> k in g.info) &&
      (r.Ok? ==> Valid(r.value)) &&
      (r.Ok? ==> forall k :: k in r.value.info <==> k in g.info && k !in ks) &&
      (r.Ok? ==> forall k :: k in r.value.info ==> r.value.info[k] == g.info[k]) &&
      (r.Ok? ==> forall e :: e in r.value.ids <==> e in g.ids && e.0 !in ks && e.1 !in ks) &&
      (r.Ok? ==> forall e :: e in r.value.ids ==> r.value.ids[e] == g.ids[e]) &&
      (r.Err? ==> exists n :: 0 <= n < |ks| && r.error == MissingNode(ks[n]) && Unremovable(ks, g.info, n))
  {
    RemoveNodesOk(g, ks);
    RemoveNodesKept(g, ks);
    RemoveNodesFailure(g, ks);
  }

  /** When the removal succeeds: exactly when no node is listed twice and
      every one is in the graph. */
  lemma {:induction false} RemoveNodesOk(g: Graph, ks: seq<int>)
    requires Valid(g)
    ensures RemoveNodes(g, ks).Ok? <==> Distinct(ks) && forall k :: k in ks ==> k in g.info
    decreases |ks|
  {
    if ks != [] {
      var ks' := ks[..|ks| - 1];
      var k := ks[|ks| - 1];
      assert forall x :: x in ks <==> x in ks' || x == k;
      RemoveNodesOk(g, ks');
      RemoveNodesKept(g, ks');
    }
  }

  /** What a successful removal leaves: the other nodes and the links
      between them, as they were. */
  lemma {:induction false} RemoveNodesKept(g: Graph, ks: seq<int>)
    requires Valid(g)
    ensures var r := RemoveNodes(g, ks);
      (r.Ok? ==> Valid(r.value)) &&
      (r.Ok? ==> forall k :: k in r.value.info <==> k in g.info && k !in ks) &&
      (r.Ok? ==> forall k :: k in r.value.info ==> r.value.info[k] == g.info[k]) &&
      (r.Ok? ==> forall e :: e in r.value.ids <==> e in g.ids && e.0 !in ks && e.1 !in ks) &&
      (r.Ok? ==> forall e :: e in r.value.ids ==> r.value.ids[e] == g.ids[e])
    decreases |ks|
  {
    if ks != [] {
      var ks' := ks[..|ks| - 1];
      var k := ks[|ks| - 1];
      assert forall x :: x in ks <==> x in ks' || x == k;
      RemoveNodesKept(g, ks');
    }
  }

  /** A failed removal names a node listed that is missing, or listed
      before. */
  lemma {:induction false} RemoveNodesFailure(g: Graph, ks: seq<int>)
    requires Valid(g)
    ensures RemoveNodes(g, ks).Err? ==>
      exists n :: 0 <= n < |ks| && RemoveNodes(g, ks).error == MissingNode(ks[n]) && Unremovable(ks, g.info, n)
    decreases |ks|
  {
    if ks != [] {
      var ks' := ks[..|ks| - 1];
      var k := ks[|ks| - 1];
      RemoveNodesFailure(g, ks');
      if RemoveNodes(g, ks').Err? {
        var n :| 0 <= n < |ks'| && RemoveNodes(g, ks').error == MissingNode(ks'[n]) && Unremovable(ks', g.info, n);
        assert ks'[..n] == ks[..n];
        assert ks'[n] == ks[n];
      } else if RemoveNodes(g, ks).Err? {
        RemoveNodesKept(g, ks');
        assert ks[..|ks| - 1] == ks';
        assert Unremovable(ks, g.info, |ks| - 1);
      }
    }
  }

  /** A node listed twice is missing the second time. */
  lemma RemovedTwice(g: Graph, k: int)
    requires k in g.info
    ensures RemoveNodes(g, [k, k]) == Err(MissingNode(k))
    ensures RemoveNodes(g, [k] + [k]) == Err(MissingNode(k))
  {
    assert [k] + [k] == [k, k];
    assert [k, k][..1] == [k] && [k][..0] == [];
    assert RemoveNodes(g, [k]) == RemoveNode(g, k);
  }

  /** Listed twice and deduplicated, a node is removed once. */
  lemma RemovedOnce(g: Graph, k: int)
    ensures Dedup([k, k]) == [k]
    ensures RemoveNodes(g, [k]) == RemoveNode(g, k)
    ensures RemoveNodes(g, Dedup([k] + [k])) == RemoveNode(g, k)
  {
    DedupTwice(k);
    assert [k][..0] == [];
    assert [k] + [k] == [k, k];
  }

  lemma DedupTwice(k: int)
    ensures Dedup([k, k]) == [k]
  {
    assert [k][..0] == [];
    assert Dedup([k]) == [] + [k] == [k];
    assert [k, k][..1] == [k];
  }

  /** `ks` without its repetitions, first occurrences kept in order. */
  function Dedup(ks: seq<int>): (r: seq<int>)
    ensures Distinct(r) && forall k :: k in r <==> k in ks
  {
    if ks == [] then []
    else
      var rest := Dedup(ks[..|ks| - 1]);
      var k := ks[|ks| - 1];
      assert forall x :: x in ks <==> x in ks[..|ks| - 1] || x == k;
      if k in rest then rest
      else
        DistinctSnoc(rest, k);
        rest + [k]
  }

  /** A list without repetitions is its own deduplication. */
  lemma {:induction false} DedupDistinct(ks: seq<int>)
    requires Distinct(ks)
    ensures Dedup(ks) == ks
    decreases |ks|
  {
    if ks != [] {
      DedupDistinct(ks[..|ks| - 1]);
    }
  }

  /** Whenever removing a list succeeds, removing it deduplicated gives the
      same graph: the deduplication changes only lists that fail. */
  lemma RemoveNodesDedup(g: Graph, ks: seq<int>)
    requires Valid(g)
    ensures RemoveNodes(g, ks).Ok? ==> RemoveNodes(g, Dedup(ks)) == RemoveNodes(g, ks)
  {
    RemoveNodesOk(g, ks);
    if RemoveNodes(g, ks).Ok? {
      DedupDistinct(ks);
    }
  }

  /** The first phase: merge across every junction, then remove them. */
  function JunctionPhase(g: Graph): Result<Graph> {
    var p :- Junctions(Pass(g, []), g.order);
    RemoveNodes(p.g, p.removed)
  }

  /** After the first phase no junction is left, every other node is kept,
      and the links between non-junctions are kept with their ids. */
  lemma JunctionPhaseFacts(g: Graph)
    requires Valid(g)
    ensures var r := JunctionPhase(g);
      (r.Ok? <==> Junctions(Pass(g, []), g.order).Ok?) &&
      (r.Ok? ==> Valid(r.value)) &&
      (r.Ok? && NonEmptyIds(g) ==> NonEmptyIds(r.value)) &&
      (r.Ok? ==> forall k :: k in g.info ==> g.info[k].Attrs?) &&
      (r.Ok? ==> forall k :: k in r.value.info <==> k in g.info && !IsJunction(g, k)) &&
      (r.Ok? ==> forall k :: k in r.value.info ==> r.value.info[k] == g.info[k]) &&
      (r.Ok? ==> forall e :: e in g.ids && !IsJunction(g, e.0) && !IsJunction(g, e.1) ==>
        e in r.value.ids && r.value.ids[e] == g.ids[e]) &&
      (r.Ok? ==> forall e :: e in r.value.ids ==> !IsJunction(g, e.0) && !IsJunction(g, e.1)) &&
      (r.Err? ==> r.error in {KeyError("type"), ValueError(MULTI_MSG), ValueError(DUPLICATE_MSG), IndexError})
  {
    JunctionsFacts(g, g.order);
    var p := Junctions(Pass(g, []), g.order);
    if p.Ok? {
      RemoveNodesFacts(p.value.g, p.value.removed);
    }
  }

  /** The junction loop, node by node. */
  method MergeJunctions(g: Graph) returns (r: Result<Pass>)
    ensures r == Junctions(Pass(g, []), g.order)
  {
    var p := Pass(g, []);
    var n := 0;
    while n < |g.order|
      invariant 0 <= n <= |g.order|
      invariant Junctions(Pass(g, []), g.order[..n]) == Ok(p)
    {
      var k := g.order[n];
      assert g.order[..n + 1][..n] == g.order[..n];
      var t := TypeOf(p.g, k);
      if t.Err? {
        JunctionsErr(Pass(g, []), g.order, n + 1);
        return Err(t.error);
      }
      if t.value == JUNCTION {
        var h := MergeJunction(p.g, k);
        if h.Err? {
          JunctionsErr(Pass(g, []), g.order, n + 1);
          return Err(h.error);
        }
        p := Pass(h.value, p.removed + [k]);
      }
      n := n + 1;
    }
    assert g.order[..n] == g.order;
    return Ok(p);
  }

  lemma {:induction false} JunctionsErr(p: Pass, ks: seq<int>, k: nat)
    requires k <= |ks| && Junctions(p, ks[..k]).Err?
    ensures Junctions(p, ks) == Junctions(p, ks[..k])
    decreases |ks|
  {
    if k < |ks| {
      var init := ks[..|ks| - 1];
      assert init[..k] == ks[..k];
      JunctionsErr(p, init, k);
    } else {
      assert ks[..k] == ks;
    }
  }

  /** `G.remove_node` for each listed node. */
  method RemoveAll(g: Graph, ks: seq<int>) returns (r: Result<Graph>)
    ensures r == RemoveNodes(g, ks)
  {
    var cur := g;
    var n := 0;
    while n < |ks|
      invariant 0 <= n <= |ks|
      invariant RemoveNodes(g, ks[..n]) == Ok(cur)
    {
      assert ks[..n + 1][..n] == ks[..n];
      var h := RemoveNode(cur, ks[n]);
      if h.Err? {
        RemoveNodesErr(g, ks, n + 1);
        return h;
      }
      cur := h.value;
      n := n + 1;
    }
    assert ks[..n] == ks;
    return Ok(cur);
  }

  lemma {:induction false} RemoveNodesErr(g: Graph, ks: seq<int>, k: nat)
    requires k <= |ks| && RemoveNodes(g, ks[..k]).Err?
    ensures RemoveNodes(g, ks) == RemoveNodes(g, ks[..k])
    decreases |ks|
  {
    if k < |ks| {
      var init := ks[..|ks| - 1];
      assert init[..k] == ks[..k];
      RemoveNodesErr(g, init, k);
    } else {
      assert ks[..k] == ks;
    }
  }
}

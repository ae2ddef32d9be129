/** The relabelling of the simplified Delwaq network: Basins are numbered
    1, 2, ... and the boundary nodes -1, -2, ... in node order, and the
    graph is renamed along that numbering. */
module DelwaqNumbering {
  import opened Common
  import opened DiGraph
  import opened DelwaqGraph
  import opened DelwaqCycles
  import Strings

  const BASIN := "Basin"
  const BOUNDARY_TYPES := [TERMINAL, USER_DEMAND, "LevelBoundary", "FlowBoundary"]

  predicate IsBoundary(g: Graph, k: int) {
    k in g.info && g.info[k].Attrs? && g.info[k].ntype in BOUNDARY_TYPES
  }

  /** A node the relabelling accepts. */
  predicate Numberable(g: Graph, k: int) {
    IsType(g, k, BASIN) || IsBoundary(g, k)
  }

  /** The counters and mappings of the relabelling loop: `basinId` and
      `boundaryId` as last handed out, `nodeMap` from node to number and
      `basinMap` from a Basin's original id to its number. */
  datatype Numbering = Numbering(basinId: int, boundaryId: int,
                                 nodeMap: map<int, int>, basinMap: map<int, int>)

  function Unexpected(k: int): Exception {
    ValueError("Found unexpected node " + Strings.IntToString(k) + " in delwaq graph.")
  }

  /** The error the relabelling raises at a node it does not accept. */
  function NumberError(g: Graph, k: int): Exception
    requires k in g.info
  {
    if g.info[k].Attrs? then Unexpected(k) else KeyError("type")
  }

  /** The body of the relabelling loop for node `k`. */
  function NumberStep(g: Graph, s: Numbering, k: int): Result<Numbering> {
    var t :- TypeOf(g, k);
    if t == BASIN then
      var n := s.basinId + 1;
      Ok(Numbering(n, s.boundaryId, s.nodeMap[k := n], s.basinMap[g.info[k].origId := n]))
    else if t in BOUNDARY_TYPES then
      var n := s.boundaryId - 1;
      Ok(Numbering(s.basinId, n, s.nodeMap[k := n], s.basinMap))
    else Err(Unexpected(k))
  }

  /** The relabelling loop over the nodes `ks`, in order. */
  function Numbered(g: Graph, ks: seq<int>): Result<Numbering>
    decreases |ks|
  {
    if ks == [] then Ok(Numbering(0, 0, map[], map[]))
    else
      var s :- Numbered(g, ks[..|ks| - 1]);
      NumberStep(g, s, ks[|ks| - 1])
  }

  /** Every typed node's original id is its own key, as the graph is built. */
  predicate OrigIdsAreKeys(g: Graph) {
    forall k :: k in g.info && g.info[k].Attrs? ==> g.info[k].origId == k
  }

  /** Every numbered Basin has a number in 1..`basinId`, every numbered
      boundary node one in `boundaryId`..-1. */
  ghost predicate Ranked(g: Graph, s: Numbering) {
    forall k :: k in s.nodeMap ==>
      (IsType(g, k, BASIN) && 1 <= s.nodeMap[k] <= s.basinId) ||
      (IsBoundary(g, k) && s.boundaryId <= s.nodeMap[k] <= -1)
  }

  /** Every number in 1..`basinId` and in `boundaryId`..-1 is taken. */
  ghost predicate Onto(s: Numbering) {
    (forall v :: 1 <= v <= s.basinId ==> Taken(s.nodeMap, v)) &&
    (forall v :: s.boundaryId <= v <= -1 ==> Taken(s.nodeMap, v))
  }

  /** Some node has number `v`. */
  ghost predicate Taken(m: map<int, int>, v: int) {
    exists k :: k in m && m[k] == v
  }

  /** Among the first `n` nodes, later Basins have larger numbers and later
      boundary nodes smaller ones. */
  ghost predicate Ordered(g: Graph, ks: seq<int>, n: nat, nodeMap: map<int, int>)
    requires n <= |ks| && forall i :: 0 <= i < n ==> ks[i] in nodeMap
  {
    BasinsOrdered(g, ks, n, nodeMap) && BoundariesOrdered(g, ks, n, nodeMap)
  }

  ghost predicate BasinsOrdered(g: Graph, ks: seq<int>, n: nat, nodeMap: map<int, int>)
    requires n <= |ks| && forall i :: 0 <= i < n ==> ks[i] in nodeMap
  {
    forall i, j :: 0 <= i < j < n && IsType(g, ks[i], BASIN) && IsType(g, ks[j], BASIN) ==>
      nodeMap[ks[i]] < nodeMap[ks[j]]
  }

  ghost predicate BoundariesOrdered(g: Graph, ks: seq<int>, n: nat, nodeMap: map<int, int>)
    requires n <= |ks| && forall i :: 0 <= i < n ==> ks[i] in nodeMap
  {
    forall i, j :: 0 <= i < j < n && IsBoundary(g, ks[i]) && IsBoundary(g, ks[j]) ==>
      nodeMap[ks[i]] > nodeMap[ks[j]]
  }

  /** With original ids equal to the keys, the Basin map holds exactly the
      Basins seen, with their numbers, one entry per Basin number. */
  ghost predicate BasinMapped(g: Graph, ks: seq<int>, n: nat, s: Numbering)
    requires n <= |ks|
  {
    OrigIdsAreKeys(g) ==>
      (forall k :: k in s.basinMap <==> k in ks[..n] && IsType(g, k, BASIN)) &&
      (forall k :: k in s.basinMap ==> k in s.nodeMap && s.basinMap[k] == s.nodeMap[k]) &&
      |s.basinMap.Keys| == s.basinId
  }

  /** What the loop has built after the first `n` nodes of `ks`: a number for
      each of them, one-to-one onto 1..`basinId` for the Basins and onto
      `boundaryId`..-1 for the boundary nodes, following the node order. */
  ghost predicate NumberInv(g: Graph, ks: seq<int>, n: nat, s: Numbering)
    requires n <= |ks|
  {
    s.basinId >= 0 && s.boundaryId <= 0 &&
    (forall k :: k in s.nodeMap <==> k in ks[..n]) &&
    Ranked(g, s) && Injective(s.nodeMap) && Onto(s) && BasinMapped(g, ks, n, s) &&
    (forall i :: 0 <= i < n ==> ks[i] in s.nodeMap) && Ordered(g, ks, n, s.nodeMap)
  }

  lemma BasinNext(g: Graph, ks: seq<int>, n: nat, s: Numbering)
    requires n < |ks| && ks[n] !in ks[..n] && IsType(g, ks[n], BASIN) && NumberInv(g, ks, n, s)
    ensures var v := s.basinId + 1;
      NumberInv(g, ks, n + 1, Numbering(v, s.boundaryId, s.nodeMap[ks[n] := v],
                                        s.basinMap[g.info[ks[n]].origId := v]))
  {
    var v := s.basinId + 1;
    var s' := Numbering(v, s.boundaryId, s.nodeMap[ks[n] := v], s.basinMap[g.info[ks[n]].origId := v]);
    assert ks[..n + 1] == ks[..n] + [ks[n]];
    assert ks[n] !in s.nodeMap;
    OntoNext(s, s', ks[n], v);
    OrderedNext(g, ks, n, s, s'.nodeMap, v);
    BasinMapNext(g, ks, n, s, s');
  }

  lemma BasinMapNext(g: Graph, ks: seq<int>, n: nat, s: Numbering, s': Numbering)
    requires n < |ks| && ks[n] !in ks[..n] && IsType(g, ks[n], BASIN)
    requires BasinMapped(g, ks, n, s) && (forall k :: k in s.nodeMap <==> k in ks[..n])
    requires s' == Numbering(s.basinId + 1, s.boundaryId, s.nodeMap[ks[n] := s.basinId + 1],
                             s.basinMap[g.info[ks[n]].origId := s.basinId + 1])
    ensures BasinMapped(g, ks, n + 1, s')
  {
    var k := ks[n];
    if OrigIdsAreKeys(g) {
      assert g.info[k].origId == k;
      var v := s.basinId + 1;
      assert s'.basinMap == s.basinMap[k := v];
      BasinKeysNext(g, ks, n, s.basinMap, v);
      BasinValuesNext(s.basinMap, s.nodeMap, s'.basinMap, s'.nodeMap, k, v);
      MapAddKeys(s.basinMap, k, v);
    }
  }

  lemma BasinKeysNext(g: Graph, ks: seq<int>, n: nat, bm: map<int, int>, v: int)
    requires n < |ks| && ks[n] !in ks[..n] && IsType(g, ks[n], BASIN)
    requires forall x :: x in bm <==> x in ks[..n] && IsType(g, x, BASIN)
    ensures ks[n] !in bm
    ensures forall x :: x in bm[ks[n] := v] <==> x in ks[..n + 1] && IsType(g, x, BASIN)
  {
    assert ks[..n + 1] == ks[..n] + [ks[n]];
  }

  lemma BasinValuesNext(bm: map<int, int>, nm: map<int, int>, bm': map<int, int>, nm': map<int, int>, k: int, v: int)
    requires forall x :: x in bm ==> x in nm && bm[x] == nm[x]
    requires bm' == bm[k := v] && nm' == nm[k := v]
    ensures forall x :: x in bm' ==> x in nm' && bm'[x] == nm'[x]
  {
  }

  lemma MapAddKeys(m: map<int, int>, k: int, v: int)
    requires k !in m
    ensures |m[k := v].Keys| == |m.Keys| + 1
  {
    assert m[k := v].Keys == m.Keys + {k};
  }

  lemma BoundaryNext(g: Graph, ks: seq<int>, n: nat, s: Numbering)
    requires n < |ks| && ks[n] !in ks[..n] && IsBoundary(g, ks[n]) && NumberInv(g, ks, n, s)
    ensures var v := s.boundaryId - 1;
      NumberInv(g, ks, n + 1, Numbering(s.basinId, v, s.nodeMap[ks[n] := v], s.basinMap))
  {
    var v := s.boundaryId - 1;
    var s' := Numbering(s.basinId, v, s.nodeMap[ks[n] := v], s.basinMap);
    assert ks[..n + 1] == ks[..n] + [ks[n]];
    assert ks[n] !in s.nodeMap;
    OntoNext(s, s', ks[n], v);
    OrderedNext(g, ks, n, s, s'.nodeMap, v);
  }

  /** The numbers taken before stay taken when a new node gets one. */
  lemma OntoNext(s: Numbering, s': Numbering, k: int, v: int)
    requires Onto(s) && k !in s.nodeMap && s'.nodeMap == s.nodeMap[k := v]
    requires (s'.basinId == s.basinId + 1 && s'.boundaryId == s.boundaryId && v == s'.basinId) ||
             (s'.basinId == s.basinId && s'.boundaryId == s.boundaryId - 1 && v == s'.boundaryId)
    ensures Onto(s')
  {
    forall w | Taken(s.nodeMap, w) ensures Taken(s'.nodeMap, w) {
      var x :| x in s.nodeMap && s.nodeMap[x] == w;
      assert s'.nodeMap[x] == w;
    }
    assert s'.nodeMap[k] == v;
    assert Taken(s'.nodeMap, v);
  }

  /** A new Basin outnumbers the earlier ones, a new boundary node is below
      the earlier ones. */
  lemma OrderedNext(g: Graph, ks: seq<int>, n: nat, s: Numbering, nodeMap: map<int, int>, v: int)
    requires n < |ks| && ks[n] !in ks[..n] && nodeMap == s.nodeMap[ks[n] := v]
    requires (forall i :: 0 <= i < n ==> ks[i] in s.nodeMap) && Ordered(g, ks, n, s.nodeMap) && Ranked(g, s)
    requires IsType(g, ks[n], BASIN) ==> v == s.basinId + 1
    requires IsBoundary(g, ks[n]) ==> v == s.boundaryId - 1
    ensures forall i :: 0 <= i < n + 1 ==> ks[i] in nodeMap
    ensures Ordered(g, ks, n + 1, nodeMap)
  {
    forall i | 0 <= i < n ensures ks[i] != ks[n] && nodeMap[ks[i]] == s.nodeMap[ks[i]] {
      assert ks[i] == ks[..n][i];
    }
    BasinsOrderedNext(g, ks, n, s, nodeMap, v);
    BoundariesOrderedNext(g, ks, n, s, nodeMap, v);
  }

  lemma BasinsOrderedNext(g: Graph, ks: seq<int>, n: nat, s: Numbering, nodeMap: map<int, int>, v: int)
    requires n < |ks| && forall i :: 0 <= i < n ==> ks[i] in s.nodeMap && ks[i] in nodeMap && nodeMap[ks[i]] == s.nodeMap[ks[i]]
    requires ks[n] in nodeMap && BasinsOrdered(g, ks, n, s.nodeMap) && Ranked(g, s)
    requires IsType(g, ks[n], BASIN) ==> nodeMap[ks[n]] == s.basinId + 1
    ensures (forall i :: 0 <= i < n + 1 ==> ks[i] in nodeMap) && BasinsOrdered(g, ks, n + 1, nodeMap)
  {
  }

  lemma BoundariesOrderedNext(g: Graph, ks: seq<int>, n: nat, s: Numbering, nodeMap: map<int, int>, v: int)
    requires n < |ks| && forall i :: 0 <= i < n ==> ks[i] in s.nodeMap && ks[i] in nodeMap && nodeMap[ks[i]] == s.nodeMap[ks[i]]
    requires ks[n] in nodeMap && BoundariesOrdered(g, ks, n, s.nodeMap) && Ranked(g, s)
    requires IsBoundary(g, ks[n]) ==> nodeMap[ks[n]] == s.boundaryId - 1
    ensures (forall i :: 0 <= i < n + 1 ==> ks[i] in nodeMap) && BoundariesOrdered(g, ks, n + 1, nodeMap)
  {
  }

  lemma NumberNext(g: Graph, ks: seq<int>, n: nat, s: Numbering)
    requires n < |ks| && Distinct(ks) && Numberable(g, ks[n]) && NumberInv(g, ks, n, s)
    ensures NumberStep(g, s, ks[n]).Ok?
    ensures NumberInv(g, ks, n + 1, NumberStep(g, s, ks[n]).value)
  {
    DistinctAt(ks, n);
    NumberStepShape(g, s, ks[n]);
    if IsType(g, ks[n], BASIN) {
      BasinNext(g, ks, n, s);
    } else {
      BoundaryNext(g, ks, n, s);
    }
  }

  /** What one step does at a Basin and at a boundary node. */
  lemma NumberStepShape(g: Graph, s: Numbering, k: int)
    requires Numberable(g, k)
    ensures IsType(g, k, BASIN) ==> var v := s.basinId + 1;
      NumberStep(g, s, k) == Ok(Numbering(v, s.boundaryId, s.nodeMap[k := v], s.basinMap[g.info[k].origId := v]))
    ensures !IsType(g, k, BASIN) ==> var v := s.boundaryId - 1;
      NumberStep(g, s, k) == Ok(Numbering(s.basinId, v, s.nodeMap[k := v], s.basinMap))
  {
    assert TypeOf(g, k) == Ok(g.info[k].ntype);
  }

  /** Over the first `n` nodes the relabelling succeeds exactly when each is
      a Basin or a boundary node; it then numbers them as `NumberInv` says,
      and otherwise fails on a node it does not accept. */
  lemma {:induction false} NumberedFacts(g: Graph, ks: seq<int>, n: nat)
    requires n <= |ks| && Distinct(ks) && forall k :: k in ks ==> k in g.info
    ensures var r := Numbered(g, ks[..n]);
      (r.Ok? <==> forall i :: 0 <= i < n ==> Numberable(g, ks[i])) &&
      (r.Ok? ==> NumberInv(g, ks, n, r.value)) &&
      (r.Err? ==> exists i :: 0 <= i < n && !Numberable(g, ks[i]) && r.error == NumberError(g, ks[i]))
  {
    if n == 0 {
      assert ks[..0] == [];
      assert NumberInv(g, ks, 0, Numbering(0, 0, map[], map[]));
    } else {
      assert ks[..n][..n - 1] == ks[..n - 1];
      assert ks[..n][n - 1] == ks[n - 1];
      assert ks[n - 1] in ks;
      NumberedFacts(g, ks, n - 1);
      if Numbered(g, ks[..n - 1]).Ok? && Numberable(g, ks[n - 1]) {
        NumberNext(g, ks, n - 1, Numbered(g, ks[..n - 1]).value);
      }
    }
  }

  /** The relabelling of a graph succeeds exactly when every node is a Basin
      or a boundary node. It then numbers every node, the Basins one-to-one
      onto 1..`basinId` and the boundary nodes onto `boundaryId`..-1, both
      following the node order; with original ids equal to the keys, the
      Basin map has one entry per Basin number. Otherwise it fails on a node
      it does not accept. */
  lemma NumberingFacts(g: Graph)
    requires Valid(g)
    ensures var r := Numbered(g, g.order);
      (r.Ok? <==> forall k :: k in g.info ==> Numberable(g, k)) &&
      (r.Ok? ==>
        (forall k :: k in r.value.nodeMap <==> k in g.info) &&
        Ranked(g, r.value) && Injective(r.value.nodeMap) && Onto(r.value) &&
        (forall i :: 0 <= i < |g.order| ==> g.order[i] in r.value.nodeMap) &&
        Ordered(g, g.order, |g.order|, r.value.nodeMap) &&
        r.value.basinId >= 0 && r.value.boundaryId <= 0 &&
        (OrigIdsAreKeys(g) ==>
          (forall k :: k in r.value.basinMap <==> k in g.info && IsType(g, k, BASIN)) &&
          (forall k :: k in r.value.basinMap ==> r.value.basinMap[k] == r.value.nodeMap[k]) &&
          |r.value.basinMap.Keys| == r.value.basinId)) &&
      (r.Err? ==> exists k :: k in g.info && !Numberable(g, k) && r.error == NumberError(g, k))
  {
    var ks := g.order;
    assert ks[..|ks|] == ks;
    NumberedFacts(g, ks, |ks|);
    assert forall k :: k in g.info ==> exists i :: 0 <= i < |ks| && ks[i] == k;
  }

  lemma {:induction false} NumberedErr(g: Graph, ks: seq<int>, k: nat)
    requires k <= |ks| && Numbered(g, ks[..k]).Err?
    ensures Numbered(g, ks) == Numbered(g, ks[..k])
    decreases |ks|
  {
    if k < |ks| {
      var init := ks[..|ks| - 1];
      assert init[..k] == ks[..k];
      NumberedErr(g, init, k);
    } else {
      assert ks[..k] == ks;
    }
  }

  /** The relabelling loop over the nodes of `g`. */
  method NumberNodes(g: Graph) returns (r: Result<Numbering>)
    ensures r == Numbered(g, g.order)
  {
    r := NumberLoop(g, g.order);
  }

  /** The relabelling loop over the nodes `ks`. */
  method NumberLoop(g: Graph, ks: seq<int>) returns (r: Result<Numbering>)
    ensures r == Numbered(g, ks)
  {
    var s := Numbering(0, 0, map[], map[]);
    var n := 0;
    while n < |ks|
      invariant 0 <= n <= |ks|
      invariant Numbered(g, ks[..n]) == Ok(s)
    {
      NumberedNext(g, ks, n, s);
      var next := NumberOne(g, s, ks[n]);
      if next.Err? {
        NumberedErr(g, ks, n + 1);
        return next;
      }
      s := next.value;
      n := n + 1;
    }
    assert ks[..n] == ks;
    return Ok(s);
  }

  lemma NumberedNext(g: Graph, ks: seq<int>, n: nat, s: Numbering)
    requires n < |ks| && Numbered(g, ks[..n]) == Ok(s)
    ensures Numbered(g, ks[..n + 1]) == NumberStep(g, s, ks[n])
  {
    assert ks[..n + 1][..n] == ks[..n];
  }

  /** The loop body for node `k`: a Basin takes the next Basin number, a
      boundary node the next boundary number, anything else fails. */
  method NumberOne(g: Graph, s: Numbering, k: int) returns (r: Result<Numbering>)
    ensures r == NumberStep(g, s, k)
  {
    if k !in g.info || g.info[k].Implicit? {
      return Err(TypeOf(g, k).error);
    }
    var t := g.info[k].ntype;
    if t == BASIN {
      var basinId := s.basinId + 1;
      return Ok(Numbering(basinId, s.boundaryId, s.nodeMap[k := basinId], s.basinMap[g.info[k].origId := basinId]));
    } else if t in BOUNDARY_TYPES {
      var boundaryId := s.boundaryId - 1;
      return Ok(Numbering(s.basinId, boundaryId, s.nodeMap[k := boundaryId], s.basinMap));
    }
    return Err(Unexpected(k));
  }

  /** No two keys of `m` share a value. */
  predicate Injective(m: map<int, int>) {
    forall a, b :: a in m && b in m && a != b ==> m[a] != m[b]
  }

  function RenameSeq(s: seq<int>, m: map<int, int>): (r: seq<int>)
    requires forall i :: 0 <= i < |s| ==> s[i] in m
    ensures |r| == |s| && forall i :: 0 <= i < |s| ==> r[i] == m[s[i]]
  {
    if s == [] then [] else RenameSeq(s[..|s| - 1], m) + [m[s[|s| - 1]]]
  }

  function RenameLink(e: Link, m: map<int, int>): Link
    requires e.0 in m && e.1 in m
  {
    (m[e.0], m[e.1])
  }

  function RenameLinks(s: seq<Link>, m: map<int, int>): (r: seq<Link>)
    requires forall i :: 0 <= i < |s| ==> s[i].0 in m && s[i].1 in m
    ensures |r| == |s| && forall i :: 0 <= i < |s| ==> r[i] == RenameLink(s[i], m)
  {
    if s == [] then [] else RenameLinks(s[..|s| - 1], m) + [RenameLink(s[|s| - 1], m)]
  }

  /** `m` renames every node of `g` one-to-one. */
  predicate Renames(g: Graph, m: map<int, int>) {
    Injective(m) && (forall k :: k in g.info ==> k in m) &&
    (forall e :: e in g.ids ==> e.0 in m && e.1 in m) &&
    (forall i :: 0 <= i < |g.order| ==> g.order[i] in m) &&
    (forall i :: 0 <= i < |g.links| ==> g.links[i].0 in m && g.links[i].1 in m)
  }

  /** A map defined on every node of a valid graph covers its orders and links. */
  lemma RenamesValid(g: Graph, m: map<int, int>)
    requires Valid(g) && Injective(m) && forall k :: k in g.info ==> k in m
    ensures Renames(g, m)
  {
    forall i | 0 <= i < |g.order| ensures g.order[i] in m {
      var k := g.order[i];
      assert k in g.order;
      assert k in g.info;
      assert k in m;
    }
    forall i | 0 <= i < |g.links| ensures g.links[i].0 in m && g.links[i].1 in m {
      var e := g.links[i];
      assert e in g.links;
      assert e in g.ids;
      var a, b := e.0, e.1;
      assert a in g.info && b in g.info;
    }
  }

  /** Renaming both ends one-to-one renames links one-to-one. */
  lemma RenameLinkInjective(g: Graph, m: map<int, int>)
    requires Renames(g, m)
    ensures forall e, f :: e in g.ids && f in g.ids && RenameLink(e, m) == RenameLink(f, m) ==> e == f
  {
    forall e, f | e in g.ids && f in g.ids && RenameLink(e, m) == RenameLink(f, m) ensures e == f {
      var a, b, c, d := e.0, e.1, f.0, f.1;
      assert a in m && b in m && c in m && d in m;
      assert m[a] == m[c] && m[b] == m[d];
    }
  }

  /** `nx.relabel_nodes(G, m)` with `m` defined on every node and one-to-one. */
  function Relabel(g: Graph, m: map<int, int>): Graph
    requires Renames(g, m)
  {
    RenameLinkInjective(g, m);
    Graph(RenameSeq(g.order, m), map k | k in g.info :: m[k] := g.info[k],
          RenameLinks(g.links, m), map e | e in g.ids :: RenameLink(e, m) := g.ids[e])
  }

  lemma {:induction false} RenameDistinct(s: seq<int>, m: map<int, int>)
    requires Distinct(s) && Injective(m) && forall i :: 0 <= i < |s| ==> s[i] in m
    ensures Distinct(RenameSeq(s, m))
    decreases |s|
  {
    if s != [] {
      var s' := s[..|s| - 1];
      var k := s[|s| - 1];
      RenameDistinct(s', m);
      var r' := RenameSeq(s', m);
      DistinctAt(s, |s| - 1);
      forall i | 0 <= i < |r'| ensures r'[i] != m[k] {
        assert s'[i] != k;
      }
      DistinctSnoc(r', m[k]);
    }
  }

  lemma {:induction false} RenameLinksDistinct(s: seq<Link>, m: map<int, int>)
    requires Distinct(s) && Injective(m) && forall i :: 0 <= i < |s| ==> s[i].0 in m && s[i].1 in m
    ensures Distinct(RenameLinks(s, m))
    decreases |s|
  {
    if s != [] {
      var s' := s[..|s| - 1];
      var e := s[|s| - 1];
      RenameLinksDistinct(s', m);
      var r' := RenameLinks(s', m);
      DistinctAt(s, |s| - 1);
      forall i | 0 <= i < |r'| ensures r'[i] != RenameLink(e, m) {
        assert s'[i] != e;
        assert s'[i].0 != e.0 || s'[i].1 != e.1;
      }
      DistinctSnoc(r', RenameLink(e, m));
    }
  }

  /** Relabelling renames every node one-to-one, keeping its attributes
      and the node order. */
  lemma RelabelNodes(g: Graph, m: map<int, int>)
    requires Valid(g) && Renames(g, m)
    ensures var h := Relabel(g, m);
      ValidNodes(h.order, h.info) &&
      (forall k :: k in g.info ==> m[k] in h.info && h.info[m[k]] == g.info[k]) &&
      (forall x :: x in h.info ==> exists k :: k in g.info && m[k] == x) &&
      |h.order| == |g.order| && (forall i :: 0 <= i < |g.order| ==> h.order[i] == m[g.order[i]])
  {
    var h := Relabel(g, m);
    RenameDistinct(g.order, m);
    forall k | k in h.order ensures k in h.info {
      var i :| 0 <= i < |h.order| && h.order[i] == k;
      var k0 := g.order[i];
      assert k0 in g.order;
      assert k0 in g.info;
      assert m[k0] in h.info;
    }
    forall x | x in h.info ensures x in h.order {
      var k :| k in g.info && m[k] == x;
      var i :| 0 <= i < |g.order| && g.order[i] == k;
      assert h.order[i] == x;
    }
  }

  /** Relabelling renames every link along the nodes, keeping its ids. */
  lemma RelabelIds(g: Graph, m: map<int, int>)
    requires Renames(g, m)
    ensures var h := Relabel(g, m);
      (forall e :: e in g.ids ==> RenameLink(e, m) in h.ids && h.ids[RenameLink(e, m)] == g.ids[e]) &&
      (forall f :: f in h.ids ==> exists e :: e in g.ids && RenameLink(e, m) == f)
  {
    RenameLinkInjective(g, m);
  }

  /** Relabelling keeps the link order, renamed, and the link invariants. */
  lemma RelabelLinks(g: Graph, m: map<int, int>)
    requires Valid(g) && Renames(g, m)
    ensures var h := Relabel(g, m);
      ValidLinks(h.links, h.ids, h.info) &&
      |h.links| == |g.links| && (forall i :: 0 <= i < |g.links| ==> h.links[i] == RenameLink(g.links[i], m))
  {
    RenameLinksDistinct(g.links, m);
    RelabeledLinksKnown(g, m);
    RelabeledIdsLinked(g, m);
  }

  lemma RelabeledLinksKnown(g: Graph, m: map<int, int>)
    requires Valid(g) && Renames(g, m)
    ensures var h := Relabel(g, m); forall f :: f in h.links ==> f in h.ids
  {
    var h := Relabel(g, m);
    forall f | f in h.links ensures f in h.ids {
      var i :| 0 <= i < |h.links| && h.links[i] == f;
      RenamedAt(g, m, i);
    }
  }

  lemma RelabeledIdsLinked(g: Graph, m: map<int, int>)
    requires Valid(g) && Renames(g, m)
    ensures var h := Relabel(g, m); forall f :: f in h.ids ==> f in h.links && f.0 in h.info && f.1 in h.info
  {
    var h := Relabel(g, m);
    RelabelIds(g, m);
    forall f | f in h.ids ensures f in h.links && f.0 in h.info && f.1 in h.info {
      var e :| e in g.ids && RenameLink(e, m) == f;
      RenamedLink(g, m, e);
    }
  }

  lemma RenamedAt(g: Graph, m: map<int, int>, i: nat)
    requires Valid(g) && Renames(g, m) && i < |g.links|
    ensures RenameLink(g.links[i], m) in Relabel(g, m).ids
  {
    RelabelIds(g, m);
    var e := g.links[i];
    assert e in g.links;
    assert e in g.ids;
  }

  lemma RenamedLink(g: Graph, m: map<int, int>, e: Link)
    requires Valid(g) && Renames(g, m) && e in g.ids
    ensures var h := Relabel(g, m);
      RenameLink(e, m) in h.links && m[e.0] in h.info && m[e.1] in h.info
  {
    var h := Relabel(g, m);
    assert e in g.links;
    var i :| 0 <= i < |g.links| && g.links[i] == e;
    assert h.links[i] == RenameLink(e, m);
    var a, b := e.0, e.1;
    assert a in g.info && b in g.info;
    assert m[a] in h.info && m[b] in h.info;
  }
}

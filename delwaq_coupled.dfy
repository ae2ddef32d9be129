/** The older Delwaq coupling script's network set-up: the same graph as the
    current exporter but without any node whose type mentions "Control",
    connector nodes bypassed through their single inflow neighbour, the
    UserDemand 2-cycles folded, Basins and boundaries numbered, and per Basin
    a Drainage and a Precipitation boundary and, with evaporation, an
    Evaporation boundary. */
module DelwaqCoupled {
  import opened Common
  import opened DiGraph
  import opened DelwaqGraph
  import opened DelwaqBypass
  import opened DelwaqCycles
  import opened DelwaqNumbering
  import opened DelwaqBoundaries
  import opened DelwaqGenerate
  import Strings

  /** The script exchanges evaporation with a boundary. */
  const USE_EVAP := true

  // ------------------------------------------------------------------ names

  /** `make_boundary`: the type cut to 9 characters, `_`, and the id. */
  function MakeBoundary(id: int, ntype: string): string {
    Take(ntype, 9) + "_" + Strings.IntToString(id)
  }

  /** The name splits at its last `_` into the cut type and the text of the
      id, which reads back as the id. */
  lemma MakeBoundaryParts(id: int, ntype: string)
    ensures var name := MakeBoundary(id, ntype);
      var k := Strings.RFindChar(name, '_');
      k == |Take(ntype, 9)| && k <= 9 && name[..k] == Take(ntype, 9) &&
      Strings.ParseInt(name[k + 1..]) == Strings.ParsedInt.Int(id)
  {
    var p := Take(ntype, 9);
    var d := Strings.IntToString(id);
    NoUnderscoreInNumber(id);
    LastUnderscore(p, d);
    var name := p + "_" + d;
    assert name[..|p|] == p && name[|p| + 1..] == d;
    Strings.ParseIntToString(id);
  }

  /** For a type without underscores the older name is the current one. */
  lemma MakeBoundaryIsBoundaryName(id: int, ntype: string)
    requires '_' !in ntype
    ensures MakeBoundary(id, ntype) == BoundaryName(id, ntype)
  {
    Strings.ReplaceDropChar(ntype, '_');
    Strings.DropCharAbsent(ntype, '_');
  }

  /** The names differ for a type with an underscore within its first 9
      characters. */
  lemma MakeBoundaryKeepsUnderscore(id: int, ntype: string)
    requires '_' in Take(ntype, 9)
    ensures MakeBoundary(id, ntype) != BoundaryName(id, ntype)
  {
    BoundaryNameParts(id, ntype);
    MakeBoundaryParts(id, ntype);
  }

  // ------------------------------------------------------------- boundaries

  /** The kinds added per Basin, in the order they are added. */
  function CoupledKinds(useEvap: bool): (ks: seq<Kind>)
    ensures |ks| == if useEvap then 3 else 2
    ensures ks[..2] == [DRAINAGE, PRECIPITATION]
    ensures EVAPORATION in ks <==> useEvap
    ensures SURFACE_RUNOFF !in ks && INFILTRATION !in ks
    ensures forall i :: 0 <= i < |ks| ==> IsKindType(ks[i].ntype)
  {
    [DRAINAGE, PRECIPITATION] + if useEvap then [EVAPORATION] else []
  }

  /** The boundary loop's body: the link of a Basin's first boundary names
      `edge_id`, which is unassigned unless a connector node was bypassed
      towards some node. */
  function CoupledBasinStep(s: Growth, k: int, kinds: seq<Kind>, bound: bool): Result<Growth> {
    var t :- TypeOf(s.g, k);
    if t == BASIN then
      if bound then Ok(AttachAll(s, k, s.g.info[k].origId, kinds)) else Err(NameError("edge_id"))
    else Ok(s)
  }

  function CoupledBoundaries(s: Growth, ks: seq<int>, kinds: seq<Kind>, bound: bool): Result<Growth>
    decreases |ks|
  {
    if ks == [] then Ok(s)
    else
      var q :- CoupledBoundaries(s, ks[..|ks| - 1], kinds, bound);
      CoupledBasinStep(q, ks[|ks| - 1], kinds, bound)
  }

  /** Some node of `ks` is a Basin. */
  predicate HasBasin(g: Graph, ks: seq<int>) {
    exists i :: 0 <= i < |ks| && IsType(g, ks[i], BASIN)
  }

  /** With `edge_id` assigned the loop is the current one; without, it
      fails with a NameError exactly at the first Basin, and when it does
      not fail it agrees with the current loop. */
  lemma {:induction false} CoupledBoundariesFacts(s: Growth, ks: seq<int>, kinds: seq<Kind>, bound: bool)
    ensures bound ==> CoupledBoundaries(s, ks, kinds, bound) == Boundaries(s, ks, kinds)
    ensures CoupledBoundaries(s, ks, kinds, bound).Ok? ==> CoupledBoundaries(s, ks, kinds, bound) == Boundaries(s, ks, kinds)
    ensures !bound && Boundaries(s, ks, kinds).Ok? ==>
      (CoupledBoundaries(s, ks, kinds, bound).Err? <==> HasBasin(s.g, ks)) &&
      (CoupledBoundaries(s, ks, kinds, bound).Err? ==> CoupledBoundaries(s, ks, kinds, bound).error == NameError("edge_id"))
    ensures !bound && CoupledBoundaries(s, ks, kinds, bound).Ok? ==> CoupledBoundaries(s, ks, kinds, bound) == Ok(s)
    decreases |ks|
  {
    if ks != [] {
      var ks' := ks[..|ks| - 1];
      var k := ks[|ks| - 1];
      CoupledBoundariesFacts(s, ks', kinds, bound);
      assert forall i :: 0 <= i < |ks'| ==> ks'[i] == ks[i];
      if !bound && Boundaries(s, ks, kinds).Ok? {
        assert Boundaries(s, ks', kinds).Ok?;
        assert HasBasin(s.g, ks) <==> HasBasin(s.g, ks') || IsType(s.g, k, BASIN);
      }
    }
  }

  /** The boundaries of one Basin, added one after the other. */
  method AttachCoupled(s: Growth, basin: int, orig: int, useEvap: bool) returns (r: Growth)
    ensures r == AttachAll(s, basin, orig, CoupledKinds(useEvap))
  {
    r := AttachKind(s, basin, orig, DRAINAGE);
    r := AttachKind(r, basin, orig, PRECIPITATION);
    AttachAllSnoc(s, basin, orig, [], DRAINAGE);
    assert [] + [DRAINAGE] == [DRAINAGE];
    AttachAllSnoc(s, basin, orig, [DRAINAGE], PRECIPITATION);
    assert [DRAINAGE] + [PRECIPITATION] == [DRAINAGE, PRECIPITATION];
    if useEvap {
      AttachAllSnoc(s, basin, orig, [DRAINAGE, PRECIPITATION], EVAPORATION);
      r := AttachKind(r, basin, orig, EVAPORATION);
    } else {
      assert CoupledKinds(useEvap) == [DRAINAGE, PRECIPITATION];
    }
  }

  /** The loop over a snapshot of the nodes. */
  method AddCoupledBoundaries(g: Graph, boundaryId: int, useEvap: bool, bound: bool) returns (r: Result<Growth>)
    ensures r == CoupledBoundaries(Growth(g, boundaryId), g.order, CoupledKinds(useEvap), bound)
  {
    r := CoupledLoop(Growth(g, boundaryId), g.order, useEvap, bound);
  }

  /** The loop over the nodes `ks`, from the growth `s0`. */
  method CoupledLoop(s0: Growth, ks: seq<int>, useEvap: bool, bound: bool) returns (r: Result<Growth>)
    ensures r == CoupledBoundaries(s0, ks, CoupledKinds(useEvap), bound)
  {
    ghost var kinds := CoupledKinds(useEvap);
    var cur := s0;
    var n := 0;
    while n < |ks|
      invariant 0 <= n <= |ks|
      invariant CoupledBoundaries(s0, ks[..n], kinds, bound) == Ok(cur)
    {
      assert ks[..n + 1][..n] == ks[..n];
      var next := CoupledStep(cur, ks[n], useEvap, bound);
      if next.Err? {
        CoupledBoundariesErr(s0, ks, kinds, bound, n + 1);
        return next;
      }
      cur := next.value;
      n := n + 1;
    }
    assert ks[..n] == ks;
    return Ok(cur);
  }

  /** One node of the loop. */
  method CoupledStep(cur: Growth, k: int, useEvap: bool, bound: bool) returns (r: Result<Growth>)
    ensures r == CoupledBasinStep(cur, k, CoupledKinds(useEvap), bound)
  {
    var t := TypeOf(cur.g, k);
    if t.Err? {
      return Err(t.error);
    }
    if t.value == BASIN {
      if !bound {
        return Err(NameError("edge_id"));
      }
      var next := AttachCoupled(cur, k, cur.g.info[k].origId, useEvap);
      return Ok(next);
    }
    return Ok(cur);
  }

  lemma {:induction false} CoupledBoundariesErr(s: Growth, ks: seq<int>, kinds: seq<Kind>, bound: bool, k: nat)
    requires k <= |ks| && CoupledBoundaries(s, ks[..k], kinds, bound).Err?
    ensures CoupledBoundaries(s, ks, kinds, bound) == CoupledBoundaries(s, ks[..k], kinds, bound)
    decreases |ks|
  {
    if k < |ks| {
      var init := ks[..|ks| - 1];
      assert init[..k] == ks[..k];
      CoupledBoundariesErr(s, init, kinds, bound, k);
    } else {
      assert ks[..k] == ks;
    }
  }

  // ----------------------------------------------------------------- bypass

  /** The bypass loop's state: the pass so far, and whether the loop
      variable `edge_id` has been assigned. */
  datatype Sweep = Sweep(p: Pass, bound: bool)

  function Start(g: Graph): Sweep {
    Sweep(Pass(g, []), false)
  }

  /** Bypassing node `k` assigns `edge_id`: some outflow neighbour is not
      marked for removal. */
  predicate Assigns(g: Graph, k: int, removed: seq<int>) {
    exists o :: o in Succ(g, k) && o !in removed
  }

  /** The body of the loop over the nodes: a node of a type that does not
      stay must have exactly one inflow neighbour, and is bypassed. */
  function SweepStep(s: Sweep, k: int): Result<Sweep> {
    var t :- TypeOf(s.p.g, k);
    if t in KEPT then Ok(s)
    else if |Pred(s.p.g, k)| != 1 then Err(AssertionError(""))
    else
      var q :- UnwantedStep(s.p, k);
      Ok(Sweep(q, s.bound || Assigns(s.p.g, k, s.p.removed + [k])))
  }

  function Sweeps(s: Sweep, ks: seq<int>): Result<Sweep>
    decreases |ks|
  {
    if ks == [] then Ok(s)
    else
      var q :- Sweeps(s, ks[..|ks| - 1]);
      SweepStep(q, ks[|ks| - 1])
  }

  /** Every node of `ks` that does not stay has one inflow neighbour when
      the current bypass loop reaches it. */
  ghost predicate SingleInflows(g: Graph, ks: seq<int>)
    decreases |ks|
  {
    ks == [] ||
    (SingleInflows(g, ks[..|ks| - 1]) &&
     var b := Bypassed(Pass(g, []), ks[..|ks| - 1]);
     (Unwanted(g, ks[|ks| - 1]) && b.Ok? ==> |Pred(b.value.g, ks[|ks| - 1])| == 1))
  }

  /** Some node of `ks` that does not stay has, when the bypass loop
      reaches it, an outflow neighbour not marked for removal. */
  ghost predicate AssignsSome(g: Graph, ks: seq<int>)
    decreases |ks|
  {
    ks != [] &&
    (AssignsSome(g, ks[..|ks| - 1]) ||
     var b := Bypassed(Pass(g, []), ks[..|ks| - 1]);
     (Unwanted(g, ks[|ks| - 1]) && b.Ok? && Assigns(b.value.g, ks[|ks| - 1], b.value.removed + [ks[|ks| - 1]])))
  }

  /** The older loop is the current one with the inflow assertion added: it
      succeeds exactly when the current loop does and every bypassed node
      has a single inflow neighbour; it then yields the same pass, and has
      assigned `edge_id` exactly when some bypass went towards a node. Its
      other failures are the current loop's. */
  lemma {:induction false} SweepsFacts(g: Graph, ks: seq<int>)
    requires Valid(g) && NonEmptyIds(g) && Distinct(ks) && forall k :: k in ks ==> k in g.info
    ensures Sweeps(Start(g), ks).Ok? <==> Bypassed(Pass(g, []), ks).Ok? && SingleInflows(g, ks)
    ensures Sweeps(Start(g), ks).Ok? ==> Sweeps(Start(g), ks).value.p == Bypassed(Pass(g, []), ks).value
    ensures Sweeps(Start(g), ks).Ok? ==> (Sweeps(Start(g), ks).value.bound <==> AssignsSome(g, ks))
    ensures Sweeps(Start(g), ks).Err? && Sweeps(Start(g), ks).error != AssertionError("") ==>
      Bypassed(Pass(g, []), ks) == Err(Sweeps(Start(g), ks).error)
    decreases |ks|
  {
    if ks != [] {
      var ks' := ks[..|ks| - 1];
      var k := ks[|ks| - 1];
      assert forall x :: x in ks' ==> x in ks;
      SweepsFacts(g, ks');
      BypassedFacts(g, ks');
      if Sweeps(Start(g), ks').Ok? {
        SweepLast(g, ks, ks', k);
      }
    }
  }

  /** The last step, once the loop over `ks'` has succeeded. */
  lemma SweepLast(g: Graph, ks: seq<int>, ks': seq<int>, k: int)
    requires |ks| > 0 && ks' == ks[..|ks| - 1] && k == ks[|ks| - 1] && k in g.info
    requires Sweeps(Start(g), ks').Ok? && Bypassed(Pass(g, []), ks').Ok?
    requires Sweeps(Start(g), ks').value.p == Bypassed(Pass(g, []), ks').value
    requires Sweeps(Start(g), ks').value.bound <==> AssignsSome(g, ks')
    requires SingleInflows(g, ks')
    requires Bypassed(Pass(g, []), ks').value.g.info == g.info
    ensures Sweeps(Start(g), ks).Ok? <==> Bypassed(Pass(g, []), ks).Ok? && SingleInflows(g, ks)
    ensures Sweeps(Start(g), ks).Ok? ==> Sweeps(Start(g), ks).value.p == Bypassed(Pass(g, []), ks).value
    ensures Sweeps(Start(g), ks).Ok? ==> (Sweeps(Start(g), ks).value.bound <==> AssignsSome(g, ks))
    ensures Sweeps(Start(g), ks).Err? && Sweeps(Start(g), ks).error != AssertionError("") ==>
      Bypassed(Pass(g, []), ks) == Err(Sweeps(Start(g), ks).error)
  {
    var q := Sweeps(Start(g), ks').value;
    var b := Bypassed(Pass(g, []), ks').value;
    assert Sweeps(Start(g), ks) == SweepStep(q, k);
    assert Bypassed(Pass(g, []), ks) == UnwantedStep(b, k);
    assert TypeOf(q.p.g, k) == TypeOf(g, k);
  }

  /** The loop over the nodes; the step is a method of its own. */
  method SweepNodes(g: Graph) returns (r: Result<Sweep>)
    ensures r == Sweeps(Start(g), g.order)
  {
    var s := Start(g);
    var n := 0;
    while n < |g.order|
      invariant 0 <= n <= |g.order|
      invariant Sweeps(Start(g), g.order[..n]) == Ok(s)
    {
      SweepsNext(Start(g), g.order, n, s);
      var next := SweepNode(s, g.order[n]);
      if next.Err? {
        SweepsErr(Start(g), g.order, n + 1);
        return Err(next.error);
      }
      s := next.value;
      n := n + 1;
    }
    assert g.order[..n] == g.order;
    return Ok(s);
  }

  /** One node: the inflow assertion, then the bypass. */
  method SweepNode(s: Sweep, k: int) returns (r: Result<Sweep>)
    ensures r == SweepStep(s, k)
  {
    var t := TypeOf(s.p.g, k);
    if t.Err? {
      return Err(t.error);
    }
    if t.value in KEPT {
      return Ok(s);
    }
    var ins := Pred(s.p.g, k);
    if |ins| != 1 {
      return Err(AssertionError(""));
    }
    var removed := s.p.removed + [k];
    var h := BypassNode(s.p.g, k, removed);
    if h.Err? {
      return Err(h.error);
    }
    var reaches := exists o :: o in Succ(s.p.g, k) && o !in removed;
    return Ok(Sweep(Pass(h.value, removed), s.bound || reaches));
  }

  lemma SweepsNext(s0: Sweep, ks: seq<int>, n: nat, s: Sweep)
    requires n < |ks| && Sweeps(s0, ks[..n]) == Ok(s)
    ensures Sweeps(s0, ks[..n + 1]) == SweepStep(s, ks[n])
  {
    assert ks[..n + 1][..n] == ks[..n];
  }

  lemma {:induction false} SweepsErr(s: Sweep, ks: seq<int>, k: nat)
    requires k <= |ks| && Sweeps(s, ks[..k]).Err?
    ensures Sweeps(s, ks) == Sweeps(s, ks[..k])
    decreases |ks|
  {
    if k < |ks| {
      var init := ks[..|ks| - 1];
      assert init[..k] == ks[..k];
      SweepsErr(s, init, k);
    } else {
      assert ks[..k] == ks;
    }
  }

  // ------------------------------------------------------------ composition

  /** The simplified network, the ids folded into a reverse link, and
      whether `edge_id` was assigned. */
  datatype Simplified = Simplified(g: Graph, merged: seq<int>, bound: bool)

  /** The bypass loop, the removal of the bypassed nodes, and the 2-cycle
      fold; isolated nodes and links between a Terminal and a UserDemand
      stay. */
  function CoupledSimplify(g: Graph): Result<Simplified> {
    var s :- Sweeps(Start(g), g.order);
    var g1 :- RemoveNodes(s.p.g, s.p.removed);
    var f :- CyclePhase(g1);
    Ok(Simplified(f.g, f.merged, s.bound))
  }

  /** Simplifying succeeds exactly when every node is typed and every
      bypassed node has one inflow neighbour; it then keeps exactly the nodes
      of the kept types, with their attributes, and has assigned `edge_id`
      exactly when some bypass went towards a node. */
  lemma CoupledSimplifyFacts(g: Graph)
    requires Valid(g) && NonEmptyIds(g) && OrigIdsAreKeys(g)
    ensures CoupledSimplify(g).Ok? <==> Typed(g) && SingleInflows(g, g.order)
    ensures CoupledSimplify(g).Err? ==> CoupledSimplify(g).error in {KeyError("type"), AssertionError("")}
    ensures CoupledSimplify(g).Ok? ==>
      Valid(CoupledSimplify(g).value.g) && Typed(CoupledSimplify(g).value.g) &&
      OrigIdsAreKeys(CoupledSimplify(g).value.g)
    ensures CoupledSimplify(g).Ok? ==> forall k :: k in CoupledSimplify(g).value.g.info <==> Kept(g, k)
    ensures CoupledSimplify(g).Ok? ==>
      forall k :: k in CoupledSimplify(g).value.g.info ==> k in g.info && CoupledSimplify(g).value.g.info[k] == g.info[k]
    ensures CoupledSimplify(g).Ok? ==> (CoupledSimplify(g).value.bound <==> AssignsSome(g, g.order))
  {
    SweepsFacts(g, g.order);
    BypassedFacts(g, g.order);
    var sw := Sweeps(Start(g), g.order);
    if sw.Ok? {
      var b := sw.value.p;
      assert forall k :: k in b.removed ==> k in b.g.info;
      RemoveNodesOk(b.g, b.removed);
      RemoveNodesKept(b.g, b.removed);
      var g1 := RemoveNodes(b.g, b.removed).value;
      assert forall k :: k in g1.info <==> Kept(g, k);
      CyclePhaseFacts(g1);
    }
  }

  /** After the simplification every node is a Basin or a boundary node, so
      the relabelling never raises its exception. */
  lemma UnexpectedNodeUnreachable(g: Graph)
    requires Valid(g) && NonEmptyIds(g) && OrigIdsAreKeys(g) && CoupledSimplify(g).Ok?
    ensures Numbered(CoupledSimplify(g).value.g, CoupledSimplify(g).value.g.order).Ok?
  {
    CoupledSimplifyFacts(g);
    var h := CoupledSimplify(g).value.g;
    NumberingFacts(h);
    forall k | k in h.info ensures Numberable(h, k) {
      assert Kept(g, k);
    }
  }

  /** The bypass loop, the removal and the 2-cycle fold run in turn. */
  method SimplifyCoupled(g: Graph) returns (r: Result<Simplified>)
    ensures r == CoupledSimplify(g)
  {
    var s := SweepNodes(g);
    if s.Err? {
      return Err(s.error);
    }
    var g1 := RemoveAll(s.value.p.g, s.value.p.removed);
    if g1.Err? {
      return Err(g1.error);
    }
    var f := FoldUserDemandCycles(g1.value);
    if f.Err? {
      return Err(f.error);
    }
    return Ok(Simplified(f.value.g, f.value.merged, s.value.bound));
  }

  /** What the script keeps of the set-up: the graph, the ids folded into a
      reverse link, the node renumbering, the link mapping, the number of
      segments and the timestep. */
  datatype Export = Export(g: Graph, mergeEdges: seq<int>, nodeMap: map<int, int>,
                           edgeMap: map<int, int>, segments: int, timestep: real)

  /** The errors the set-up can raise. */
  predicate SetupError(e: Exception) {
    e in {MissingTable(Coupled), KeyError("type"), AssertionError(""), NameError("edge_id"), ValueError(SAVEAT_MSG)}
  }

  /** Some node of `g` is a Basin. */
  predicate HasBasinNode(g: Graph) {
    exists k :: k in g.info && IsType(g, k, BASIN)
  }

  /** The boundary loop reads `edge_id` at the first Basin, and it was never
      assigned. */
  predicate EdgeIdMissing(c: Simplified) {
    !c.bound && HasBasinNode(c.g)
  }

  /** Relabelling keeps the Basins: the relabelled node order holds a Basin
      exactly when the graph does. */
  lemma RelabelBasins(g: Graph, m: map<int, int>)
    requires Valid(g) && Renames(g, m)
    ensures HasBasin(Relabel(g, m), Relabel(g, m).order) <==> HasBasinNode(g)
  {
    RelabelNodes(g, m);
    var h := Relabel(g, m);
    if HasBasinNode(g) {
      var k :| k in g.info && IsType(g, k, BASIN);
      BasinRelabelled(g, h, m, k);
    }
    if HasBasin(h, h.order) {
      var i :| 0 <= i < |h.order| && IsType(h, h.order[i], BASIN);
      var k :| k in g.info && m[k] == h.order[i];
    }
  }

  lemma BasinRelabelled(g: Graph, h: Graph, m: map<int, int>, k: int)
    requires ValidNodes(h.order, h.info) && IsType(g, k, BASIN) && k in m
    requires m[k] in h.info && h.info[m[k]] == g.info[k]
    ensures HasBasin(h, h.order)
  {
    var x := m[k];
    assert x in h.info;
    assert x in h.order;
    var i :| 0 <= i < |h.order| && h.order[i] == x;
    assert IsType(h, h.order[i], BASIN);
  }

  /** What `generate` yields on the graph it built: the simplification's
      error; else the NameError of an unassigned `edge_id` when a Basin
      needs it; else the timestep check's error; else the export, with the
      folded ids and the timestep. */
  ghost predicate ExportOutcome(g: Graph, saveat: Saveat, r: Result<Export>) {
    var c := CoupledSimplify(g);
    var ts := TimestepAsWritten(saveat);
    (c.Err? ==> r == Err(c.error)) &&
    (c.Ok? && EdgeIdMissing(c.value) ==> r == Err(NameError("edge_id"))) &&
    (c.Ok? && !EdgeIdMissing(c.value) && ts.Err? ==> r == Err(ts.error)) &&
    (r.Ok? <==> c.Ok? && !EdgeIdMissing(c.value) && ts.Ok?) &&
    (r.Ok? ==> r.value.mergeEdges == c.value.merged && r.value.timestep == ts.value)
  }

  /** The network set-up of `generate` and its timestep check as written,
      which lets a negative `saveat` through. */
  method Generate(nodes: Option<seq<NodeRow>>, links: Option<seq<LinkRow>>, saveat: Saveat, useEvap: bool)
    returns (r: Result<Export>)
    ensures nodes.None? || links.None? ==> r == Err(MissingTable(Coupled))
    ensures nodes.Some? && links.Some? ==>
      exists g :: BuiltFrom(Coupled, g, nodes.value, links.value) && ExportOutcome(g, saveat, r)
    ensures r.Err? ==> SetupError(r.error)
    ensures r.Ok? ==> WithBoundaries(r.value.g, r.value.segments, CoupledKinds(useEvap))
    ensures r.Ok? ==> MapsLinks(r.value.g, r.value.edgeMap)
    ensures r.Ok? ==> TimestepAsWritten(saveat) == Ok(r.value.timestep)
  {
    var built := Build(Coupled, nodes, links);
    if built.Err? {
      return Err(built.error);
    }
    var g := built.value;
    BuiltFacts(Coupled, g, nodes.value, links.value);
    CoupledSimplifyFacts(g);
    var simplified := SimplifyCoupled(g);
    if simplified.Err? {
      r := Err(simplified.error);
      assert BuiltFrom(Coupled, g, nodes.value, links.value) && ExportOutcome(g, saveat, r);
      return;
    }
    var g3 := simplified.value.g;
    var kinds := CoupledKinds(useEvap);
    FinishFacts(g3, kinds);
    UnexpectedNodeUnreachable(g);
    var n := NumberNodes(g3);
    assert n.Ok?;
    var s := n.value;
    var h := Relabel(g3, s.nodeMap);
    RelabelBasins(g3, s.nodeMap);
    var grown := AddCoupledBoundaries(h, s.boundaryId, useEvap, simplified.value.bound);
    CoupledBoundariesFacts(Growth(h, s.boundaryId), h.order, kinds, simplified.value.bound);
    if grown.Err? {
      r := Err(grown.error);
      assert BuiltFrom(Coupled, g, nodes.value, links.value) && ExportOutcome(g, saveat, r);
      return;
    }
    var lm := BuildLinkMapping(grown.value.g);
    LinkMappingFacts(grown.value.g, EdgesView(grown.value.g));
    var ts := TimestepAsWritten(saveat);
    if ts.Err? {
      r := Err(ts.error);
    } else {
      r := Ok(Export(grown.value.g, simplified.value.merged, s.nodeMap, lm, s.basinId, ts.value));
    }
    assert BuiltFrom(Coupled, g, nodes.value, links.value) && ExportOutcome(g, saveat, r);
  }
}

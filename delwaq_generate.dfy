/** The Delwaq export's graph set-up: the simplification phases, the
    relabelling and the per-Basin boundaries composed, the mapping from
    Ribasim link ids to Delwaq exchanges, and the small checks and names
    the exporter uses around it. */
module DelwaqGenerate {
  import opened Common
  import opened DiGraph
  import opened DelwaqGraph
  import opened DelwaqBypass
  import opened DelwaqCycles
  import opened DelwaqNumbering
  import opened DelwaqBoundaries
  import Strings
  import DelwaqUtil

  // ------------------------------------------------------------------ names

  /** `s[:n]`. */
  function Take(s: string, n: nat): (r: string)
    ensures |r| <= n && r <= s
    ensures |s| <= n ==> r == s
  {
    if n <= |s| then s[..n] else s
  }

  /** The name of a boundary in the Delwaq input: the type without
      underscores cut to 9 characters, `_`, and the node id. */
  function BoundaryName(id: int, ntype: string): string {
    Take(Strings.Replace(ntype, "_", ""), 9) + "_" + Strings.IntToString(id)
  }

  lemma NoUnderscoreInNumber(x: int)
    ensures '_' !in Strings.IntToString(x)
  {
    var s := Strings.IntToString(x);
    var d := Strings.NatToString(if x < 0 then -x else x);
    assert forall k :: 0 <= k < |d| ==> Strings.IsDigit(d[k]);
    if x < 0 {
      assert s == "-" + d;
      assert forall k :: 0 < k < |s| ==> s[k] == d[k - 1];
    }
  }

  /** The last `_` of `p + "_" + d` sits after `p` when `d` has none. */
  lemma LastUnderscore(p: string, d: string)
    requires '_' !in d
    ensures Strings.RFindChar(p + "_" + d, '_') == |p|
  {
    var name := p + "_" + d;
    var r := Strings.RFindChar(name, '_');
    assert name[|p|] == '_';
    assert name[|p| + 1..] == d;
  }

  /** A boundary name splits at its last `_` into the type part (at most 9
      characters, no underscore) and the text of the id, which reads back
      as the id. */
  lemma BoundaryNameParts(id: int, ntype: string)
    ensures var name := BoundaryName(id, ntype);
      var k := Strings.RFindChar(name, '_');
      0 <= k <= 9 && name[..k] == Take(Strings.DropChar(ntype, '_'), 9) && '_' !in name[..k] &&
      Strings.ParseInt(name[k + 1..]) == Strings.ParsedInt.Int(id)
  {
    Strings.ReplaceDropChar(ntype, '_');
    var p := Take(Strings.DropChar(ntype, '_'), 9);
    var d := Strings.IntToString(id);
    NoUnderscoreInNumber(id);
    LastUnderscore(p, d);
    var name := p + "_" + d;
    assert name[..|p|] == p && name[|p| + 1..] == d;
    assert forall x :: x in p ==> x in Strings.DropChar(ntype, '_');
    Strings.ParseIntToString(id);
  }

  // --------------------------------------------------------------- metadata

  /** The solver's `saveat`: a number of seconds, or +infinity. */
  datatype Saveat = Seconds(value: real) | PosInf

  const SAVEAT_MSG := "Unsupported saveat, must be positive and finite."

  /** The timestep check as written: only 0 and +infinity are refused. */
  function TimestepAsWritten(saveat: Saveat): (r: Result<real>)
    ensures r.Err? <==> saveat == Seconds(0.0) || saveat.PosInf?
    ensures r.Err? ==> r.error == ValueError(SAVEAT_MSG)
  {
    if saveat == Seconds(0.0) || saveat.PosInf? then Err(ValueError(SAVEAT_MSG))
    else Ok(saveat.value)
  }

  /** A negative `saveat` passes the check that says it must be positive. */
  lemma NegativeSaveatAccepted()
    ensures TimestepAsWritten(Seconds(-1.0)) == Ok(-1.0)
  {
  }

  /** The timestep check as its message states it: a positive, finite
      `saveat` becomes the timestep, anything else is refused. */
  function Timestep(saveat: Saveat): (r: Result<real>)
    ensures r.Ok? <==> saveat.Seconds? && saveat.value > 0.0
    ensures r.Ok? ==> r.value == saveat.value
    ensures r.Err? ==> r.error == ValueError(SAVEAT_MSG)
  {
    if saveat.PosInf? || saveat.value <= 0.0 then Err(ValueError(SAVEAT_MSG))
    else Ok(saveat.value)
  }

  /** The corrected check accepts exactly what the written one accepts,
      less the negative values. */
  lemma TimestepRefinesAsWritten(saveat: Saveat)
    ensures Timestep(saveat).Ok? <==> TimestepAsWritten(saveat).Ok? && !(saveat.Seconds? && saveat.value < 0.0)
    ensures Timestep(saveat).Ok? ==> Timestep(saveat) == TimestepAsWritten(saveat)
  {
  }

  // ----------------------------------------------------------------- tracer

  /** The node types a tracer can be added to. */
  const TRACEABLE := ["Basin", "LevelBoundary", "FlowBoundary", "UserDemand"]

  /** The checks of `add_tracer` against the node table (node id to type);
      the result is the type of the node traced. */
  function TracerCheck(nodeTypes: Option<map<int, string>>, nodeId: int, name: string): (r: Result<string>)
    ensures r.Ok? <==> DelwaqUtil.IsValidSubstance(name) && nodeTypes.Some? &&
                       nodeId in nodeTypes.value && nodeTypes.value[nodeId] in TRACEABLE
    ensures r.Ok? ==> r.value == nodeTypes.value[nodeId]
    ensures !DelwaqUtil.IsValidSubstance(name) ==> r == Err(ValueError("Invalid Delwaq substance name " + name))
    ensures (DelwaqUtil.IsValidSubstance(name) && nodeTypes.Some? && nodeId in nodeTypes.value &&
             nodeTypes.value[nodeId] !in TRACEABLE) ==> r == Err(ValueError("Can only trace Basins and boundaries"))
  {
    if !DelwaqUtil.IsValidSubstance(name) then Err(ValueError("Invalid Delwaq substance name " + name))
    else if nodeTypes.None? then Err(AssertionError(""))
    else if nodeId !in nodeTypes.value then Err(KeyError(Strings.IntToString(nodeId)))
    else if nodeTypes.value[nodeId] !in TRACEABLE then Err(ValueError("Can only trace Basins and boundaries"))
    else Ok(nodeTypes.value[nodeId])
  }

  /** Terminals, junctions and connector nodes cannot be traced. */
  lemma UntraceableTypes(nodeTypes: map<int, string>, nodeId: int, name: string)
    requires nodeId in nodeTypes && nodeTypes[nodeId] in {"Terminal", "Junction", "Pump", "Outlet"}
    ensures TracerCheck(Some(nodeTypes), nodeId, name).Err?
  {
  }

  // ------------------------------------------------------------ link mapping

  /** Mapping every id of `ids` to exchange `i`, later entries overwriting. */
  function MapIds(m: map<int, int>, ids: seq<int>, i: int): map<int, int>
    decreases |ids|
  {
    if ids == [] then m else MapIds(m, ids[..|ids| - 1], i)[ids[|ids| - 1] := i]
  }

  /** The link mapping: every id carried by link `es[i]` maps to `i`; an id
      carried by several links maps to the last of them. */
  function LinkMapping(g: Graph, es: seq<Link>): map<int, int>
    decreases |es|
  {
    if es == [] then map[] else MapIds(LinkMapping(g, es[..|es| - 1]), IdsOf(g, es[|es| - 1]), |es| - 1)
  }

  /** Link `es[j]` carries id `x`. */
  predicate Carries(g: Graph, es: seq<Link>, j: int, x: int) {
    0 <= j < |es| && x in IdsOf(g, es[j])
  }

  lemma {:induction false} MapIdsFacts(m: map<int, int>, ids: seq<int>, i: int)
    ensures forall x :: x in MapIds(m, ids, i) <==> x in m || x in ids
    ensures forall x :: x in MapIds(m, ids, i) ==> MapIds(m, ids, i)[x] == if x in ids then i else m[x]
    decreases |ids|
  {
    if ids != [] {
      var init := ids[..|ids| - 1];
      assert forall x :: x in ids <==> x in init || x == ids[|ids| - 1];
      MapIdsFacts(m, init, i);
    }
  }

  /** An id is mapped exactly when some link carries it, and it is mapped to
      the last link that does. */
  lemma LinkMappingFacts(g: Graph, es: seq<Link>)
    ensures forall x :: x in LinkMapping(g, es) ==> exists j :: Carries(g, es, j, x)
    ensures forall x, j :: Carries(g, es, j, x) ==> x in LinkMapping(g, es)
    ensures forall x :: x in LinkMapping(g, es) ==>
      Carries(g, es, LinkMapping(g, es)[x], x) &&
      forall j :: LinkMapping(g, es)[x] < j < |es| ==> !Carries(g, es, j, x)
  {
    LinkMappingDomain(g, es);
    LinkMappingLast(g, es);
  }

  lemma {:induction false} LinkMappingDomain(g: Graph, es: seq<Link>)
    ensures forall x :: x in LinkMapping(g, es) ==> exists j :: Carries(g, es, j, x)
    ensures forall x, j :: Carries(g, es, j, x) ==> x in LinkMapping(g, es)
    decreases |es|
  {
    if es != [] {
      var init := es[..|es| - 1];
      var n := |es| - 1;
      LinkMappingDomain(g, init);
      var m := LinkMapping(g, init);
      MapIdsFacts(m, IdsOf(g, es[n]), n);
      var r := LinkMapping(g, es);
      assert r == MapIds(m, IdsOf(g, es[n]), n);
      assert forall j :: 0 <= j < n ==> init[j] == es[j];
      forall x | x in r ensures exists j :: Carries(g, es, j, x) {
        if x in IdsOf(g, es[n]) {
          assert Carries(g, es, n, x);
        } else {
          var j :| Carries(g, init, j, x);
          assert Carries(g, es, j, x);
        }
      }
      forall x, j | Carries(g, es, j, x) ensures x in r {
        if j < n {
          assert Carries(g, init, j, x);
        }
      }
    }
  }

  lemma {:induction false} LinkMappingLast(g: Graph, es: seq<Link>)
    ensures forall x :: x in LinkMapping(g, es) ==>
      Carries(g, es, LinkMapping(g, es)[x], x) &&
      forall j :: LinkMapping(g, es)[x] < j < |es| ==> !Carries(g, es, j, x)
    decreases |es|
  {
    if es != [] {
      var init := es[..|es| - 1];
      var n := |es| - 1;
      LinkMappingLast(g, init);
      var m := LinkMapping(g, init);
      MapIdsFacts(m, IdsOf(g, es[n]), n);
      var r := LinkMapping(g, es);
      assert r == MapIds(m, IdsOf(g, es[n]), n);
      assert forall j :: 0 <= j < n ==> init[j] == es[j];
      forall x | x in r ensures Carries(g, es, r[x], x) && forall j :: r[x] < j < |es| ==> !Carries(g, es, j, x) {
        if x !in IdsOf(g, es[n]) {
          assert Carries(g, init, m[x], x);
          forall j | m[x] < j < |es| ensures !Carries(g, es, j, x) {
            if j < n {
              assert !Carries(g, init, j, x);
            }
          }
        }
      }
    }
  }

  /** The loop over the links of `g` in their view order and over each
      link's ids. */
  method BuildLinkMapping(g: Graph) returns (m: map<int, int>)
    ensures m == LinkMapping(g, EdgesView(g))
  {
    var es := EdgesView(g);
    m := map[];
    var i := 0;
    while i < |es|
      invariant 0 <= i <= |es|
      invariant m == LinkMapping(g, es[..i])
    {
      var ids := IdsOf(g, es[i]);
      ghost var m0 := m;
      var j := 0;
      while j < |ids|
        invariant 0 <= j <= |ids|
        invariant m == MapIds(m0, ids[..j], i)
      {
        assert ids[..j + 1][..j] == ids[..j];
        m := m[ids[j] := i];
        j := j + 1;
      }
      assert ids[..j] == ids;
      assert es[..i + 1][..i] == es[..i];
      i := i + 1;
    }
    assert es[..i] == es;
  }

  // ------------------------------------------------------------ composition

  /** The four simplification phases of `_setup_graph` in order, as
      written: junctions, connector nodes (an unwanted node without links
      removed twice), UserDemand 2-cycles, Terminals at UserDemands (a
      Terminal removed once per UserDemand link). */
  function SimplifyAsWritten(g: Graph): Result<Folding> {
    var g1 :- JunctionPhase(g);
    var g2 :- ConnectorPhaseAsWritten(g1);
    var f :- CyclePhase(g2);
    var g3 :- TerminalPhaseAsWritten(f.g);
    Ok(Folding(g3, f.merged))
  }

  /** The four phases with every listed node removed once. */
  function Simplify(g: Graph): Result<Folding> {
    var g1 :- JunctionPhase(g);
    var g2 :- ConnectorPhase(g1);
    var f :- CyclePhase(g2);
    var g3 :- TerminalPhase(f.g);
    Ok(Folding(g3, f.merged))
  }

  /** The errors the junction phase can raise. */
  predicate JunctionError(e: Exception) {
    e in {KeyError("type"), ValueError(MULTI_MSG), ValueError(DUPLICATE_MSG), IndexError}
  }

  /** Nodes keep their attributes: every node of `h` is a node of `g` with
      the same type and original id. */
  predicate SameInfo(g: Graph, h: Graph) {
    forall k :: k in h.info ==> k in g.info && h.info[k] == g.info[k]
  }

  lemma SameInfoOrigIds(g: Graph, h: Graph)
    requires OrigIdsAreKeys(g) && SameInfo(g, h)
    ensures OrigIdsAreKeys(h)
  {
  }

  /** With every listed node removed once, simplifying fails only where the
      junction phase fails; once that phase succeeds every node is typed, so
      the later corrected phases cannot fail, and the nodes left keep their
      attributes. */
  lemma SimplifyFacts(g: Graph)
    requires Valid(g) && NonEmptyIds(g) && OrigIdsAreKeys(g)
    ensures var r := Simplify(g);
      (r.Ok? <==> JunctionPhase(g).Ok?) &&
      (r.Err? ==> JunctionError(r.error)) &&
      (r.Ok? ==> Valid(r.value.g) && Typed(r.value.g) && OrigIdsAreKeys(r.value.g))
  {
    JunctionPhaseFacts(g);
    var j := JunctionPhase(g);
    if j.Ok? {
      var g1 := j.value;
      assert SameInfo(g, g1);
      SameInfoOrigIds(g, g1);
      ConnectorPhaseFacts(g1);
      var g2 := ConnectorPhase(g1).value;
      assert SameInfo(g1, g2);
      SameInfoOrigIds(g1, g2);
      CyclePhaseFacts(g2);
      var f := CyclePhase(g2).value;
      TerminalPhaseFacts(f.g);
      var g3 := TerminalPhase(f.g).value;
      assert SameInfo(f.g, g3);
      SameInfoOrigIds(f.g, g3);
    }
  }

  /** Wherever the written simplification succeeds it agrees with the
      corrected one, so the results of `SimplifyFacts` hold for it. */
  lemma SimplifyAgrees(g: Graph)
    requires Valid(g) && NonEmptyIds(g)
    ensures SimplifyAsWritten(g).Ok? ==> SimplifyAsWritten(g) == Simplify(g)
  {
    JunctionPhaseTyped(g);
    if JunctionPhase(g).Ok? {
      var g1 := JunctionPhase(g).value;
      ConnectorPhaseRefines(g1);
      if ConnectorPhaseAsWritten(g1).Ok? {
        ConnectorPhaseTyped(g1);
        var g2 := ConnectorPhase(g1).value;
        CyclePhaseTyped(g2);
        TerminalPhaseRefines(CyclePhase(g2).value.g);
      }
    }
  }

  /** Where the corrected simplification fails, the written one fails with
      the same error. */
  lemma SimplifyFailsAlike(g: Graph)
    requires Valid(g) && NonEmptyIds(g) && OrigIdsAreKeys(g)
    ensures Simplify(g).Err? ==> SimplifyAsWritten(g) == Simplify(g)
  {
    SimplifyFacts(g);
  }

  /** The written simplification fails with a junction phase error, or with
      networkx's error on a node listed twice for removal. */
  lemma SimplifyAsWrittenErrors(g: Graph)
    requires Valid(g) && NonEmptyIds(g)
    ensures SimplifyAsWritten(g).Err? ==>
      JunctionError(SimplifyAsWritten(g).error) || SimplifyAsWritten(g).error.NetworkXError?
  {
    JunctionPhaseTyped(g);
    if JunctionPhase(g).Ok? {
      var g1 := JunctionPhase(g).value;
      ConnectorWrittenErrors(g1);
      if ConnectorPhaseAsWritten(g1).Ok? {
        var g2 := ConnectorPhaseAsWritten(g1).value;
        ConnectorPhaseRefines(g1);
        ConnectorPhaseTyped(g1);
        CyclePhaseTyped(g2);
        TerminalWrittenErrors(CyclePhase(g2).value.g);
      }
    }
  }

  /** The junction phase fails with one of its errors, or leaves a valid
      graph of typed nodes. */
  lemma JunctionPhaseTyped(g: Graph)
    requires Valid(g) && NonEmptyIds(g)
    ensures JunctionPhase(g).Err? ==> JunctionError(JunctionPhase(g).error)
    ensures JunctionPhase(g).Ok? ==>
      Valid(JunctionPhase(g).value) && NonEmptyIds(JunctionPhase(g).value) && Typed(JunctionPhase(g).value)
  {
    JunctionPhaseFacts(g);
  }

  /** On typed nodes the corrected connector phase succeeds with a valid
      graph of typed nodes. */
  lemma ConnectorPhaseTyped(g: Graph)
    requires Valid(g) && NonEmptyIds(g) && Typed(g)
    ensures ConnectorPhase(g).Ok? && Valid(ConnectorPhase(g).value) && Typed(ConnectorPhase(g).value)
  {
    ConnectorPhaseFacts(g);
    var h := ConnectorPhase(g).value;
    assert forall k :: k in h.info ==> h.info[k] == g.info[k];
  }

  /** On typed nodes the written connector phase fails only with networkx's
      error. */
  lemma ConnectorWrittenErrors(g: Graph)
    requires Valid(g) && NonEmptyIds(g) && Typed(g)
    ensures ConnectorPhaseAsWritten(g).Err? ==> ConnectorPhaseAsWritten(g).error.NetworkXError?
  {
    ConnectorPhaseFacts(g);
    ConnectorPhaseAsWrittenFacts(g);
  }

  /** On typed nodes the 2-cycle fold succeeds with a valid graph of typed
      nodes. */
  lemma CyclePhaseTyped(g: Graph)
    requires Valid(g) && Typed(g)
    ensures CyclePhase(g).Ok? && Valid(CyclePhase(g).value.g) && Typed(CyclePhase(g).value.g)
  {
    CyclePhaseFacts(g);
  }

  /** On typed nodes the written Terminal removal fails only with networkx's
      error. */
  lemma TerminalWrittenErrors(g: Graph)
    requires Valid(g) && Typed(g)
    ensures TerminalPhaseAsWritten(g).Err? ==> TerminalPhaseAsWritten(g).error.NetworkXError?
  {
    TerminalsFound(g);
    RemoveNodesFailure(g, Terminals(g, EdgesView(g)).value);
  }

  /** A Pump without links: the corrected simplification removes it, the
      written one removes it twice and fails. */
  lemma LinklessPumpAborts()
    ensures SimplifyAsWritten(LonePump()) == Err(MissingNode(5))
    ensures Simplify(LonePump()).Ok?
  {
    var g := LonePump();
    LonePumpJunctions();
    IsolatedConnectorFails();
    assert Valid(g) && NonEmptyIds(g) && Typed(g);
    ConnectorPhaseTyped(g);
    var g2 := ConnectorPhase(g).value;
    CyclePhaseTyped(g2);
    TerminalsFound(CyclePhase(g2).value.g);
    TerminalPhaseFacts(CyclePhase(g2).value.g);
  }

  /** Every node has one of the types the simplification keeps. */
  ghost predicate AllKept(g: Graph) {
    forall k :: k in g.info ==> Kept(g, k)
  }

  /** A graph of kept nodes holds only Basins and boundary nodes, so the
      numbering succeeds on it. */
  lemma KeptNumberable(g: Graph)
    requires Valid(g) && AllKept(g)
    ensures Numbered(g, g.order).Ok?
  {
    NumberingFacts(g);
    forall k | k in g.info ensures Numberable(g, k) {
      assert Kept(g, k);
    }
  }

  /** The connector phase leaves only nodes of the kept types. */
  lemma ConnectorPhaseKept(g: Graph)
    requires Valid(g) && NonEmptyIds(g)
    ensures ConnectorPhase(g).Ok? ==> AllKept(ConnectorPhase(g).value)
  {
    ConnectorPhaseFacts(g);
  }

  /** The 2-cycle fold keeps the nodes and their attributes. */
  lemma CyclePhaseKept(g: Graph)
    requires Valid(g) && Typed(g) && AllKept(g)
    ensures CyclePhase(g).Ok? && AllKept(CyclePhase(g).value.g)
  {
    CyclePhaseFacts(g);
  }

  /** The Terminal removal keeps a subset of the nodes with their
      attributes. */
  lemma TerminalPhaseKept(g: Graph)
    requires Valid(g) && Typed(g) && AllKept(g)
    ensures TerminalPhase(g).Ok? && Valid(TerminalPhase(g).value) && AllKept(TerminalPhase(g).value)
  {
    TerminalPhaseFacts(g);
  }

  /** After a successful simplification every node is a Basin or a boundary
      node, so the numbering's ValueError cannot be raised. */
  lemma SimplifiedNumberable(g: Graph)
    requires Valid(g) && NonEmptyIds(g)
    ensures SimplifyAsWritten(g).Ok? ==>
      Numbered(SimplifyAsWritten(g).value.g, SimplifyAsWritten(g).value.g.order).Ok?
  {
    SimplifyAgrees(g);
    JunctionPhaseTyped(g);
    if SimplifyAsWritten(g).Ok? {
      var g1 := JunctionPhase(g).value;
      ConnectorPhaseTyped(g1);
      ConnectorPhaseKept(g1);
      var g2 := ConnectorPhase(g1).value;
      CyclePhaseTyped(g2);
      CyclePhaseKept(g2);
      var f := CyclePhase(g2).value;
      TerminalPhaseKept(f.g);
      KeptNumberable(TerminalPhase(f.g).value);
    }
  }

  lemma LonePumpJunctions()
    ensures JunctionPhase(LonePump()) == Ok(LonePump())
  {
    var g := LonePump();
    assert [5][..0] == [];
    assert TypeOf(g, 5) == Ok("Pump");
    assert Junctions(Pass(g, []), [5]) == Ok(Pass(g, []));
  }

  /** Basins are the nodes 1..`n`, every other node is numbered negatively,
      and every node is typed. */
  ghost predicate BasinsFirst(g: Graph, n: int) {
    (forall k :: k in g.info ==> g.info[k].Attrs? && k != 0 && k <= n && (0 < k <==> IsType(g, k, BASIN))) &&
    (forall v :: 1 <= v <= n ==> v in g.info)
  }

  /** What the numbering leaves for the relabelling. */
  ghost predicate NumberingOk(g: Graph, s: Numbering) {
    (forall k :: k in s.nodeMap <==> k in g.info) &&
    Ranked(g, s) && Injective(s.nodeMap) && Onto(s) && s.boundaryId <= 0 <= s.basinId
  }

  /** The relabelled graph is valid, numbers the Basins 1..`basinId` and the
      boundary nodes `boundaryId`..-1, and has no node below `boundaryId`. */
  lemma RelabelFacts(g: Graph, s: Numbering)
    requires Valid(g) && Typed(g) && NumberingOk(g, s)
    ensures Renames(g, s.nodeMap)
    ensures var h := Relabel(g, s.nodeMap);
      Valid(h) && Typed(h) && Fresh(h, s.boundaryId) && BasinsFirst(h, s.basinId)
  {
    var m := s.nodeMap;
    RenamesValid(g, m);
    RelabelNodes(g, m);
    RelabelLinks(g, m);
    var h := Relabel(g, m);
    RenamedRanks(g, h, s);
  }

  /** The numbers of a renaming whose nodes keep their attributes. */
  lemma RenamedRanks(g: Graph, h: Graph, s: Numbering)
    requires Typed(g) && NumberingOk(g, s)
    requires forall k :: k in g.info ==> s.nodeMap[k] in h.info && h.info[s.nodeMap[k]] == g.info[k]
    requires forall x :: x in h.info ==> exists k :: k in g.info && s.nodeMap[k] == x
    ensures Typed(h) && Fresh(h, s.boundaryId) && BasinsFirst(h, s.basinId)
  {
    var m := s.nodeMap;
    forall x | x in h.info
      ensures h.info[x].Attrs? && x != 0 && x <= s.basinId && s.boundaryId <= x && (0 < x <==> IsType(h, x, BASIN))
    {
      var k :| k in g.info && m[k] == x;
      RenamedRank(g, h, s, k);
    }
    forall v | 1 <= v <= s.basinId ensures v in h.info {
      assert Taken(m, v);
      var k :| k in m && m[k] == v;
      assert k in g.info;
    }
  }

  lemma RenamedRank(g: Graph, h: Graph, s: Numbering, k: int)
    requires Typed(g) && NumberingOk(g, s) && k in g.info
    requires s.nodeMap[k] in h.info && h.info[s.nodeMap[k]] == g.info[k]
    ensures var x := s.nodeMap[k];
      h.info[x].Attrs? && x != 0 && x <= s.basinId && s.boundaryId <= x && (0 < x <==> IsType(h, x, BASIN))
  {
    assert k in s.nodeMap;
    var x := s.nodeMap[k];
    assert (IsType(g, k, BASIN) && 1 <= x <= s.basinId) || (IsBoundary(g, k) && s.boundaryId <= x <= -1);
    BasinNotBoundary();
  }

  /** The type names of Basins, boundary nodes and boundary kinds differ. */
  lemma BasinNotBoundary()
    ensures BASIN !in BOUNDARY_TYPES && !IsKindType(BASIN)
  {
    assert |BASIN| == 5;
    assert forall t :: t in BOUNDARY_TYPES ==> |t| != 5;
  }

  /** `hi` can be raised in HasBoundaries. */
  lemma HasBoundariesBelow(h: Graph, basin: int, orig: int, kinds: seq<Kind>, hi: int, hi': int)
    requires HasBoundaries(h, basin, orig, kinds, hi) && hi <= hi'
    ensures HasBoundaries(h, basin, orig, kinds, hi')
  {
    forall i | 0 <= i < |kinds| ensures HasBoundary(h, basin, orig, kinds[i], hi') {
      assert HasBoundary(h, basin, orig, kinds[i], hi);
      var b :| b < hi && AttachedAt(h, basin, orig, kinds[i], b);
    }
  }

  /** The graph with its boundaries: the Basins are still 1..`n`, the other
      nodes negative, and every Basin has a negatively numbered boundary
      node of each kind, linked to it with id -1. */
  ghost predicate WithBoundaries(g: Graph, n: int, kinds: seq<Kind>) {
    Valid(g) && BasinsFirst(g, n) &&
    forall k :: k in g.info && IsType(g, k, BASIN) ==> HasBoundaries(g, k, g.info[k].origId, kinds, 0)
  }

  lemma BoundariesAdded(h: Graph, s: Numbering, kinds: seq<Kind>)
    requires Valid(h) && Typed(h) && Fresh(h, s.boundaryId) && BasinsFirst(h, s.basinId)
    requires s.boundaryId <= 0 <= s.basinId
    requires forall i :: 0 <= i < |kinds| ==> IsKindType(kinds[i].ntype)
    ensures var r := Boundaries(Growth(h, s.boundaryId), h.order, kinds);
      r.Ok? && WithBoundaries(r.value.g, s.basinId, kinds)
  {
    var b0 := s.boundaryId;
    BoundariesFacts(h, b0, h.order, kinds);
    var r := Boundaries(Growth(h, b0), h.order, kinds).value;
    GrownNumbers(h, b0, s.basinId, kinds, r);
    GrownBoundaries(h, b0, kinds, r);
  }

  lemma GrownNumbers(h: Graph, b0: int, n: int, kinds: seq<Kind>, r: Growth)
    requires Valid(h) && BasinsFirst(h, n) && b0 <= 0 <= n
    requires BoundariesDone(h, b0, h.order, kinds, r)
    ensures BasinsFirst(r.g, n)
  {
    var g := r.g;
    forall k | k in g.info
      ensures g.info[k].Attrs? && k != 0 && k <= n && (0 < k <==> IsType(g, k, BASIN))
    {
      if k in h.info {
        assert g.info[k] == h.info[k];
      } else {
        assert r.boundaryId <= k < b0 && IsKindType(g.info[k].ntype);
        BasinNotBoundary();
      }
    }
  }

  lemma GrownBoundaries(h: Graph, b0: int, kinds: seq<Kind>, r: Growth)
    requires Valid(h) && b0 <= 0
    requires BoundariesDone(h, b0, h.order, kinds, r)
    ensures forall k :: k in r.g.info && IsType(r.g, k, BASIN) ==> HasBoundaries(r.g, k, r.g.info[k].origId, kinds, 0)
  {
    var g := r.g;
    forall k | k in g.info && IsType(g, k, BASIN)
      ensures HasBoundaries(g, k, g.info[k].origId, kinds, 0)
    {
      assert k in h.info by {
        if k !in h.info {
          assert false;
        }
      }
      assert g.info[k] == h.info[k];
      assert k in h.order;
      assert HasBoundaries(g, k, h.info[k].origId, kinds, b0);
      HasBoundariesBelow(g, k, g.info[k].origId, kinds, b0, 0);
    }
  }

  /** What `_setup_graph` returns: the graph, the ids of the links folded
      into their reverse, the node renumbering, the link mapping and the
      map from a Basin's original id to its number. */
  datatype Setup = Setup(g: Graph, mergeLinks: seq<int>, nodeMap: map<int, int>,
                         linkMap: map<int, int>, basinMap: map<int, int>)

  /** The Basins are numbered 1..n, one per entry of the Basin map, each
      with all its boundaries; every mapped link id is mapped to the last
      exchange carrying it. */
  ghost predicate SetupDone(s: Setup, kinds: seq<Kind>) {
    WithBoundaries(s.g, |s.basinMap.Keys|, kinds) && MapsLinks(s.g, s.linkMap)
  }

  /** `m` maps every id carried by an exchange of `g` to the last exchange
      carrying it, and nothing else. */
  ghost predicate MapsLinks(g: Graph, m: map<int, int>) {
    (forall x :: x in m <==> exists j :: Carries(g, EdgesView(g), j, x)) &&
    (forall x :: x in m ==>
       Carries(g, EdgesView(g), m[x], x) &&
       (forall j :: m[x] < j < |EdgesView(g)| ==> !Carries(g, EdgesView(g), j, x)))
  }

  lemma BuiltFacts(v: Variant, g: Graph, ns: seq<NodeRow>, ls: seq<LinkRow>)
    requires FromNodeRows(v, g, ns) && FromLinkRows(g, ls)
    ensures OrigIdsAreKeys(g) && NonEmptyIds(g)
  {
    forall e | e in g.ids ensures |g.ids[e]| > 0 {
      var row :| row in ls && IsFlowRow(row, e) && g.ids[e] == [row.linkId];
    }
  }

  /** After the simplification: numbering fails only on a node that is no
      Basin or boundary, with a ValueError; otherwise the relabelled graph
      gets its boundaries, and the Basin map has one entry per Basin. */
  lemma FinishFacts(g: Graph, kinds: seq<Kind>)
    requires Valid(g) && Typed(g) && OrigIdsAreKeys(g)
    requires forall i :: 0 <= i < |kinds| ==> IsKindType(kinds[i].ntype)
    ensures var n := Numbered(g, g.order);
      (n.Err? ==> n.error.ValueError?) &&
      (n.Ok? ==> Renames(g, n.value.nodeMap)) &&
      (n.Ok? ==> |n.value.basinMap.Keys| == n.value.basinId) &&
      (n.Ok? ==> forall k :: k in n.value.basinMap ==> 1 <= n.value.basinMap[k] <= n.value.basinId) &&
      (n.Ok? ==>
        var h := Relabel(g, n.value.nodeMap);
        var b := Boundaries(Growth(h, n.value.boundaryId), h.order, kinds);
        b.Ok? && WithBoundaries(b.value.g, n.value.basinId, kinds))
  {
    NumberingFacts(g);
    var n := Numbered(g, g.order);
    if n.Ok? {
      var s := n.value;
      assert NumberingOk(g, s);
      RelabelFacts(g, s);
      BoundariesAdded(Relabel(g, s.nodeMap), s, kinds);
      BasinNumbers(g, s);
    }
  }

  lemma BasinNumbers(g: Graph, s: Numbering)
    requires Ranked(g, s)
    requires forall k :: k in s.basinMap ==> k in g.info && IsType(g, k, BASIN)
    requires forall k :: k in s.basinMap ==> k in s.nodeMap && s.basinMap[k] == s.nodeMap[k]
    ensures forall k :: k in s.basinMap ==> 1 <= s.basinMap[k] <= s.basinId
  {
    BasinNotBoundary();
  }

  /** What `_setup_graph` yields on the graph `g` it built: the error of the
      written simplification, or else a set-up whose merged link ids are
      those the 2-cycle phase folded, with the Basins numbered 1..n, each
      with all its boundaries, and the link ids mapped. */
  ghost predicate SetupOutcome(g: Graph, evaporate: bool, r: Result<Setup>) {
    (SimplifyAsWritten(g).Err? ==> r == Err(SimplifyAsWritten(g).error)) &&
    (r.Ok? <==> SimplifyAsWritten(g).Ok?) &&
    (r.Ok? ==> SimplifyAsWritten(g).Ok? && r.value.mergeLinks == SimplifyAsWritten(g).value.merged) &&
    (r.Ok? ==> SetupDone(r.value, BoundaryKinds(evaporate))) &&
    (r.Ok? ==> forall k :: k in r.value.basinMap ==> 1 <= r.value.basinMap[k] <= |r.value.basinMap.Keys|)
  }

  /** `_setup_graph`: build the graph, simplify it as written, number and
      relabel the nodes, add the Basin boundaries and map the link ids. Its
      closing assertion, one Basin map entry per Basin number, always
      holds. */
  method SetupGraph(nodes: Option<seq<NodeRow>>, links: Option<seq<LinkRow>>, evaporate: bool)
    returns (r: Result<Setup>)
    ensures nodes.None? || links.None? ==> r == Err(AssertionError(""))
    ensures nodes.Some? && links.Some? ==>
      exists g :: BuiltFrom(Current, g, nodes.value, links.value) && SetupOutcome(g, evaporate, r)
    ensures r.Ok? ==> SetupDone(r.value, BoundaryKinds(evaporate))
  {
    var built := Build(Current, nodes, links);
    if built.Err? {
      return Err(built.error);
    }
    var g := built.value;
    BuiltFacts(Current, g, nodes.value, links.value);
    r := SetupBuilt(g, evaporate);
    assert BuiltFrom(Current, g, nodes.value, links.value) && SetupOutcome(g, evaporate, r);
  }

  /** `_setup_graph` once the graph is built. */
  method SetupBuilt(g: Graph, evaporate: bool) returns (r: Result<Setup>)
    requires Valid(g) && NonEmptyIds(g) && OrigIdsAreKeys(g)
    ensures SetupOutcome(g, evaporate, r)
  {
    SimplifyAgrees(g);
    SimplifyFacts(g);
    SimplifiedNumberable(g);
    var simplified := SimplifyGraph(g);
    if simplified.Err? {
      return Err(simplified.error);
    }
    r := FinishGraph(simplified.value.g, simplified.value.merged, evaporate);
  }

  /** The end of `_setup_graph` on the simplified graph: number and
      relabel the nodes, add the Basin boundaries and map the link ids. */
  method FinishGraph(g3: Graph, merged: seq<int>, evaporate: bool) returns (r: Result<Setup>)
    requires Valid(g3) && Typed(g3) && OrigIdsAreKeys(g3)
    ensures r.Err? <==> Numbered(g3, g3.order).Err?
    ensures r.Err? ==> r == Err(Numbered(g3, g3.order).error) && r.error.ValueError?
    ensures r.Ok? ==> r.value.mergeLinks == merged && SetupDone(r.value, BoundaryKinds(evaporate))
    ensures r.Ok? ==> forall k :: k in r.value.basinMap ==> 1 <= r.value.basinMap[k] <= |r.value.basinMap.Keys|
  {
    FinishFacts(g3, BoundaryKinds(evaporate));
    var n := NumberNodes(g3);
    if n.Err? {
      return Err(n.error);
    }
    var s := n.value;
    var h := Relabel(g3, s.nodeMap);
    var grown := AddBasinBoundaries(h, s.boundaryId, evaporate);
    var lm := BuildLinkMapping(grown.value.g);
    LinkMappingFacts(grown.value.g, EdgesView(grown.value.g));
    assert |s.basinMap.Keys| == s.basinId;
    r := Ok(Setup(grown.value.g, merged, s.nodeMap, lm, s.basinMap));
  }

  /** The four simplification phases of `_setup_graph` run one after the
      other. */
  method SimplifyGraph(g: Graph) returns (r: Result<Folding>)
    ensures r == SimplifyAsWritten(g)
  {
    var p := MergeJunctions(g);
    if p.Err? {
      return Err(p.error);
    }
    var g1 := RemoveAll(p.value.g, p.value.removed);
    if g1.Err? {
      return Err(g1.error);
    }
    var g2 := RemoveConnectorsAsWritten(g1.value);
    if g2.Err? {
      return Err(g2.error);
    }
    var f := FoldUserDemandCycles(g2.value);
    if f.Err? {
      return Err(f.error);
    }
    var g3 := RemoveDemandTerminalsAsWritten(f.value.g);
    if g3.Err? {
      return Err(g3.error);
    }
    return Ok(Folding(g3.value, f.value.merged));
  }
}

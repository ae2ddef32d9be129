/** The third and fourth simplifications of the Delwaq network: a pair of
    opposite links at a UserDemand is folded into one link, whose ids are
    extended with the removed link's ids (recorded as merged, so that their
    flows can be negated), and a Terminal linked to a UserDemand is removed. */
module DelwaqCycles {
  import opened Common
  import opened DiGraph
  import opened DelwaqGraph

  const TERMINAL := "Terminal"

  function Rev(e: Link): Link {
    (e.1, e.0)
  }

  predicate IsType(g: Graph, k: int, t: string) {
    k in g.info && g.info[k].Attrs? && g.info[k].ntype == t
  }

  predicate AtUserDemand(g: Graph, e: Link) {
    IsType(g, e.0, USER_DEMAND) || IsType(g, e.1, USER_DEMAND)
  }

  /** Every node carries a type. */
  predicate Typed(g: Graph) {
    forall k :: k in g.info ==> g.info[k].Attrs?
  }

  /** The graph and the merged link ids so far. */
  datatype Folding = Folding(g: Graph, merged: seq<int>)

  /** Fold link `e` into its reverse and remove it. */
  function Fold(p: Folding, e: Link): Result<Folding>
    requires e in p.g.ids && Rev(e) in p.g.ids
  {
    var ids := p.g.ids[e];
    var h :- RemoveEdge(ExtendIds(p.g, Rev(e), ids), e);
    Ok(Folding(h, p.merged + ids))
  }

  /** The body of the cycle loop for the 2-cycle that link `e` opens, if it
      still has both of its links. */
  function CycleStep(p: Folding, e: Link): Result<Folding> {
    if e.0 == e.1 || e !in p.g.ids || Rev(e) !in p.g.ids then Ok(p)
    else
      var t0 :- TypeOf(p.g, e.0);
      if t0 == USER_DEMAND then Fold(p, e)
      else
        var t1 :- TypeOf(p.g, e.1);
        if t1 == USER_DEMAND then Fold(p, e) else Ok(p)
  }

  /** The cycle loop over the links `es`, in order. */
  function Cycles(p: Folding, es: seq<Link>): Result<Folding>
    decreases |es|
  {
    if es == [] then Ok(p)
    else
      var q :- Cycles(p, es[..|es| - 1]);
      CycleStep(q, es[|es| - 1])
  }

  /** Link `e` of `g` has been folded into its reverse. */
  predicate Folded(g: Graph, h: Graph, e: Link, seen: set<Link>)
    requires e in g.ids
  {
    e in seen && e.0 != e.1 && AtUserDemand(g, e) && Rev(e) in g.ids && Rev(e) in h.ids &&
    h.ids[Rev(e)] == g.ids[Rev(e)] + g.ids[e]
  }

  /** After the links `seen` of `g`: nodes as before, links only removed,
      each removed link folded into its reverse, every other link with its
      old ids, no UserDemand 2-cycle left among the links seen, and the ids
      of the removed links recorded as merged. */
  ghost predicate CycleInv(g: Graph, h: Graph, merged: seq<int>, seen: set<Link>) {
    Valid(h) && h.order == g.order && h.info == g.info &&
    (forall e :: e in h.ids ==> e in g.ids) &&
    (forall e :: e in g.ids && e !in h.ids ==> Folded(g, h, e, seen)) &&
    (forall e :: e in h.ids && !(Rev(e) in g.ids && Rev(e) !in h.ids) ==> h.ids[e] == g.ids[e]) &&
    (forall e :: e in seen && e in h.ids && e.0 != e.1 && Rev(e) in h.ids ==> !AtUserDemand(g, e)) &&
    (forall e, x :: e in g.ids && e !in h.ids && x in g.ids[e] ==> x in merged)
  }

  lemma CycleSkip(g: Graph, h: Graph, merged: seq<int>, seen: set<Link>, e: Link)
    requires CycleInv(g, h, merged, seen)
    requires e.0 == e.1 || e !in h.ids || Rev(e) !in h.ids || !AtUserDemand(g, e)
    ensures CycleInv(g, h, merged, seen + {e})
  {
  }

  lemma CycleFold(g: Graph, p: Folding, seen: set<Link>, e: Link)
    requires CycleInv(g, p.g, p.merged, seen) && e !in seen
    requires e.0 != e.1 && e in p.g.ids && Rev(e) in p.g.ids && AtUserDemand(g, e)
    ensures Fold(p, e).Ok?
    ensures CycleInv(g, Fold(p, e).value.g, Fold(p, e).value.merged, seen + {e})
  {
    var h := p.g;
    assert h.ids[e] == g.ids[e];
    assert h.ids[Rev(e)] == g.ids[Rev(e)];
    var h' := Fold(p, e).value.g;
    assert h'.ids == h.ids[Rev(e) := g.ids[Rev(e)] + g.ids[e]] - {e};
    forall f | f in g.ids && f !in h'.ids ensures Folded(g, h', f, seen + {e}) {
      if f != e {
        assert Rev(f) != e && Rev(f) != Rev(e);
      }
    }
  }

  lemma CycleStepFacts(g: Graph, p: Folding, seen: set<Link>, e: Link)
    requires CycleInv(g, p.g, p.merged, seen) && Typed(g) && e !in seen
    ensures CycleStep(p, e).Ok?
    ensures CycleInv(g, CycleStep(p, e).value.g, CycleStep(p, e).value.merged, seen + {e})
  {
    if e.0 == e.1 || e !in p.g.ids || Rev(e) !in p.g.ids || !AtUserDemand(g, e) {
      CycleSkip(g, p.g, p.merged, seen, e);
    } else {
      CycleFold(g, p, seen, e);
    }
  }

  function LinkSet(es: seq<Link>): set<Link> {
    set e | e in es
  }

  lemma {:induction false} CyclesFacts(g: Graph, es: seq<Link>)
    requires Valid(g) && Typed(g) && Distinct(es)
    ensures var r := Cycles(Folding(g, []), es);
      r.Ok? && CycleInv(g, r.value.g, r.value.merged, LinkSet(es))
    decreases |es|
  {
    if es == [] {
      assert CycleInv(g, g, [], {});
    } else {
      var es' := es[..|es| - 1];
      var e := es[|es| - 1];
      assert LinkSet(es) == LinkSet(es') + {e} by {
        assert es == es' + [e];
      }
      CyclesFacts(g, es');
      CycleStepFacts(g, Cycles(Folding(g, []), es').value, LinkSet(es'), e);
    }
  }

  /** The 2-cycle fold, scanning the links in order. */
  function CyclePhase(g: Graph): Result<Folding> {
    Cycles(Folding(g, []), g.links)
  }

  /** The fold never fails on typed nodes; afterwards no 2-cycle touches a
      UserDemand, each removed link was one of such a pair and its ids were
      appended to its reverse and recorded as merged, and every other link
      is kept with its ids. */
  lemma CyclePhaseFacts(g: Graph)
    requires Valid(g) && Typed(g)
    ensures var r := CyclePhase(g);
      r.Ok? && Valid(r.value.g) && r.value.g.order == g.order && r.value.g.info == g.info &&
      (forall e :: e in r.value.g.ids && e.0 != e.1 && Rev(e) in r.value.g.ids ==> !AtUserDemand(g, e)) &&
      (forall e :: e in r.value.g.ids ==> e in g.ids) &&
      (forall e :: e in g.ids && e !in r.value.g.ids ==>
        e.0 != e.1 && AtUserDemand(g, e) && Rev(e) in r.value.g.ids &&
        r.value.g.ids[Rev(e)] == g.ids[Rev(e)] + g.ids[e]) &&
      (forall e :: e in r.value.g.ids && !(Rev(e) in g.ids && Rev(e) !in r.value.g.ids) ==>
        r.value.g.ids[e] == g.ids[e]) &&
      (forall e, x :: e in g.ids && e !in r.value.g.ids && x in g.ids[e] ==> x in r.value.merged)
  {
    CyclesFacts(g, g.links);
    var h := CyclePhase(g).value.g;
    forall e | e in h.ids && e.0 != e.1 && Rev(e) in h.ids ensures !AtUserDemand(g, e) {
      assert e in g.links;
    }
  }

  lemma {:induction false} CyclesErr(p: Folding, es: seq<Link>, k: nat)
    requires k <= |es| && Cycles(p, es[..k]).Err?
    ensures Cycles(p, es) == Cycles(p, es[..k])
    decreases |es|
  {
    if k < |es| {
      var init := es[..|es| - 1];
      assert init[..k] == es[..k];
      CyclesErr(p, init, k);
    } else {
      assert es[..k] == es;
    }
  }

  /** The cycle loop. */
  method FoldUserDemandCycles(g: Graph) returns (r: Result<Folding>)
    ensures r == CyclePhase(g)
  {
    r := FoldCycles(Folding(g, []), g.links);
  }

  /** The loop over the links, from the folding `p0`. */
  method FoldCycles(p0: Folding, es: seq<Link>) returns (r: Result<Folding>)
    ensures r == Cycles(p0, es)
  {
    var p := p0;
    var n := 0;
    while n < |es|
      invariant 0 <= n <= |es|
      invariant Cycles(p0, es[..n]) == Ok(p)
    {
      var e := es[n];
      assert es[..n + 1][..n] == es[..n];
      var next := CycleStep(p, e);
      if next.Err? {
        CyclesErr(p0, es, n + 1);
        return next;
      }
      p := next.value;
      n := n + 1;
    }
    assert es[..n] == es;
    return Ok(p);
  }

  /** Node `k` is the Terminal end of link `e`, whose other end is a UserDemand. */
  predicate TerminalOf(g: Graph, e: Link, k: int) {
    (IsType(g, e.0, TERMINAL) && IsType(g, e.1, USER_DEMAND) && k == e.0) ||
    (IsType(g, e.0, USER_DEMAND) && IsType(g, e.1, TERMINAL) && k == e.1)
  }

  /** Node `k` is a Terminal linked to or from a UserDemand. */
  ghost predicate DemandTerminal(g: Graph, k: int) {
    exists e :: e in g.ids && TerminalOf(g, e, k)
  }

  /** The body of the loop over the links: the type of the link's start is read
      first, that of its end only when the start is a Terminal or a UserDemand. */
  function TerminalStep(g: Graph, found: seq<int>, e: Link): Result<seq<int>> {
    var a :- TypeOf(g, e.0);
    if a == TERMINAL then
      var b :- TypeOf(g, e.1);
      Ok(if b == USER_DEMAND then found + [e.0] else found)
    else if a == USER_DEMAND then
      var b :- TypeOf(g, e.1);
      Ok(if b == TERMINAL then found + [e.1] else found)
    else Ok(found)
  }

  /** The Terminals found along the links `es`, in order, one entry per link. */
  function Terminals(g: Graph, es: seq<Link>): Result<seq<int>>
    decreases |es|
  {
    if es == [] then Ok([])
    else
      var found :- Terminals(g, es[..|es| - 1]);
      TerminalStep(g, found, es[|es| - 1])
  }

  /** On typed nodes the loop never fails and lists exactly the Terminal
      ends of the Terminal-UserDemand links among `es`. */
  lemma {:induction false} TerminalsFacts(g: Graph, es: seq<Link>)
    requires Typed(g) && forall e :: e in es ==> e.0 in g.info && e.1 in g.info
    ensures var r := Terminals(g, es);
      r.Ok? && forall k :: k in r.value <==> exists e :: e in es && TerminalOf(g, e, k)
    decreases |es|
  {
    if es != [] {
      var es' := es[..|es| - 1];
      var e := es[|es| - 1];
      assert forall f :: f in es <==> f in es' || f == e;
      TerminalsFacts(g, es');
    }
  }

  /** Removing the Terminals at UserDemands as written: a Terminal with two
      such links is listed, and removed, twice. */
  function TerminalPhaseAsWritten(g: Graph): Result<Graph> {
    var found :- Terminals(g, EdgesView(g));
    RemoveNodes(g, found)
  }

  /** Removing the Terminals at UserDemands, each once. */
  function TerminalPhase(g: Graph): Result<Graph> {
    var found :- Terminals(g, EdgesView(g));
    RemoveNodes(g, Dedup(found))
  }

  /** As written, the removal succeeds exactly when no Terminal is listed twice. */
  lemma TerminalPhaseAsWrittenFacts(g: Graph)
    requires Valid(g) && Typed(g)
    ensures Terminals(g, EdgesView(g)).Ok?
    ensures TerminalPhaseAsWritten(g).Ok? <==> Distinct(Terminals(g, EdgesView(g)).value)
  {
    EdgesViewLinks(g);
    TerminalsFacts(g, EdgesView(g));
    RemoveNodesOk(g, Terminals(g, EdgesView(g)).value);
  }

  /** Two UserDemands returning their flow to one Terminal. */
  function SharedTerminal(): Graph {
    Graph([1, 2, 3],
          map[1 := Attrs(TERMINAL, 1), 2 := Attrs(USER_DEMAND, 2), 3 := Attrs(USER_DEMAND, 3)],
          [(2, 1), (3, 1)], map[(2, 1) := [10], (3, 1) := [11]])
  }

  /** The Terminal shared by two UserDemands is removed twice as written,
      and the second removal fails. */
  lemma SharedTerminalFails()
    ensures TerminalPhaseAsWritten(SharedTerminal()) == Err(MissingNode(1))
    ensures TerminalPhase(SharedTerminal()).Ok?
  {
    var g := SharedTerminal();
    SharedTerminalFound();
    assert 1 in g.info;
    RemovedTwice(g, 1);
    RemovedOnce(g, 1);
  }

  lemma SharedTerminalFound()
    ensures Terminals(SharedTerminal(), EdgesView(SharedTerminal())) == Ok([1, 1])
  {
    SharedTerminalEdges();
    SharedTerminalSteps();
    TerminalsTwo(SharedTerminal(), (2, 1), (3, 1), [1], [1, 1]);
  }

  /** Two links whose steps succeed in turn. */
  lemma TerminalsTwo(g: Graph, e1: Link, e2: Link, f1: seq<int>, f2: seq<int>)
    requires TerminalStep(g, [], e1) == Ok(f1) && TerminalStep(g, f1, e2) == Ok(f2)
    ensures Terminals(g, [e1, e2]) == Ok(f2)
  {
    TerminalsSnoc(g, [], e1);
    assert [] + [e1] == [e1];
    TerminalsSnoc(g, [e1], e2);
    assert [e1] + [e2] == [e1, e2];
  }

  lemma SharedTerminalEdges()
    ensures EdgesView(SharedTerminal()) == [(2, 1), (3, 1)]
  {
  }

  lemma SharedTerminalSteps()
    ensures TerminalStep(SharedTerminal(), [], (2, 1)) == Ok([1])
    ensures TerminalStep(SharedTerminal(), [1], (3, 1)) == Ok([1, 1])
  {
    var g := SharedTerminal();
    assert TypeOf(g, 2) == Ok(USER_DEMAND) && TypeOf(g, 1) == Ok(TERMINAL);
    assert TypeOf(g, 3) == Ok(USER_DEMAND);
    assert [] + [1] == [1] && [1] + [1] == [1, 1];
  }

  lemma TerminalsSnoc(g: Graph, es: seq<Link>, e: Link)
    ensures Terminals(g, es + [e]) == if Terminals(g, es).Err? then Terminals(g, es) else TerminalStep(g, Terminals(g, es).value, e)
  {
    assert (es + [e])[..|es|] == es;
  }

  /** Removing each Terminal at a UserDemand once never fails on typed
      nodes; it removes exactly those Terminals and their links, keeps
      everything else as it was, and leaves no Terminal-UserDemand link. */
  lemma TerminalPhaseFacts(g: Graph)
    requires Valid(g) && Typed(g)
    ensures var r := TerminalPhase(g);
      r.Ok? && Valid(r.value) && Typed(r.value) &&
      (forall k :: k in r.value.info <==> k in g.info && !DemandTerminal(g, k)) &&
      (forall k :: k in r.value.info ==> r.value.info[k] == g.info[k]) &&
      (forall e :: e in r.value.ids <==> e in g.ids && !DemandTerminal(g, e.0) && !DemandTerminal(g, e.1)) &&
      (forall e :: e in r.value.ids ==> r.value.ids[e] == g.ids[e]) &&
      (forall e :: e in r.value.ids ==> !TerminalOf(r.value, e, e.0) && !TerminalOf(r.value, e, e.1))
  {
    TerminalsFound(g);
    var found := Dedup(Terminals(g, EdgesView(g)).value);
    RemoveNodesOk(g, found);
    RemoveNodesKept(g, found);
    var h := TerminalPhase(g).value;
    assert Typed(h) by {
      forall k | k in h.info ensures h.info[k].Attrs? {
        assert h.info[k] == g.info[k];
      }
    }
    NoDemandTerminalLink(g, h);
  }

  lemma TerminalsFound(g: Graph)
    requires Valid(g) && Typed(g)
    ensures Terminals(g, EdgesView(g)).Ok?
    ensures forall k :: k in Dedup(Terminals(g, EdgesView(g)).value) <==> DemandTerminal(g, k)
  {
    EdgesViewLinks(g);
    TerminalsFacts(g, EdgesView(g));
  }

  lemma NoDemandTerminalLink(g: Graph, h: Graph)
    requires forall k :: k in h.info ==> k in g.info && h.info[k] == g.info[k]
    requires forall e :: e in h.ids ==> e in g.ids && !DemandTerminal(g, e.0) && !DemandTerminal(g, e.1)
    ensures forall e :: e in h.ids ==> !TerminalOf(h, e, e.0) && !TerminalOf(h, e, e.1)
  {
    forall e | e in h.ids ensures !TerminalOf(h, e, e.0) && !TerminalOf(h, e, e.1) {
      if TerminalOf(h, e, e.0) {
        assert TerminalOf(g, e, e.0);
      }
      if TerminalOf(h, e, e.1) {
        assert TerminalOf(g, e, e.1);
      }
    }
  }

  lemma {:induction false} TerminalsErr(g: Graph, es: seq<Link>, k: nat)
    requires k <= |es| && Terminals(g, es[..k]).Err?
    ensures Terminals(g, es) == Terminals(g, es[..k])
    decreases |es|
  {
    if k < |es| {
      var init := es[..|es| - 1];
      assert init[..k] == es[..k];
      TerminalsErr(g, init, k);
    } else {
      assert es[..k] == es;
    }
  }

  /** The loop over the links collecting the Terminals to remove. */
  method CollectTerminals(g: Graph, es: seq<Link>) returns (r: Result<seq<int>>)
    ensures r == Terminals(g, es)
  {
    var found := [];
    var n := 0;
    while n < |es|
      invariant 0 <= n <= |es|
      invariant Terminals(g, es[..n]) == Ok(found)
    {
      assert es[..n + 1][..n] == es[..n];
      var next := TerminalStep(g, found, es[n]);
      if next.Err? {
        TerminalsErr(g, es, n + 1);
        return next;
      }
      found := next.value;
      n := n + 1;
    }
    assert es[..n] == es;
    return Ok(found);
  }

  /** The removal of the Terminals at UserDemands as `_setup_graph` runs
      it: a Terminal is removed once per UserDemand link it has. */
  method RemoveDemandTerminalsAsWritten(g: Graph) returns (r: Result<Graph>)
    ensures r == TerminalPhaseAsWritten(g)
  {
    var found := CollectTerminals(g, EdgesView(g));
    if found.Err? {
      return Err(found.error);
    }
    r := RemoveAll(g, found.value);
  }

  /** Whenever the written removal succeeds it agrees with the corrected
      one. */
  lemma TerminalPhaseRefines(g: Graph)
    requires Valid(g)
    ensures TerminalPhaseAsWritten(g).Ok? ==> TerminalPhaseAsWritten(g) == TerminalPhase(g)
  {
    var t := Terminals(g, EdgesView(g));
    if t.Ok? {
      RemoveNodesDedup(g, t.value);
    }
  }

  /** The removal of the Terminals at UserDemands, each once. */
  method RemoveDemandTerminals(g: Graph) returns (r: Result<Graph>)
    ensures r == TerminalPhase(g)
  {
    var found := CollectTerminals(g, EdgesView(g));
    if found.Err? {
      return Err(found.error);
    }
    r := RemoveAll(g, Dedup(found.value));
  }
}

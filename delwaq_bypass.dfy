/** The second simplification of the Delwaq network: every node that is not
    a Basin or a boundary is bypassed (each inflow neighbour is linked to each
    outflow neighbour, the new link carrying the first id of the outflow
    link, or that id appended to an existing link), and the bypassed nodes
    and the isolated nodes are removed. */
module DelwaqBypass {
  import opened Common
  import opened DiGraph
  import opened DelwaqGraph

  /** The node types that stay in the Delwaq network. */
  const KEPT: seq<string> := ["Basin", "Terminal", "LevelBoundary", "FlowBoundary", "UserDemand"]

  /** `G.get_edge_data(n, o)["id"][0]`: a missing link gives `None`, which
      cannot be subscripted. */
  function FirstId(g: Graph, e: Link): (r: Result<int>)
    ensures e in g.ids && |g.ids[e]| > 0 ==> r == Ok(g.ids[e][0])
  {
    if e !in g.ids then Err(TypeError("'NoneType' object is not subscriptable"))
    else First(g.ids[e])
  }

  /** One pass of the innermost loop for unwanted node `n`: link `i` to `o`,
      or append to the existing link, unless `o` is marked for removal. */
  function BypassStep(n: int, removed: seq<int>, i: int, cur: Graph, o: int): Result<Graph> {
    if o in removed then Ok(cur)
    else
      var id :- FirstId(cur, (n, o));
      if (i, o) in cur.ids then Ok(ExtendIds(cur, (i, o), [id]))
      else Ok(AddEdge(cur, i, o, [id]))
  }

  function Bypass(n: int, removed: seq<int>, i: int, cur: Graph, os: seq<int>): Result<Graph>
    decreases |os|
  {
    if os == [] then Ok(cur)
    else
      var h :- Bypass(n, removed, i, cur, os[..|os| - 1]);
      BypassStep(n, removed, i, h, os[|os| - 1])
  }

  function Bypasses(n: int, removed: seq<int>, cur: Graph, ins: seq<int>, outs: seq<int>): Result<Graph>
    decreases |ins|
  {
    if ins == [] then Ok(cur)
    else
      var h :- Bypasses(n, removed, cur, ins[..|ins| - 1], outs);
      Bypass(n, removed, ins[|ins| - 1], h, outs)
  }

  /** Bypassing node `n`, whose own entry is already in `removed`. */
  function NodeBypass(g: Graph, n: int, removed: seq<int>): Result<Graph> {
    Bypasses(n, removed, g, Pred(g, n), Succ(g, n))
  }

  /** The pairs handled so far whose target is not marked for removal. */
  predicate Handled(e: Link, removed: seq<int>, insDone: set<int>, outs: set<int>, i: int, outsDone: set<int>) {
    Done(e, insDone, outs, i, outsDone) && e.1 !in removed
  }

  /** Part way through bypassing `n` from graph `s`: nodes as before, every
      link kept, and each handled pair carries its old ids (none for a new
      link) followed by the first id of the link from `n` to its target. */
  ghost predicate BypassInv(s: Graph, cur: Graph, n: int, removed: seq<int>, outs: set<int>,
                            insDone: set<int>, i: int, outsDone: set<int>) {
    outsDone <= outs && OutLinksCarry(s, n, outs) &&
    cur.order == s.order && cur.info == s.info &&
    (forall e :: e in s.ids ==> e in cur.ids) &&
    (forall e :: e in cur.ids ==> e in s.ids || Handled(e, removed, insDone, outs, i, outsDone)) &&
    (forall e :: Handled(e, removed, insDone, outs, i, outsDone) ==> e in cur.ids) &&
    (forall e :: e in cur.ids && !Handled(e, removed, insDone, outs, i, outsDone) ==> cur.ids[e] == s.ids[e]) &&
    (forall e :: Handled(e, removed, insDone, outs, i, outsDone) ==>
      (n, e.1) in s.ids && |s.ids[(n, e.1)]| > 0 &&
      cur.ids[e] == IdsOf(s, e) + [s.ids[(n, e.1)][0]])
  }

  /** The outflow links of `n` exist and carry ids. */
  predicate OutLinksCarry(s: Graph, n: int, outs: set<int>) {
    forall o :: o in outs ==> (n, o) in s.ids && |s.ids[(n, o)]| > 0
  }

  /** The link from `n` to a pending target still starts with its old first id. */
  lemma BypassSource(s: Graph, cur: Graph, n: int, removed: seq<int>, outs: set<int>,
                     insDone: set<int>, i: int, outsDone: set<int>, o: int)
    requires BypassInv(s, cur, n, removed, outs, insDone, i, outsDone) && o in outs
    ensures (n, o) in cur.ids && |cur.ids[(n, o)]| > 0 && cur.ids[(n, o)][0] == s.ids[(n, o)][0]
  {
  }

  lemma BypassSkip(s: Graph, cur: Graph, n: int, removed: seq<int>, outs: set<int>,
                   insDone: set<int>, i: int, outsDone: set<int>, o: int)
    requires BypassInv(s, cur, n, removed, outs, insDone, i, outsDone) && o in outs && o in removed
    ensures BypassInv(s, cur, n, removed, outs, insDone, i, outsDone + {o})
  {
    assert forall e :: Handled(e, removed, insDone, outs, i, outsDone + {o}) <==>
      Handled(e, removed, insDone, outs, i, outsDone);
  }

  lemma BypassExtend(s: Graph, cur: Graph, n: int, removed: seq<int>, outs: set<int>,
                     insDone: set<int>, i: int, outsDone: set<int>, o: int)
    requires BypassInv(s, cur, n, removed, outs, insDone, i, outsDone)
    requires o in outs && o !in removed && i !in insDone && o !in outsDone && (i, o) in cur.ids
    ensures BypassInv(s, ExtendIds(cur, (i, o), [s.ids[(n, o)][0]]), n, removed, outs, insDone, i, outsDone + {o})
  {
    assert !Handled((i, o), removed, insDone, outs, i, outsDone);
    assert cur.ids[(i, o)] == IdsOf(s, (i, o));
    BypassUpdate(s, cur, ExtendIds(cur, (i, o), [s.ids[(n, o)][0]]), n, removed, outs, insDone, i, outsDone, o);
  }

  lemma BypassAdd(s: Graph, cur: Graph, n: int, removed: seq<int>, outs: set<int>,
                  insDone: set<int>, i: int, outsDone: set<int>, o: int)
    requires BypassInv(s, cur, n, removed, outs, insDone, i, outsDone)
    requires o in outs && o !in removed && i !in insDone && o !in outsDone && (i, o) !in cur.ids
    ensures BypassInv(s, Linked(cur, (i, o), [s.ids[(n, o)][0]]), n, removed, outs, insDone, i, outsDone + {o})
  {
    assert IdsOf(s, (i, o)) == [];
    assert [] + [s.ids[(n, o)][0]] == [s.ids[(n, o)][0]];
    BypassUpdate(s, cur, Linked(cur, (i, o), [s.ids[(n, o)][0]]), n, removed, outs, insDone, i, outsDone, o);
  }

  /** Handling the pair from `i` to `o`: its ids become its old ones followed
      by the first id of the link from `n` to `o`. */
  lemma BypassUpdate(s: Graph, cur: Graph, h: Graph, n: int, removed: seq<int>, outs: set<int>,
                     insDone: set<int>, i: int, outsDone: set<int>, o: int)
    requires BypassInv(s, cur, n, removed, outs, insDone, i, outsDone)
    requires o in outs && o !in removed && i !in insDone && o !in outsDone
    requires h.order == cur.order && h.info == cur.info
    requires h.ids == cur.ids[(i, o) := IdsOf(s, (i, o)) + [s.ids[(n, o)][0]]]
    ensures BypassInv(s, h, n, removed, outs, insDone, i, outsDone + {o})
  {
    var done := outsDone + {o};
    forall e ensures Handled(e, removed, insDone, outs, i, done) <==> Handled(e, removed, insDone, outs, i, outsDone) || e == (i, o) {
    }
    forall e | e in h.ids && !Handled(e, removed, insDone, outs, i, done) ensures h.ids[e] == s.ids[e] {
      assert e != (i, o);
    }
    forall e | Handled(e, removed, insDone, outs, i, done)
      ensures (n, e.1) in s.ids && |s.ids[(n, e.1)]| > 0 && h.ids[e] == IdsOf(s, e) + [s.ids[(n, e.1)][0]]
    {
      if e != (i, o) {
        assert Handled(e, removed, insDone, outs, i, outsDone);
      }
    }
  }

  lemma BypassStepFacts(s: Graph, cur: Graph, n: int, removed: seq<int>, outs: set<int>,
                        insDone: set<int>, i: int, outsDone: set<int>, o: int)
    requires Valid(cur) && BypassInv(s, cur, n, removed, outs, insDone, i, outsDone)
    requires i in s.info && o in s.info
    requires o in outs && i !in insDone && o !in outsDone
    ensures var r := BypassStep(n, removed, i, cur, o);
      r.Ok? && Valid(r.value) && BypassInv(s, r.value, n, removed, outs, insDone, i, outsDone + {o})
  {
    if o in removed {
      BypassSkip(s, cur, n, removed, outs, insDone, i, outsDone, o);
    } else {
      BypassSource(s, cur, n, removed, outs, insDone, i, outsDone, o);
      var x := s.ids[(n, o)][0];
      if (i, o) in cur.ids {
        BypassExtend(s, cur, n, removed, outs, insDone, i, outsDone, o);
      } else {
        BypassAdd(s, cur, n, removed, outs, insDone, i, outsDone, o);
        LinkedIsAddEdge(cur, (i, o), [x]);
      }
    }
  }

  lemma {:induction false} BypassFacts(s: Graph, cur: Graph, n: int, removed: seq<int>, i: int,
                                       os: seq<int>, all: set<int>, insDone: set<int>)
    requires Valid(cur) && BypassInv(s, cur, n, removed, all, insDone, i, {})
    requires OutLinksCarry(s, n, all) && i in s.info && i !in insDone
    requires Distinct(os) && Elems(os) <= all && forall o :: o in all ==> o in s.info
    ensures var r := Bypass(n, removed, i, cur, os);
      r.Ok? && Valid(r.value) && BypassInv(s, r.value, n, removed, all, insDone, i, Elems(os))
    decreases |os|
  {
    if os != [] {
      var os' := os[..|os| - 1];
      DistinctAt(os, |os| - 1);
      ElemsSnoc(os);
      BypassFacts(s, cur, n, removed, i, os', all, insDone);
      var h := Bypass(n, removed, i, cur, os').value;
      assert Bypass(n, removed, i, cur, os) == BypassStep(n, removed, i, h, os[|os| - 1]);
      BypassStepFacts(s, h, n, removed, all, insDone, i, Elems(os'), os[|os| - 1]);
    }
  }

  lemma BypassNext(s: Graph, cur: Graph, n: int, removed: seq<int>, outs: set<int>,
                   insDone: set<int>, i: int, i': int)
    requires BypassInv(s, cur, n, removed, outs, insDone, i, outs)
    ensures BypassInv(s, cur, n, removed, outs, insDone + {i}, i', {})
  {
    assert forall e :: Handled(e, removed, insDone, outs, i, outs) <==>
      Handled(e, removed, insDone + {i}, outs, i', {});
  }

  lemma BypassSwitch(s: Graph, cur: Graph, n: int, removed: seq<int>, outs: set<int>,
                     insDone: set<int>, i: int, i': int)
    requires BypassInv(s, cur, n, removed, outs, insDone, i, {})
    ensures BypassInv(s, cur, n, removed, outs, insDone, i', {})
  {
    assert forall e :: Handled(e, removed, insDone, outs, i, {}) <==>
      Handled(e, removed, insDone, outs, i', {});
  }

  lemma {:induction false} BypassesFacts(s: Graph, n: int, removed: seq<int>, ins: seq<int>, outs: seq<int>)
    requires Valid(s) && Distinct(ins) && Distinct(outs) && OutLinksCarry(s, n, Elems(outs))
    requires forall x :: x in ins ==> x in s.info
    requires forall o :: o in outs ==> o in s.info
    ensures var r := Bypasses(n, removed, s, ins, outs);
      r.Ok? && Valid(r.value) && BypassInv(s, r.value, n, removed, Elems(outs), Elems(ins), 0, {})
    decreases |ins|
  {
    if ins != [] {
      var ins' := ins[..|ins| - 1];
      var i := ins[|ins| - 1];
      DistinctAt(ins, |ins| - 1);
      ElemsSnoc(ins);
      BypassesFacts(s, n, removed, ins', outs);
      var h := Bypasses(n, removed, s, ins', outs).value;
      BypassSwitch(s, h, n, removed, Elems(outs), Elems(ins'), 0, i);
      BypassFacts(s, h, n, removed, i, outs, Elems(outs), Elems(ins'));
      BypassNext(s, Bypass(n, removed, i, h, outs).value, n, removed, Elems(outs), Elems(ins'), i, 0);
    }
  }

  /** Bypassing node `n` never fails on a valid graph whose links carry ids;
      it keeps the nodes and every link, appends to each link from an inflow
      neighbour to an outflow neighbour not marked for removal the first id
      of that outflow link (creating the link when missing), and changes
      nothing else. */
  lemma NodeBypassFacts(g: Graph, n: int, removed: seq<int>)
    requires Valid(g) && NonEmptyIds(g)
    ensures var r := NodeBypass(g, n, removed);
      r.Ok? && Valid(r.value) && NonEmptyIds(r.value) &&
      r.value.order == g.order && r.value.info == g.info &&
      (forall e :: e in g.ids ==> e in r.value.ids && g.ids[e] <= r.value.ids[e]) &&
      (forall i, o :: i in Pred(g, n) && o in Succ(g, n) && o !in removed ==>
        (i, o) in r.value.ids && r.value.ids[(i, o)] == IdsOf(g, (i, o)) + [g.ids[(n, o)][0]]) &&
      (forall e :: e in r.value.ids && !(e.0 in Pred(g, n) && e.1 in Succ(g, n) && e.1 !in removed) ==>
        e in g.ids && r.value.ids[e] == g.ids[e])
  {
    var ins := Pred(g, n);
    var outs := Succ(g, n);
    forall x | x in ins ensures x in g.info {
      assert (x, n) in g.ids;
    }
    forall o | o in outs ensures o in g.info {
      assert (n, o) in g.ids;
    }
    BypassesFacts(g, n, removed, ins, outs);
    BypassDone(g, NodeBypass(g, n, removed).value, n, removed, ins, outs);
  }

  /** The ids once every inflow neighbour has been handled. */
  lemma BypassDone(g: Graph, h: Graph, n: int, removed: seq<int>, ins: seq<int>, outs: seq<int>)
    requires NonEmptyIds(g) && BypassInv(g, h, n, removed, Elems(outs), Elems(ins), 0, {})
    ensures NonEmptyIds(h)
    ensures forall e :: e in g.ids ==> e in h.ids && g.ids[e] <= h.ids[e]
    ensures forall i, o :: i in ins && o in outs && o !in removed ==>
      (i, o) in h.ids && h.ids[(i, o)] == IdsOf(g, (i, o)) + [g.ids[(n, o)][0]]
    ensures forall e :: e in h.ids && !(e.0 in ins && e.1 in outs && e.1 !in removed) ==>
      e in g.ids && h.ids[e] == g.ids[e]
  {
    forall i, o | i in ins && o in outs && o !in removed
      ensures (i, o) in h.ids && h.ids[(i, o)] == IdsOf(g, (i, o)) + [g.ids[(n, o)][0]]
    {
      assert Handled((i, o), removed, Elems(ins), Elems(outs), 0, {});
    }
  }

  // ---------------------------------------------------------------- the loops

  lemma BypassNextOut(n: int, removed: seq<int>, i: int, start: Graph, os: seq<int>, b: nat, cur: Graph)
    requires b < |os| && Bypass(n, removed, i, start, os[..b]) == Ok(cur)
    ensures Bypass(n, removed, i, start, os[..b + 1]) == BypassStep(n, removed, i, cur, os[b])
  {
    assert os[..b + 1][..b] == os[..b];
  }

  lemma {:induction false} BypassErr(n: int, removed: seq<int>, i: int, cur: Graph, os: seq<int>, k: nat)
    requires k <= |os| && Bypass(n, removed, i, cur, os[..k]).Err?
    ensures Bypass(n, removed, i, cur, os) == Bypass(n, removed, i, cur, os[..k])
    decreases |os|
  {
    if k < |os| {
      var init := os[..|os| - 1];
      assert init[..k] == os[..k];
      BypassErr(n, removed, i, cur, init, k);
    } else {
      assert os[..k] == os;
    }
  }

  lemma BypassNextIn(n: int, removed: seq<int>, start: Graph, ins: seq<int>, outs: seq<int>, a: nat, cur: Graph)
    requires a < |ins| && Bypasses(n, removed, start, ins[..a], outs) == Ok(cur)
    ensures Bypasses(n, removed, start, ins[..a + 1], outs) == Bypass(n, removed, ins[a], cur, outs)
  {
    assert ins[..a + 1][..a] == ins[..a];
  }

  lemma {:induction false} BypassesErr(n: int, removed: seq<int>, cur: Graph, ins: seq<int>, outs: seq<int>, k: nat)
    requires k <= |ins| && Bypasses(n, removed, cur, ins[..k], outs).Err?
    ensures Bypasses(n, removed, cur, ins, outs) == Bypasses(n, removed, cur, ins[..k], outs)
    decreases |ins|
  {
    if k < |ins| {
      var init := ins[..|ins| - 1];
      assert init[..k] == ins[..k];
      BypassesErr(n, removed, cur, init, outs, k);
    } else {
      assert ins[..k] == ins;
    }
  }

  /** The innermost loop for inflow neighbour `i` of unwanted node `n`. */
  method BypassInflow(n: int, removed: seq<int>, i: int, start: Graph, outs: seq<int>) returns (r: Result<Graph>)
    ensures r == Bypass(n, removed, i, start, outs)
  {
    var cur := start;
    var b := 0;
    while b < |outs|
      invariant 0 <= b <= |outs|
      invariant Bypass(n, removed, i, start, outs[..b]) == Ok(cur)
    {
      BypassNextOut(n, removed, i, start, outs, b, cur);
      var o := outs[b];
      if o !in removed {
        var id := FirstId(cur, (n, o));
        if id.Err? {
          BypassErr(n, removed, i, start, outs, b + 1);
          return Err(id.error);
        }
        if (i, o) in cur.ids {
          cur := ExtendIds(cur, (i, o), [id.value]);
        } else {
          cur := AddEdge(cur, i, o, [id.value]);
        }
      }
      b := b + 1;
    }
    assert outs[..b] == outs;
    return Ok(cur);
  }

  /** The loop over the inflow neighbours of unwanted node `n`. */
  method BypassInflows(n: int, removed: seq<int>, start: Graph, ins: seq<int>, outs: seq<int>) returns (r: Result<Graph>)
    ensures r == Bypasses(n, removed, start, ins, outs)
  {
    var cur := start;
    var a := 0;
    while a < |ins|
      invariant 0 <= a <= |ins|
      invariant Bypasses(n, removed, start, ins[..a], outs) == Ok(cur)
    {
      BypassNextIn(n, removed, start, ins, outs, a, cur);
      var next := BypassInflow(n, removed, ins[a], cur, outs);
      if next.Err? {
        BypassesErr(n, removed, start, ins, outs, a + 1);
        return next;
      }
      cur := next.value;
      a := a + 1;
    }
    assert ins[..a] == ins;
    return Ok(cur);
  }

  method BypassNode(g: Graph, n: int, removed: seq<int>) returns (r: Result<Graph>)
    ensures r == NodeBypass(g, n, removed)
  {
    r := BypassInflows(n, removed, g, Pred(g, n), Succ(g, n));
  }

  // ------------------------------------------------------------- the phase

  /** Node `k` is typed with a type that stays in the network. */
  predicate Kept(g: Graph, k: int) {
    k in g.info && g.info[k].Attrs? && g.info[k].ntype in KEPT
  }

  /** Node `k` is typed with a type that does not stay. */
  predicate Unwanted(g: Graph, k: int) {
    k in g.info && g.info[k].Attrs? && g.info[k].ntype !in KEPT
  }

  /** The body of the loop over the nodes for node `k`. */
  function UnwantedStep(p: Pass, k: int): Result<Pass> {
    var t :- TypeOf(p.g, k);
    if t in KEPT then Ok(p)
    else
      var removed := p.removed + [k];
      var h :- NodeBypass(p.g, k, removed);
      Ok(Pass(h, removed))
  }

  function Bypassed(p: Pass, ks: seq<int>): Result<Pass>
    decreases |ks|
  {
    if ks == [] then Ok(p)
    else
      var q :- Bypassed(p, ks[..|ks| - 1]);
      UnwantedStep(q, ks[|ks| - 1])
  }

  /** The loop over the nodes fails only on a node without a type; it keeps
      the nodes and every link (ids only grow at the end), and marks exactly
      the unwanted nodes. */
  lemma {:induction false} BypassedFacts(g: Graph, ks: seq<int>)
    requires Valid(g) && NonEmptyIds(g) && Distinct(ks) && forall k :: k in ks ==> k in g.info
    ensures var r := Bypassed(Pass(g, []), ks);
      (r.Ok? <==> forall k :: k in ks ==> g.info[k].Attrs?) &&
      (r.Err? ==> r.error == KeyError("type")) &&
      (r.Ok? ==> Valid(r.value.g) && NonEmptyIds(r.value.g)) &&
      (r.Ok? ==> r.value.g.order == g.order && r.value.g.info == g.info) &&
      (r.Ok? ==> forall e :: e in g.ids ==> e in r.value.g.ids && g.ids[e] <= r.value.g.ids[e]) &&
      (r.Ok? ==> Distinct(r.value.removed)) &&
      (r.Ok? ==> forall k :: k in r.value.removed <==> k in ks && Unwanted(g, k))
    decreases |ks|
  {
    if ks != [] {
      var ks' := ks[..|ks| - 1];
      var k := ks[|ks| - 1];
      assert forall x :: x in ks <==> x in ks' || x == k;
      BypassedFacts(g, ks');
      var r' := Bypassed(Pass(g, []), ks');
      if r'.Ok? {
        var q := r'.value;
        if Unwanted(g, k) {
          NodeBypassFacts(q.g, k, q.removed + [k]);
          DistinctSnoc(q.removed, k);
        }
      }
    }
  }

  /** Node `k` has no link. */
  predicate Isolated(g: Graph, k: int) {
    forall e :: e in g.links ==> e.0 != k && e.1 != k
  }

  /** `nx.isolates(G)` over the nodes `ks`, in order. */
  function IsolatesOf(g: Graph, ks: seq<int>): (r: seq<int>)
    ensures forall x :: x in r <==> x in ks && Isolated(g, x)
    ensures Distinct(ks) ==> Distinct(r)
  {
    if ks == [] then []
    else
      var rest := IsolatesOf(g, ks[..|ks| - 1]);
      var k := ks[|ks| - 1];
      assert forall x :: x in ks <==> x in ks[..|ks| - 1] || x == k;
      if Isolated(g, k) then
        assert Distinct(ks) ==> Distinct(rest + [k]) by {
          if Distinct(ks) { DistinctSnoc(rest, k); }
        }
        rest + [k]
      else rest
  }

  /** The second phase as written: bypass the unwanted nodes, then remove
      them and the nodes without links, an unwanted node without links
      being listed twice. */
  function ConnectorPhaseAsWritten(g: Graph): Result<Graph> {
    var p :- Bypassed(Pass(g, []), g.order);
    RemoveNodes(p.g, p.removed + IsolatesOf(p.g, p.g.order))
  }

  /** The second phase as evidently intended: every listed node removed once. */
  function ConnectorPhase(g: Graph): Result<Graph> {
    var p :- Bypassed(Pass(g, []), g.order);
    RemoveNodes(p.g, Dedup(p.removed + IsolatesOf(p.g, p.g.order)))
  }

  lemma ConcatDistinct(a: seq<int>, b: seq<int>)
    requires Distinct(a) && Distinct(b)
    ensures Distinct(a + b) <==> forall x :: x in a ==> x !in b
  {
    DisjointDistinct(a, b);
    if Distinct(a + b) {
      forall i, j | 0 <= i < |a| && 0 <= j < |b| ensures a[i] != b[j] {
        assert (a + b)[..|a| + j][i] == a[i];
        assert (a + b)[|a| + j] == b[j];
        DistinctAt(a + b, |a| + j);
      }
    }
  }

  /** Two sequences without repetitions and without a common element
      concatenate to one without repetitions. */
  lemma {:induction false} DisjointDistinct(a: seq<int>, b: seq<int>)
    requires Distinct(a) && Distinct(b)
    ensures (forall x :: x in a ==> x !in b) ==> Distinct(a + b)
    decreases |b|
  {
    if b == [] {
      assert a + b == a;
    } else {
      var b' := b[..|b| - 1];
      assert (a + b)[..|a + b| - 1] == a + b';
      assert forall x :: x in b' ==> x in b;
      DisjointDistinct(a, b');
      var x := b[|b| - 1];
      assert (a + b)[|a + b| - 1] == x && x in b;
      assert forall y :: y in a + b' ==> y in a || y in b';
    }
  }

  /** After the second phase only typed nodes of the kept types with links
      are left, and every link between two kept nodes is still there with
      its ids as a prefix of its new ids. The phase fails on an untyped node
      (KeyError) and, as written, on an unwanted node without links, which
      is listed twice for removal (networkx's NetworkXError). */
  lemma ConnectorPhaseAsWrittenFacts(g: Graph)
    requires Valid(g) && NonEmptyIds(g)
    ensures var r := ConnectorPhaseAsWritten(g);
      var b := Bypassed(Pass(g, []), g.order);
      (b.Err? ==> r == Err(KeyError("type"))) &&
      (b.Ok? ==> (r.Ok? <==> forall k :: Unwanted(g, k) ==> !Isolated(b.value.g, k))) &&
      (r.Err? && b.Ok? ==> exists k :: Unwanted(g, k) && Isolated(b.value.g, k) && r.error == MissingNode(k)) &&
      (r.Ok? ==> Valid(r.value) && NonEmptyIds(r.value)) &&
      (r.Ok? ==> forall k :: k in r.value.info <==> Kept(g, k) && !Isolated(b.value.g, k)) &&
      (r.Ok? ==> forall k :: k in r.value.info ==> r.value.info[k] == g.info[k]) &&
      (r.Ok? ==> forall e :: e in g.ids && Kept(g, e.0) && Kept(g, e.1) ==>
        e in r.value.ids && g.ids[e] <= r.value.ids[e])
  {
    BypassedFacts(g, g.order);
    var b := Bypassed(Pass(g, []), g.order);
    if b.Ok? {
      assert Marked(g, b.value.g, b.value.removed);
      RemovalFacts(g, b.value.g, b.value.removed);
    }
  }

  /** What the loop over the nodes leaves for the removal. */
  ghost predicate Marked(g: Graph, h: Graph, removed: seq<int>) {
    Valid(h) && NonEmptyIds(h) && h.order == g.order && h.info == g.info &&
    (forall k :: k in g.info ==> g.info[k].Attrs?) &&
    (forall e :: e in g.ids ==> e in h.ids && g.ids[e] <= h.ids[e]) &&
    Distinct(removed) && (forall k :: k in removed <==> k in g.order && Unwanted(g, k))
  }

  /** Removing the marked nodes and the nodes without links from the graph
      `h` the loop left. */
  lemma RemovalFacts(g: Graph, h: Graph, removed: seq<int>)
    requires Marked(g, h, removed)
    ensures var r := RemoveNodes(h, removed + IsolatesOf(h, h.order));
      (r.Ok? <==> forall k :: Unwanted(g, k) ==> !Isolated(h, k)) &&
      (r.Err? ==> exists k :: Unwanted(g, k) && Isolated(h, k) && r.error == MissingNode(k)) &&
      (r.Ok? ==> Valid(r.value) && NonEmptyIds(r.value)) &&
      (r.Ok? ==> forall k :: k in r.value.info <==> Kept(g, k) && !Isolated(h, k)) &&
      (r.Ok? ==> forall k :: k in r.value.info ==> r.value.info[k] == g.info[k]) &&
      (r.Ok? ==> forall e :: e in g.ids && Kept(g, e.0) && Kept(g, e.1) ==>
        e in r.value.ids && g.ids[e] <= r.value.ids[e])
  {
    var iso := IsolatesOf(h, h.order);
    RemovalOk(g, h, removed, iso);
    if RemoveNodes(h, removed + iso).Ok? {
      RemovalNodes(g, h, removed, iso);
      RemovalLinks(g, h, removed, iso);
    }
  }

  lemma RemovalOk(g: Graph, h: Graph, removed: seq<int>, iso: seq<int>)
    requires Marked(g, h, removed) && iso == IsolatesOf(h, h.order)
    ensures var r := RemoveNodes(h, removed + iso);
      (r.Ok? <==> forall k :: Unwanted(g, k) ==> !Isolated(h, k)) &&
      (r.Err? ==> exists k :: Unwanted(g, k) && Isolated(h, k) && r.error == MissingNode(k))
  {
    var all := removed + iso;
    ConcatDistinct(removed, iso);
    RemoveNodesFacts(h, all);
    assert forall k :: k in removed <==> Unwanted(g, k);
    assert forall k :: k in iso <==> k in g.info && Isolated(h, k);
    assert forall k :: k in all ==> k in h.info;
    var r := RemoveNodes(h, all);
    if r.Err? {
      var n :| 0 <= n < |all| && r.error == MissingNode(all[n]) && Unremovable(all, h.info, n);
      DuplicateIn(removed, iso, n);
    }
  }

  /** A repeated element of the concatenation of two sequences without
      repetitions occurs in both. */
  lemma DuplicateIn(a: seq<int>, b: seq<int>, n: nat)
    requires Distinct(a) && Distinct(b) && n < |a + b| && (a + b)[n] in (a + b)[..n]
    ensures (a + b)[n] in a && (a + b)[n] in b
  {
    var x := (a + b)[n];
    if n < |a| {
      assert (a + b)[..n] == a[..n];
      DistinctAt(a, n);
    } else {
      var m := n - |a|;
      DistinctAt(b, m);
      assert (a + b)[..n] == a + b[..m];
      assert x == b[m];
    }
  }

  lemma RemovalNodes(g: Graph, h: Graph, removed: seq<int>, iso: seq<int>)
    requires Marked(g, h, removed) && iso == IsolatesOf(h, h.order)
    requires RemoveNodes(h, removed + iso).Ok?
    ensures var r := RemoveNodes(h, removed + iso).value;
      Valid(r) && NonEmptyIds(r) &&
      (forall k :: k in r.info <==> Kept(g, k) && !Isolated(h, k)) &&
      (forall k :: k in r.info ==> r.info[k] == g.info[k])
  {
    var all := removed + iso;
    RemoveNodesKept(h, all);
    assert forall k :: k in all <==> k in removed || k in iso;
  }

  lemma RemovalLinks(g: Graph, h: Graph, removed: seq<int>, iso: seq<int>)
    requires Marked(g, h, removed) && iso == IsolatesOf(h, h.order)
    requires RemoveNodes(h, removed + iso).Ok?
    ensures var r := RemoveNodes(h, removed + iso).value;
      forall e :: e in g.ids && Kept(g, e.0) && Kept(g, e.1) ==> e in r.ids && g.ids[e] <= r.ids[e]
  {
    var all := removed + iso;
    forall e | e in g.ids && Kept(g, e.0) && Kept(g, e.1) ensures e.0 !in all && e.1 !in all {
      assert e in h.links;
    }
    OthersKeepLinks(g, h, all);
  }

  /** A graph holding one Pump and no links. */
  function LonePump(): Graph {
    Graph([5], map[5 := Attrs("Pump", 5)], [], map[])
  }

  /** A Pump without links: the loop marks it, and it is also isolated. */
  lemma IsolatedConnectorFails()
    ensures ConnectorPhaseAsWritten(LonePump()) == Err(MissingNode(5)) && ConnectorPhase(LonePump()).Ok?
  {
    LonePumpBypassed();
    LonePumpIsolated();
    LonePumpRemovedTwice();
    LonePumpRemovedOnce();
  }

  lemma LonePumpBypassed()
    ensures Bypassed(Pass(LonePump(), []), LonePump().order) == Ok(Pass(LonePump(), [5]))
  {
    var g := LonePump();
    assert [5][..0] == [];
    assert Bypassed(Pass(g, []), [5][..0]) == Ok(Pass(g, []));
    assert Pred(g, 5) == [] && Succ(g, 5) == [];
    assert NodeBypass(g, 5, [5]) == Ok(g);
    assert TypeOf(g, 5) == Ok("Pump");
    assert "Pump" !in KEPT;
    assert [] + [5] == [5];
    assert UnwantedStep(Pass(g, []), 5) == Ok(Pass(g, [5]));
  }

  lemma LonePumpIsolated()
    ensures IsolatesOf(LonePump(), LonePump().order) == [5]
  {
    var g := LonePump();
    assert Pred(g, 5) == [] && Succ(g, 5) == [];
  }

  lemma LonePumpRemovedTwice()
    ensures RemoveNodes(LonePump(), [5] + [5]) == Err(MissingNode(5))
  {
    assert 5 in LonePump().info;
    RemovedTwice(LonePump(), 5);
  }

  lemma LonePumpRemovedOnce()
    ensures RemoveNodes(LonePump(), Dedup([5] + [5])).Ok?
  {
    assert 5 in LonePump().info;
    RemovedOnce(LonePump(), 5);
  }

  /** With each node removed once, the second phase fails only on an
      untyped node; afterwards only typed nodes of the kept types that had
      links are left, and every link between two kept nodes is still there
      with its ids as a prefix of its new ids. */
  lemma ConnectorPhaseFacts(g: Graph)
    requires Valid(g) && NonEmptyIds(g)
    ensures var r := ConnectorPhase(g);
      var b := Bypassed(Pass(g, []), g.order);
      (r.Ok? <==> forall k :: k in g.info ==> g.info[k].Attrs?) &&
      (r.Err? ==> r.error == KeyError("type")) &&
      (r.Ok? ==> Valid(r.value) && NonEmptyIds(r.value)) &&
      (r.Ok? ==> forall k :: k in r.value.info <==> Kept(g, k) && !Isolated(b.value.g, k)) &&
      (r.Ok? ==> forall k :: k in r.value.info ==> r.value.info[k] == g.info[k]) &&
      (r.Ok? ==> forall e :: e in g.ids && Kept(g, e.0) && Kept(g, e.1) ==>
        e in r.value.ids && g.ids[e] <= r.value.ids[e])
  {
    BypassedFacts(g, g.order);
    var b := Bypassed(Pass(g, []), g.order);
    if b.Ok? {
      assert Marked(g, b.value.g, b.value.removed);
      DedupRemovalFacts(g, b.value.g, b.value.removed);
    }
  }

  lemma DedupRemovalFacts(g: Graph, h: Graph, removed: seq<int>)
    requires Marked(g, h, removed)
    ensures var r := RemoveNodes(h, Dedup(removed + IsolatesOf(h, h.order)));
      r.Ok? && Valid(r.value) && NonEmptyIds(r.value) &&
      (forall k :: k in r.value.info <==> Kept(g, k) && !Isolated(h, k)) &&
      (forall k :: k in r.value.info ==> r.value.info[k] == g.info[k]) &&
      (forall e :: e in g.ids && Kept(g, e.0) && Kept(g, e.1) ==>
        e in r.value.ids && g.ids[e] <= r.value.ids[e])
  {
    var all := Dedup(removed + IsolatesOf(h, h.order));
    DedupRemovalNodes(g, h, removed, all);
    DedupRemovalLinks(g, h, removed, all);
  }

  lemma DedupRemovalNodes(g: Graph, h: Graph, removed: seq<int>, all: seq<int>)
    requires Marked(g, h, removed) && all == Dedup(removed + IsolatesOf(h, h.order))
    ensures var r := RemoveNodes(h, all);
      r.Ok? && Valid(r.value) && NonEmptyIds(r.value) &&
      (forall k :: k in r.value.info <==> Kept(g, k) && !Isolated(h, k)) &&
      (forall k :: k in r.value.info ==> r.value.info[k] == g.info[k])
  {
    var iso := IsolatesOf(h, h.order);
    assert forall k :: k in all <==> k in removed || k in iso;
    assert forall k :: k in all ==> k in h.info;
    RemoveNodesOk(h, all);
    RemoveNodesKept(h, all);
  }

  lemma DedupRemovalLinks(g: Graph, h: Graph, removed: seq<int>, all: seq<int>)
    requires Marked(g, h, removed) && all == Dedup(removed + IsolatesOf(h, h.order))
    requires RemoveNodes(h, all).Ok?
    ensures var r := RemoveNodes(h, all).value;
      forall e :: e in g.ids && Kept(g, e.0) && Kept(g, e.1) ==> e in r.ids && g.ids[e] <= r.ids[e]
  {
    var iso := IsolatesOf(h, h.order);
    assert forall k :: k in all <==> k in removed || k in iso;
    forall e | e in g.ids && Kept(g, e.0) && Kept(g, e.1) ensures e.0 !in all && e.1 !in all {
      assert e in h.links;
    }
    OthersKeepLinks(g, h, all);
  }

  /** Removing nodes keeps every link of `g` between two nodes not removed,
      with its ids. */
  lemma OthersKeepLinks(g: Graph, h: Graph, all: seq<int>)
    requires Valid(h) && RemoveNodes(h, all).Ok?
    requires forall e :: e in g.ids ==> e in h.ids && g.ids[e] <= h.ids[e]
    ensures var r := RemoveNodes(h, all).value;
      forall e :: e in g.ids && e.0 !in all && e.1 !in all ==> e in r.ids && g.ids[e] <= r.ids[e]
  {
    RemoveNodesKept(h, all);
  }

  /** The loop over the nodes. */
  method BypassUnwanted(g: Graph) returns (r: Result<Pass>)
    ensures r == Bypassed(Pass(g, []), g.order)
  {
    var p := Pass(g, []);
    var n := 0;
    while n < |g.order|
      invariant 0 <= n <= |g.order|
      invariant Bypassed(Pass(g, []), g.order[..n]) == Ok(p)
    {
      var k := g.order[n];
      assert g.order[..n + 1][..n] == g.order[..n];
      var t := TypeOf(p.g, k);
      if t.Err? {
        BypassedErr(Pass(g, []), g.order, n + 1);
        return Err(t.error);
      }
      if t.value !in KEPT {
        var removed := p.removed + [k];
        var h := BypassNode(p.g, k, removed);
        if h.Err? {
          BypassedErr(Pass(g, []), g.order, n + 1);
          return Err(h.error);
        }
        p := Pass(h.value, removed);
      }
      n := n + 1;
    }
    assert g.order[..n] == g.order;
    return Ok(p);
  }

  lemma {:induction false} BypassedErr(p: Pass, ks: seq<int>, k: nat)
    requires k <= |ks| && Bypassed(p, ks[..k]).Err?
    ensures Bypassed(p, ks) == Bypassed(p, ks[..k])
    decreases |ks|
  {
    if k < |ks| {
      var init := ks[..|ks| - 1];
      assert init[..k] == ks[..k];
      BypassedErr(p, init, k);
    } else {
      assert ks[..k] == ks;
    }
  }

  /** The second phase as `_setup_graph` runs it: an unwanted node without
      links is removed twice. */
  method RemoveConnectorsAsWritten(g: Graph) returns (r: Result<Graph>)
    ensures r == ConnectorPhaseAsWritten(g)
  {
    var p := BypassUnwanted(g);
    if p.Err? {
      return Err(p.error);
    }
    var removed := p.value.removed + IsolatesOf(p.value.g, p.value.g.order);
    r := RemoveAll(p.value.g, removed);
  }

  /** The written phase and the corrected one agree except where the
      written one fails on a node listed twice: whenever the written phase
      succeeds, or the corrected one fails, both give the same result. */
  lemma ConnectorPhaseRefines(g: Graph)
    requires Valid(g) && NonEmptyIds(g)
    ensures ConnectorPhaseAsWritten(g).Ok? ==> ConnectorPhaseAsWritten(g) == ConnectorPhase(g)
    ensures ConnectorPhase(g).Err? ==> ConnectorPhaseAsWritten(g) == ConnectorPhase(g)
  {
    BypassedFacts(g, g.order);
    var b := Bypassed(Pass(g, []), g.order);
    if b.Ok? {
      assert Marked(g, b.value.g, b.value.removed);
      RemoveNodesDedup(b.value.g, b.value.removed + IsolatesOf(b.value.g, b.value.g.order));
      DedupRemovalFacts(g, b.value.g, b.value.removed);
    }
  }

  /** The second phase with every listed node removed once. */
  method RemoveConnectors(g: Graph) returns (r: Result<Graph>)
    ensures r == ConnectorPhase(g)
  {
    var p := BypassUnwanted(g);
    if p.Err? {
      return Err(p.error);
    }
    var removed := Dedup(p.value.removed + IsolatesOf(p.value.g, p.value.g.order));
    r := RemoveAll(p.value.g, removed);
  }
}

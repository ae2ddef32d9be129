/** The last change to the relabelled Delwaq network: every Basin gains a
    Drainage, a Precipitation and a SurfaceRunoff node that flow into it, an
    Infiltration node it flows into and, when mass evaporates, an Evaporation
    node it flows into. Each new node takes the next free negative number and
    the Basin's original id; each new link carries the link id -1. */
module DelwaqBoundaries {
  import opened Common
  import opened DiGraph
  import opened DelwaqGraph
  import opened DelwaqCycles
  import opened DelwaqNumbering

  /** A boundary kind: its node type, and whether it flows into the Basin. */
  datatype Kind = Kind(ntype: string, inflow: bool)

  const DRAINAGE := Kind("Drainage", true)
  const PRECIPITATION := Kind("Precipitation", true)
  const SURFACE_RUNOFF := Kind("SurfaceRunoff", true)
  const INFILTRATION := Kind("Infiltration", false)
  const EVAPORATION := Kind("Evaporation", false)

  /** The kinds added per Basin, in the order they are added. */
  function BoundaryKinds(evaporate: bool): (ks: seq<Kind>)
    ensures |ks| == if evaporate then 5 else 4
    ensures ks[..4] == [DRAINAGE, PRECIPITATION, SURFACE_RUNOFF, INFILTRATION]
    ensures EVAPORATION in ks <==> evaporate
  {
    [DRAINAGE, PRECIPITATION, SURFACE_RUNOFF, INFILTRATION] + if evaporate then [EVAPORATION] else []
  }

  predicate IsKindType(t: string) {
    t in {"Drainage", "Precipitation", "SurfaceRunoff", "Infiltration", "Evaporation"}
  }

  /** The link between a Basin and its boundary node `b`. */
  function KindLink(kind: Kind, basin: int, b: int): Link {
    if kind.inflow then (b, basin) else (basin, b)
  }

  /** The graph and the last boundary number handed out. */
  datatype Growth = Growth(g: Graph, boundaryId: int)

  /** One boundary node of kind `kind` and its link. */
  function AttachKind(s: Growth, basin: int, orig: int, kind: Kind): Growth {
    var b := s.boundaryId - 1;
    var h := AddNode(s.g, b, kind.ntype, orig);
    var e := KindLink(kind, basin, b);
    Growth(AddEdge(h, e.0, e.1, [-1]), b)
  }

  /** The boundary nodes of the kinds `kinds`, in order, for one Basin. */
  function AttachAll(s: Growth, basin: int, orig: int, kinds: seq<Kind>): Growth
    decreases |kinds|
  {
    if kinds == [] then s
    else AttachKind(AttachAll(s, basin, orig, kinds[..|kinds| - 1]), basin, orig, kinds[|kinds| - 1])
  }

  /** The body of the loop over the nodes for node `k`. */
  function BasinStep(s: Growth, k: int, kinds: seq<Kind>): Result<Growth> {
    var t :- TypeOf(s.g, k);
    if t == BASIN then Ok(AttachAll(s, k, s.g.info[k].origId, kinds)) else Ok(s)
  }

  /** The loop over the nodes `ks`, a list taken before the loop starts. */
  function Boundaries(s: Growth, ks: seq<int>, kinds: seq<Kind>): Result<Growth>
    decreases |ks|
  {
    if ks == [] then Ok(s)
    else
      var q :- Boundaries(s, ks[..|ks| - 1], kinds);
      BasinStep(q, ks[|ks| - 1], kinds)
  }

  // ------------------------------------------------------------- invariants

  /** No node is numbered below `b`. */
  predicate Fresh(g: Graph, b: int) {
    forall k :: k in g.info ==> b <= k
  }

  /** `h` is `g` with nodes and links added after the old ones. */
  predicate Extends(g: Graph, h: Graph) {
    g.order <= h.order && g.links <= h.links &&
    (forall k :: k in g.info ==> k in h.info && h.info[k] == g.info[k]) &&
    (forall e :: e in g.ids ==> e in h.ids && h.ids[e] == g.ids[e])
  }

  lemma ExtendsTrans(a: Graph, b: Graph, c: Graph)
    requires Extends(a, b) && Extends(b, c)
    ensures Extends(a, c)
  {
    assert a.order == b.order[..|a.order|] && b.order == c.order[..|b.order|];
    assert c.order[..|b.order|][..|a.order|] == c.order[..|a.order|];
    assert a.links == b.links[..|a.links|] && b.links == c.links[..|b.links|];
    assert c.links[..|b.links|][..|a.links|] == c.links[..|a.links|];
  }

  /** Node `b` is a boundary of kind `kind` of `basin`, linked to it with id -1. */
  predicate AttachedAt(h: Graph, basin: int, orig: int, kind: Kind, b: int) {
    b in h.info && h.info[b] == Attrs(kind.ntype, orig) &&
    KindLink(kind, basin, b) in h.ids && h.ids[KindLink(kind, basin, b)] == [-1]
  }

  /** A node of `h` that is not in `g` is a boundary node numbered in [lo, hi). */
  predicate NewNodes(g: Graph, h: Graph, lo: int, hi: int) {
    forall k :: k in h.info && k !in g.info ==>
      lo <= k < hi && h.info[k].Attrs? && IsKindType(h.info[k].ntype)
  }

  /** A link of `h` that is not in `g` carries -1 and joins a new node to `basin`. */
  predicate NewLinksAt(g: Graph, h: Graph, basin: int) {
    forall e :: e in h.ids && e !in g.ids ==>
      h.ids[e] == [-1] && ((e.0 == basin && e.1 !in g.info) || (e.1 == basin && e.0 !in g.info))
  }

  // ------------------------------------------------------------- one Basin

  /** `g` with the new node `b` and the new link `e`. */
  function Grown(g: Graph, b: int, t: string, orig: int, e: Link): Graph {
    Graph(g.order + [b], g.info[b := Attrs(t, orig)], g.links + [e], g.ids[e := [-1]])
  }

  /** Below every node, the new node and its link are new. */
  lemma AttachKindFresh(s: Growth, basin: int, orig: int, kind: Kind)
    requires Valid(s.g) && basin in s.g.info && Fresh(s.g, s.boundaryId)
    ensures var b := s.boundaryId - 1;
      AttachKind(s, basin, orig, kind) == Growth(Grown(s.g, b, kind.ntype, orig, KindLink(kind, basin, b)), b)
  {
    var b := s.boundaryId - 1;
    assert b !in s.g.info;
    var e := KindLink(kind, basin, b);
    assert e !in s.g.ids;
  }

  lemma AttachKindFacts(s: Growth, basin: int, orig: int, kind: Kind)
    requires Valid(s.g) && basin in s.g.info && Fresh(s.g, s.boundaryId) && IsKindType(kind.ntype)
    ensures var r := AttachKind(s, basin, orig, kind);
      r.boundaryId == s.boundaryId - 1 && Valid(r.g) && Fresh(r.g, r.boundaryId) &&
      Extends(s.g, r.g) && (NonEmptyIds(s.g) ==> NonEmptyIds(r.g)) &&
      AttachedAt(r.g, basin, orig, kind, r.boundaryId) &&
      NewNodes(s.g, r.g, r.boundaryId, s.boundaryId) && NewLinksAt(s.g, r.g, basin)
  {
    AttachKindFresh(s, basin, orig, kind);
    var b := s.boundaryId - 1;
    var e := KindLink(kind, basin, b);
    GrownFacts(s.g, b, kind.ntype, orig, e);
    var h := Grown(s.g, b, kind.ntype, orig, e);
    assert Fresh(h, b);
  }

  lemma GrownFacts(g: Graph, b: int, t: string, orig: int, e: Link)
    requires Valid(g) && b !in g.info && (e == (b, e.1) || e == (e.0, b)) && e.0 != e.1
    requires e.0 in g.info || e.1 in g.info
    ensures var h := Grown(g, b, t, orig, e); Valid(h) && Extends(g, h) && (NonEmptyIds(g) ==> NonEmptyIds(h))
  {
    var h := Grown(g, b, t, orig, e);
    assert b !in g.order;
    DistinctSnoc(g.order, b);
    assert e !in g.ids;
    assert e !in g.links;
    DistinctSnoc(g.links, e);
    assert g.order <= h.order && g.links <= h.links;
  }

  lemma {:induction false} AttachAllFacts(s: Growth, basin: int, orig: int, kinds: seq<Kind>)
    requires Valid(s.g) && basin in s.g.info && Fresh(s.g, s.boundaryId)
    requires forall i :: 0 <= i < |kinds| ==> IsKindType(kinds[i].ntype)
    ensures var r := AttachAll(s, basin, orig, kinds);
      r.boundaryId == s.boundaryId - |kinds| && Valid(r.g) && Fresh(r.g, r.boundaryId) &&
      Extends(s.g, r.g) && (NonEmptyIds(s.g) ==> NonEmptyIds(r.g)) &&
      (forall i :: 0 <= i < |kinds| ==> AttachedAt(r.g, basin, orig, kinds[i], s.boundaryId - 1 - i)) &&
      NewNodes(s.g, r.g, r.boundaryId, s.boundaryId) && NewLinksAt(s.g, r.g, basin)
    decreases |kinds|
  {
    if kinds != [] {
      var init := kinds[..|kinds| - 1];
      AttachAllFacts(s, basin, orig, init);
      var q := AttachAll(s, basin, orig, init);
      AttachKindFacts(q, basin, orig, kinds[|kinds| - 1]);
      var r := AttachKind(q, basin, orig, kinds[|kinds| - 1]);
      ExtendsTrans(s.g, q.g, r.g);
      AttachedKept(s, q, r, basin, orig, init, kinds);
      NewPartsJoin(s.g, q.g, r.g, basin, r.boundaryId, q.boundaryId, s.boundaryId);
    }
  }

  lemma AttachedKept(s: Growth, q: Growth, r: Growth, basin: int, orig: int, init: seq<Kind>, kinds: seq<Kind>)
    requires kinds != [] && init == kinds[..|kinds| - 1]
    requires Extends(q.g, r.g) && r.boundaryId == s.boundaryId - |kinds|
    requires forall i :: 0 <= i < |init| ==> AttachedAt(q.g, basin, orig, init[i], s.boundaryId - 1 - i)
    requires AttachedAt(r.g, basin, orig, kinds[|kinds| - 1], r.boundaryId)
    ensures forall i :: 0 <= i < |kinds| ==> AttachedAt(r.g, basin, orig, kinds[i], s.boundaryId - 1 - i)
  {
    forall i | 0 <= i < |kinds| ensures AttachedAt(r.g, basin, orig, kinds[i], s.boundaryId - 1 - i) {
      if i < |init| {
        assert init[i] == kinds[i];
      }
    }
  }

  lemma NewPartsJoin(a: Graph, b: Graph, c: Graph, basin: int, lo: int, mid: int, hi: int)
    requires Extends(a, b) && Extends(b, c) && lo <= mid <= hi
    requires NewNodes(a, b, mid, hi) && NewNodes(b, c, lo, mid)
    requires NewLinksAt(a, b, basin) && NewLinksAt(b, c, basin)
    requires forall k :: k in c.info && k !in b.info ==> k !in a.info
    ensures NewNodes(a, c, lo, hi) && NewLinksAt(a, c, basin)
  {
  }

  lemma AttachAllSnoc(s: Growth, basin: int, orig: int, kinds: seq<Kind>, kind: Kind)
    ensures AttachAll(s, basin, orig, kinds + [kind]) == AttachKind(AttachAll(s, basin, orig, kinds), basin, orig, kind)
  {
    assert (kinds + [kind])[..|kinds|] == kinds;
  }

  // ------------------------------------------------------------- all Basins

  /** The number of Basins among `ks`. */
  function BasinCount(g: Graph, ks: seq<int>): nat
    decreases |ks|
  {
    if ks == [] then 0
    else BasinCount(g, ks[..|ks| - 1]) + if IsType(g, ks[|ks| - 1], BASIN) then 1 else 0
  }

  /** Every kind has a boundary node of `basin` numbered below `hi`. */
  ghost predicate HasBoundaries(h: Graph, basin: int, orig: int, kinds: seq<Kind>, hi: int) {
    forall i :: 0 <= i < |kinds| ==> HasBoundary(h, basin, orig, kinds[i], hi)
  }

  /** `basin` has a boundary node of kind `kind` numbered below `hi`. */
  ghost predicate HasBoundary(h: Graph, basin: int, orig: int, kind: Kind, hi: int) {
    exists b :: b < hi && AttachedAt(h, basin, orig, kind, b)
  }

  /** A new link carries -1 and joins a new node to a Basin of `ks`. */
  predicate NewLinks(g: Graph, h: Graph, ks: seq<int>) {
    forall e :: e in h.ids && e !in g.ids ==>
      h.ids[e] == [-1] &&
      ((e.0 in ks && IsType(g, e.0, BASIN) && e.1 !in g.info) ||
       (e.1 in ks && IsType(g, e.1, BASIN) && e.0 !in g.info))
  }

  /** What the loop over `ks` leaves. */
  ghost predicate BoundariesDone(g: Graph, b0: int, ks: seq<int>, kinds: seq<Kind>, r: Growth)
    requires forall k :: k in ks ==> k in g.info
  {
    Valid(r.g) && Fresh(r.g, r.boundaryId) && Extends(g, r.g) &&
    (NonEmptyIds(g) ==> NonEmptyIds(r.g)) &&
    r.boundaryId <= b0 && b0 - r.boundaryId == |kinds| * BasinCount(g, ks) &&
    (forall k :: k in ks && IsType(g, k, BASIN) ==> HasBoundaries(r.g, k, g.info[k].origId, kinds, b0)) &&
    NewNodes(g, r.g, r.boundaryId, b0) && NewLinks(g, r.g, ks)
  }

  /** The loop fails exactly on an untyped node, and otherwise leaves the old
      graph as it was, with each Basin's boundaries attached. */
  lemma {:induction false} BoundariesFacts(g: Graph, b0: int, ks: seq<int>, kinds: seq<Kind>)
    requires Valid(g) && Fresh(g, b0) && (forall k :: k in ks ==> k in g.info)
    requires forall i :: 0 <= i < |kinds| ==> IsKindType(kinds[i].ntype)
    ensures var r := Boundaries(Growth(g, b0), ks, kinds);
      (r.Ok? <==> forall k :: k in ks ==> g.info[k].Attrs?) &&
      (r.Err? ==> r.error == KeyError("type")) &&
      (r.Ok? ==> BoundariesDone(g, b0, ks, kinds, r.value))
    decreases |ks|
  {
    if ks != [] {
      var init := ks[..|ks| - 1];
      var k := ks[|ks| - 1];
      assert forall x :: x in ks <==> x in init || x == k;
      BoundariesFacts(g, b0, init, kinds);
      var q := Boundaries(Growth(g, b0), init, kinds);
      if q.Ok? {
        BasinStepFacts(g, b0, init, k, kinds, q.value);
        assert ks == init + [k];
      }
    }
  }

  lemma BasinStepFacts(g: Graph, b0: int, ks: seq<int>, k: int, kinds: seq<Kind>, q: Growth)
    requires Valid(g) && Fresh(g, b0) && (forall x :: x in ks ==> x in g.info) && k in g.info
    requires forall i :: 0 <= i < |kinds| ==> IsKindType(kinds[i].ntype)
    requires BoundariesDone(g, b0, ks, kinds, q)
    ensures var r := BasinStep(q, k, kinds);
      (r.Ok? <==> g.info[k].Attrs?) && (r.Err? ==> r.error == KeyError("type")) &&
      (r.Ok? ==> BoundariesDone(g, b0, ks + [k], kinds, r.value))
  {
    assert q.g.info[k] == g.info[k];
    assert (ks + [k])[..|ks|] == ks;
    if IsType(g, k, BASIN) {
      BasinAttached(g, b0, ks, k, kinds, q);
    } else if g.info[k].Attrs? {
      assert BasinStep(q, k, kinds) == Ok(q);
      BasinSkipped(g, b0, ks, k, kinds, q);
    }
  }

  lemma BasinSkipped(g: Graph, b0: int, ks: seq<int>, k: int, kinds: seq<Kind>, q: Growth)
    requires (forall x :: x in ks ==> x in g.info) && k in g.info && !IsType(g, k, BASIN)
    requires BoundariesDone(g, b0, ks, kinds, q)
    ensures BoundariesDone(g, b0, ks + [k], kinds, q)
  {
    assert (ks + [k])[..|ks|] == ks;
    assert forall x :: x in ks + [k] <==> x in ks || x == k;
  }

  lemma BasinAttached(g: Graph, b0: int, ks: seq<int>, k: int, kinds: seq<Kind>, q: Growth)
    requires Valid(g) && Fresh(g, b0) && (forall x :: x in ks ==> x in g.info) && IsType(g, k, BASIN)
    requires forall i :: 0 <= i < |kinds| ==> IsKindType(kinds[i].ntype)
    requires BoundariesDone(g, b0, ks, kinds, q)
    ensures var r := AttachAll(q, k, g.info[k].origId, kinds);
      BasinStep(q, k, kinds) == Ok(r) && BoundariesDone(g, b0, ks + [k], kinds, r)
  {
    var orig := g.info[k].origId;
    assert q.g.info[k] == g.info[k];
    assert TypeOf(q.g, k) == Ok(BASIN);
    AttachAllFacts(q, k, orig, kinds);
    var r := AttachAll(q, k, orig, kinds);
    DoneAfterAttach(g, b0, ks, k, kinds, q, r);
  }

  lemma DoneAfterAttach(g: Graph, b0: int, ks: seq<int>, k: int, kinds: seq<Kind>, q: Growth, r: Growth)
    requires (forall x :: x in ks ==> x in g.info) && IsType(g, k, BASIN)
    requires BoundariesDone(g, b0, ks, kinds, q)
    requires r.boundaryId == q.boundaryId - |kinds| && Valid(r.g) && Fresh(r.g, r.boundaryId)
    requires Extends(q.g, r.g) && (NonEmptyIds(q.g) ==> NonEmptyIds(r.g))
    requires forall i :: 0 <= i < |kinds| ==> AttachedAt(r.g, k, g.info[k].origId, kinds[i], q.boundaryId - 1 - i)
    requires NewNodes(q.g, r.g, r.boundaryId, q.boundaryId) && NewLinksAt(q.g, r.g, k)
    ensures BoundariesDone(g, b0, ks + [k], kinds, r)
  {
    ExtendsTrans(g, q.g, r.g);
    CountAfterAttach(g, b0, ks, k, |kinds|, q.boundaryId, r.boundaryId);
    AttachedBoundaries(g, b0, ks, k, kinds, q, r);
    AttachedLinks(g, ks, k, q, r);
  }

  lemma CountAfterAttach(g: Graph, b0: int, ks: seq<int>, k: int, n: nat, qb: int, rb: int)
    requires IsType(g, k, BASIN) && b0 - qb == n * BasinCount(g, ks) && rb == qb - n
    ensures b0 - rb == n * BasinCount(g, ks + [k])
  {
    assert (ks + [k])[..|ks|] == ks;
    assert BasinCount(g, ks + [k]) == BasinCount(g, ks) + 1;
    assert n * (BasinCount(g, ks) + 1) == n * BasinCount(g, ks) + n;
  }

  lemma AttachedBoundaries(g: Graph, b0: int, ks: seq<int>, k: int, kinds: seq<Kind>, q: Growth, r: Growth)
    requires (forall x :: x in ks ==> x in g.info) && IsType(g, k, BASIN)
    requires Extends(q.g, r.g) && q.boundaryId <= b0 && r.boundaryId == q.boundaryId - |kinds|
    requires forall x :: x in ks && IsType(g, x, BASIN) ==> HasBoundaries(q.g, x, g.info[x].origId, kinds, b0)
    requires forall i :: 0 <= i < |kinds| ==> AttachedAt(r.g, k, g.info[k].origId, kinds[i], q.boundaryId - 1 - i)
    ensures forall x :: x in ks + [k] && IsType(g, x, BASIN) ==> HasBoundaries(r.g, x, g.info[x].origId, kinds, b0)
  {
    forall x | x in ks + [k] && IsType(g, x, BASIN)
      ensures HasBoundaries(r.g, x, g.info[x].origId, kinds, b0)
    {
      if x == k {
        HasBoundariesNew(r.g, k, g.info[k].origId, kinds, q.boundaryId, b0);
      } else {
        HasBoundariesKept(q.g, r.g, x, g.info[x].origId, kinds, b0);
      }
    }
  }

  lemma HasBoundariesNew(h: Graph, basin: int, orig: int, kinds: seq<Kind>, b: int, hi: int)
    requires b <= hi && forall i :: 0 <= i < |kinds| ==> AttachedAt(h, basin, orig, kinds[i], b - 1 - i)
    ensures HasBoundaries(h, basin, orig, kinds, hi)
  {
    forall i | 0 <= i < |kinds| ensures HasBoundary(h, basin, orig, kinds[i], hi) {
      var c := b - 1 - i;
      assert c < hi && AttachedAt(h, basin, orig, kinds[i], c);
    }
  }

  lemma HasBoundariesKept(h: Graph, h': Graph, basin: int, orig: int, kinds: seq<Kind>, hi: int)
    requires Extends(h, h') && HasBoundaries(h, basin, orig, kinds, hi)
    ensures HasBoundaries(h', basin, orig, kinds, hi)
  {
    forall i | 0 <= i < |kinds| ensures HasBoundary(h', basin, orig, kinds[i], hi) {
      assert HasBoundary(h, basin, orig, kinds[i], hi);
      var c :| c < hi && AttachedAt(h, basin, orig, kinds[i], c);
      assert AttachedAt(h', basin, orig, kinds[i], c);
    }
  }

  lemma AttachedLinks(g: Graph, ks: seq<int>, k: int, q: Growth, r: Growth)
    requires IsType(g, k, BASIN) && Extends(g, q.g) && Extends(q.g, r.g)
    requires NewLinks(g, q.g, ks) && NewLinksAt(q.g, r.g, k)
    ensures NewLinks(g, r.g, ks + [k])
  {
    assert forall x :: x in ks + [k] <==> x in ks || x == k;
  }

  // ------------------------------------------------------------ the loops

  /** The boundaries of one Basin, added one after the other as
      `_setup_graph` writes them out. */
  method AttachBasin(s: Growth, basin: int, orig: int, evaporate: bool) returns (r: Growth)
    ensures r == AttachAll(s, basin, orig, BoundaryKinds(evaporate))
  {
    r := AttachKind(s, basin, orig, DRAINAGE);
    r := AttachKind(r, basin, orig, PRECIPITATION);
    r := AttachKind(r, basin, orig, SURFACE_RUNOFF);
    r := AttachKind(r, basin, orig, INFILTRATION);
    AttachFour(s, basin, orig);
    if evaporate {
      AttachAllSnoc(s, basin, orig, FOUR, EVAPORATION);
      r := AttachKind(r, basin, orig, EVAPORATION);
    } else {
      assert BoundaryKinds(evaporate) == FOUR;
    }
  }

  const FOUR := [DRAINAGE, PRECIPITATION, SURFACE_RUNOFF, INFILTRATION]

  lemma AttachFour(s: Growth, basin: int, orig: int)
    ensures AttachAll(s, basin, orig, FOUR) ==
      AttachKind(AttachKind(AttachKind(AttachKind(s, basin, orig, DRAINAGE), basin, orig, PRECIPITATION),
                            basin, orig, SURFACE_RUNOFF), basin, orig, INFILTRATION)
  {
    AttachFourOf(s, basin, orig, DRAINAGE, PRECIPITATION, SURFACE_RUNOFF, INFILTRATION);
  }

  /** Four kinds attached in turn are the attachment of the four. */
  lemma AttachFourOf(s: Growth, basin: int, orig: int, k1: Kind, k2: Kind, k3: Kind, k4: Kind)
    ensures AttachAll(s, basin, orig, [k1, k2, k3, k4]) ==
      AttachKind(AttachKind(AttachKind(AttachKind(s, basin, orig, k1), basin, orig, k2), basin, orig, k3), basin, orig, k4)
  {
    AttachThreeOf(s, basin, orig, k1, k2, k3);
    AttachAllSnoc(s, basin, orig, [k1, k2, k3], k4);
    assert [k1, k2, k3] + [k4] == [k1, k2, k3, k4];
  }

  lemma AttachThreeOf(s: Growth, basin: int, orig: int, k1: Kind, k2: Kind, k3: Kind)
    ensures AttachAll(s, basin, orig, [k1, k2, k3]) ==
      AttachKind(AttachKind(AttachKind(s, basin, orig, k1), basin, orig, k2), basin, orig, k3)
  {
    AttachTwoOf(s, basin, orig, k1, k2);
    AttachAllSnoc(s, basin, orig, [k1, k2], k3);
    assert [k1, k2] + [k3] == [k1, k2, k3];
  }

  lemma AttachTwoOf(s: Growth, basin: int, orig: int, k1: Kind, k2: Kind)
    ensures AttachAll(s, basin, orig, [k1, k2]) == AttachKind(AttachKind(s, basin, orig, k1), basin, orig, k2)
  {
    AttachAllSnoc(s, basin, orig, [k1], k2);
    assert [k1] + [k2] == [k1, k2];
    assert [k1][..0] == [];
  }

  /** The loop over a snapshot of the nodes. */
  method AddBasinBoundaries(g: Graph, boundaryId: int, evaporate: bool) returns (r: Result<Growth>)
    ensures r == Boundaries(Growth(g, boundaryId), g.order, BoundaryKinds(evaporate))
  {
    r := BoundaryLoop(Growth(g, boundaryId), g.order, evaporate);
  }

  /** The loop over the nodes `ks`, from the growth `s0`. */
  method BoundaryLoop(s0: Growth, ks: seq<int>, evaporate: bool) returns (r: Result<Growth>)
    ensures r == Boundaries(s0, ks, BoundaryKinds(evaporate))
  {
    ghost var kinds := BoundaryKinds(evaporate);
    var cur := s0;
    var n := 0;
    while n < |ks|
      invariant 0 <= n <= |ks|
      invariant Boundaries(s0, ks[..n], kinds) == Ok(cur)
    {
      assert ks[..n + 1][..n] == ks[..n];
      var next := BoundaryStep(cur, ks[n], evaporate);
      if next.Err? {
        BoundariesErr(s0, ks, kinds, n + 1);
        return next;
      }
      cur := next.value;
      n := n + 1;
    }
    assert ks[..n] == ks;
    return Ok(cur);
  }

  /** One node of the loop. */
  method BoundaryStep(cur: Growth, k: int, evaporate: bool) returns (r: Result<Growth>)
    ensures r == BasinStep(cur, k, BoundaryKinds(evaporate))
  {
    var t := TypeOf(cur.g, k);
    if t.Err? {
      return Err(t.error);
    }
    if t.value == BASIN {
      var next := AttachBasin(cur, k, cur.g.info[k].origId, evaporate);
      return Ok(next);
    }
    return Ok(cur);
  }

  lemma {:induction false} BoundariesErr(s: Growth, ks: seq<int>, kinds: seq<Kind>, k: nat)
    requires k <= |ks| && Boundaries(s, ks[..k], kinds).Err?
    ensures Boundaries(s, ks, kinds) == Boundaries(s, ks[..k], kinds)
    decreases |ks|
  {
    if k < |ks| {
      var init := ks[..|ks| - 1];
      assert init[..k] == ks[..k];
      BoundariesErr(s, init, kinds, k);
    } else {
      assert ks[..k] == ks;
    }
  }
}

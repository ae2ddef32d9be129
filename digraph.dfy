/** The part of a `networkx.DiGraph` the Delwaq export relies on. Nodes are
    kept in insertion order with their attribute dictionary; edges are kept
    in insertion order with their list of link ids. The successors and
    predecessors of a node come out in the order their edges were added, as
    the adjacency dictionaries of networkx give them. Positions and the other
    float attributes are left out. */
module DiGraph {
  import opened Common
  import Strings

  /** A node's attributes: none for a node that `add_edge` created
      implicitly, else its type and its original node id. */
  datatype NodeInfo = Implicit | Attrs(ntype: string, origId: int)

  type Link = (int, int)

  datatype Graph = Graph(order: seq<int>, info: map<int, NodeInfo>,
                         links: seq<Link>, ids: map<Link, seq<int>>)

  /** No element occurs twice (built up from the end, as the orders grow). */
  predicate Distinct<T(==)>(s: seq<T>) {
    s == [] || (s[|s| - 1] !in s[..|s| - 1] && Distinct(s[..|s| - 1]))
  }

  lemma DistinctSnoc<T>(s: seq<T>, x: T)
    requires Distinct(s) && x !in s
    ensures Distinct(s + [x])
  {
    assert (s + [x])[..|s|] == s;
  }

  /** In a sequence without repetitions an element does not occur before its place. */
  lemma {:induction false} DistinctAt<T>(s: seq<T>, b: nat)
    requires Distinct(s) && b < |s|
    ensures s[b] !in s[..b]
    decreases |s|
  {
    if b < |s| - 1 {
      DistinctAt(s[..|s| - 1], b);
      assert s[..|s| - 1][..b] == s[..b];
    }
  }

  /** The node order lists each node once, the link order each link once,
      and every link joins two nodes of the graph. */
  predicate Valid(g: Graph) {
    ValidNodes(g.order, g.info) && ValidLinks(g.links, g.ids, g.info)
  }

  predicate ValidNodes(order: seq<int>, info: map<int, NodeInfo>) {
    Distinct(order) && (forall k :: k in order ==> k in info) &&
    (forall k :: k in info ==> k in order)
  }

  predicate ValidLinks(links: seq<Link>, ids: map<Link, seq<int>>, info: map<int, NodeInfo>) {
    Distinct(links) && (forall e :: e in links ==> e in ids) &&
    (forall e :: e in ids ==> e in links) &&
    (forall e :: e in ids ==> e.0 in info && e.1 in info)
  }

  function Empty(): (g: Graph)
    ensures Valid(g) && g.info == map[] && g.ids == map[]
  {
    Graph([], map[], [], map[])
  }

  /** `s` with every occurrence of `x` removed, order kept. */
  function Without<T(==,!new)>(s: seq<T>, x: T): (r: seq<T>)
    ensures forall y :: y in r <==> y in s && y != x
    ensures |r| <= |s|
    ensures Distinct(s) ==> Distinct(r)
  {
    if s == [] then []
    else
      var last := s[|s| - 1];
      var rest := Without(s[..|s| - 1], x);
      assert forall y :: y in s <==> y in s[..|s| - 1] || y == last;
      if last == x then rest
      else
        assert Distinct(s) ==> Distinct(rest + [last]) by {
          if Distinct(s) { DistinctSnoc(rest, last); }
        }
        rest + [last]
  }

  /** The links of `s` that do not touch node `k`, order kept. */
  function Untouched(s: seq<Link>, k: int): (r: seq<Link>)
    ensures forall e :: e in r <==> e in s && e.0 != k && e.1 != k
    ensures Distinct(s) ==> Distinct(r)
  {
    if s == [] then []
    else
      var last := s[|s| - 1];
      var rest := Untouched(s[..|s| - 1], k);
      assert forall y :: y in s <==> y in s[..|s| - 1] || y == last;
      if last.0 == k || last.1 == k then rest
      else
        assert Distinct(s) ==> Distinct(rest + [last]) by {
          if Distinct(s) { DistinctSnoc(rest, last); }
        }
        rest + [last]
  }

  /** `G.nodes[k]["type"]`. */
  function TypeOf(g: Graph, k: int): (r: Result<string>)
    ensures r.Ok? <==> k in g.info && g.info[k].Attrs?
    ensures r.Ok? ==> r.value == g.info[k].ntype
    ensures k !in g.info ==> r == Err(KeyError(Strings.IntToString(k)))
    ensures k in g.info && g.info[k].Implicit? ==> r == Err(KeyError("type"))
  {
    if k !in g.info then Err(KeyError(Strings.IntToString(k)))
    else if g.info[k].Implicit? then Err(KeyError("type"))
    else Ok(g.info[k].ntype)
  }

  /** `G.add_node(k, type=t, id=orig)`: a new node goes last; an existing one
      keeps its place and gets the new attributes. */
  function AddNode(g: Graph, k: int, t: string, orig: int): (h: Graph)
    ensures h.info == g.info[k := Attrs(t, orig)]
    ensures h.order == if k in g.info then g.order else g.order + [k]
    ensures h.links == g.links && h.ids == g.ids
    ensures Valid(g) ==> Valid(h)
  {
    Graph(if k in g.info then g.order else g.order + [k],
          g.info[k := Attrs(t, orig)], g.links, g.ids)
  }

  /** The node `add_edge` creates when an end point is missing. */
  function EnsureNode(g: Graph, k: int): (h: Graph)
    ensures k in g.info ==> h == g
    ensures k !in g.info ==> h == Graph(g.order + [k], g.info[k := Implicit], g.links, g.ids)
    ensures Valid(g) ==> Valid(h)
  {
    if k in g.info then g else Graph(g.order + [k], g.info[k := Implicit], g.links, g.ids)
  }

  /** `G.add_edge(u, v, id=l)`: missing end points are created (first `u`,
      then `v`); an existing link keeps its place and gets the new id list. */
  function AddEdge(g: Graph, u: int, v: int, l: seq<int>): (h: Graph)
    ensures h.ids == g.ids[(u, v) := l]
    ensures h.links == if (u, v) in g.ids then g.links else g.links + [(u, v)]
    ensures forall k :: k in h.info <==> k in g.info || k == u || k == v
    ensures forall k :: k in g.info ==> h.info[k] == g.info[k]
    ensures forall k :: k in h.info && k !in g.info ==> h.info[k] == Implicit
    ensures u in g.info && v in g.info ==> h.order == g.order && h.info == g.info
    ensures Valid(g) ==> Valid(h)
  {
    var g1 := EnsureNode(EnsureNode(g, u), v);
    Graph(g1.order, g1.info,
          if (u, v) in g.ids then g.links else g.links + [(u, v)],
          g.ids[(u, v) := l])
  }

  /** `G.add_edge(u, v, id=l)` for a new link between two nodes of the graph. */
  function Linked(g: Graph, e: Link, l: seq<int>): Graph {
    Graph(g.order, g.info, g.links + [e], g.ids[e := l])
  }

  lemma LinkedValid(g: Graph, e: Link, l: seq<int>)
    requires Valid(g) && e.0 in g.info && e.1 in g.info && e !in g.ids
    ensures Valid(Linked(g, e, l))
  {
  }

  /** `Linked` is `AddEdge` on a new link between two nodes of the graph. */
  lemma LinkedIsAddEdge(g: Graph, e: Link, l: seq<int>)
    requires e.0 in g.info && e.1 in g.info && e !in g.ids
    ensures Linked(g, e, l) == AddEdge(g, e.0, e.1, l)
  {
  }

  /** `G.get_edge_data(u, v)["id"].extend(more)` on an existing link. */
  function ExtendIds(g: Graph, e: Link, more: seq<int>): (h: Graph)
    requires e in g.ids
    ensures h == Graph(g.order, g.info, g.links, g.ids[e := g.ids[e] + more])
    ensures Valid(g) ==> Valid(h)
  {
    Graph(g.order, g.info, g.links, g.ids[e := g.ids[e] + more])
  }

  /** `G.remove_edge(u, v)`, which fails on a missing link. */
  function RemoveEdge(g: Graph, e: Link): (r: Result<Graph>)
    ensures r.Ok? <==> e in g.ids
    ensures r.Err? ==> r.error.NetworkXError?
    ensures r.Ok? ==> r.value.order == g.order && r.value.info == g.info
    ensures r.Ok? ==> r.value.ids == g.ids - {e} && r.value.links == Without(g.links, e)
    ensures r.Ok? && Valid(g) ==> Valid(r.value)
  {
    if e !in g.ids then
      Err(NetworkXError("The edge " + Strings.IntToString(e.0) + "-" +
                        Strings.IntToString(e.1) + " not in graph."))
    else Ok(Graph(g.order, g.info, Without(g.links, e), g.ids - {e}))
  }

  /** The error networkx raises for a missing node `k`. */
  function MissingNode(k: int): Exception {
    NetworkXError("The node " + Strings.IntToString(k) + " is not in the digraph.")
  }

  /** `G.remove_node(k)`: the node and every link touching it go; a missing
      node fails. */
  function RemoveNode(g: Graph, k: int): (r: Result<Graph>)
    ensures r.Ok? <==> k in g.info
    ensures r.Err? ==> r.error == MissingNode(k)
    ensures r.Ok? ==> r.value.info == g.info - {k} && r.value.order == Without(g.order, k)
    ensures r.Ok? ==> forall e :: e in r.value.ids <==> e in g.ids && e.0 != k && e.1 != k
    ensures r.Ok? ==> forall e :: e in r.value.ids ==> r.value.ids[e] == g.ids[e]
    ensures r.Ok? ==> r.value.links == Untouched(g.links, k)
    ensures r.Ok? && Valid(g) ==> Valid(r.value)
  {
    if k !in g.info then Err(MissingNode(k))
    else
      Ok(Graph(Without(g.order, k), g.info - {k}, Untouched(g.links, k),
               map e | e in g.ids && e.0 != k && e.1 != k :: g.ids[e]))
  }

  /** The sources of the links into `v`, in link order (`G.pred[v]`). */
  function PredIn(links: seq<Link>, v: int): (r: seq<int>)
    ensures forall x :: x in r <==> (x, v) in links
    ensures Distinct(links) ==> Distinct(r)
  {
    if links == [] then []
    else
      var last := links[|links| - 1];
      var rest := PredIn(links[..|links| - 1], v);
      assert forall y :: y in links <==> y in links[..|links| - 1] || y == last;
      if last.1 == v then
        assert Distinct(links) ==> Distinct(rest + [last.0]) by {
          if Distinct(links) { DistinctSnoc(rest, last.0); }
        }
        rest + [last.0]
      else rest
  }

  /** The targets of the links out of `u`, in link order (`G.succ[u]`). */
  function SuccIn(links: seq<Link>, u: int): (r: seq<int>)
    ensures forall x :: x in r <==> (u, x) in links
    ensures Distinct(links) ==> Distinct(r)
  {
    if links == [] then []
    else
      var last := links[|links| - 1];
      var rest := SuccIn(links[..|links| - 1], u);
      assert forall y :: y in links <==> y in links[..|links| - 1] || y == last;
      if last.0 == u then
        assert Distinct(links) ==> Distinct(rest + [last.1]) by {
          if Distinct(links) { DistinctSnoc(rest, last.1); }
        }
        rest + [last.1]
      else rest
  }

  function Pred(g: Graph, v: int): seq<int> {
    PredIn(g.links, v)
  }

  function Succ(g: Graph, u: int): seq<int> {
    SuccIn(g.links, u)
  }

  /** The links out of `u`, in link order. */
  function OutLinks(links: seq<Link>, u: int): (r: seq<Link>)
    ensures forall e :: e in r <==> e in links && e.0 == u
  {
    if links == [] then []
    else if links[0].0 == u then [links[0]] + OutLinks(links[1..], u)
    else OutLinks(links[1..], u)
  }

  /** `G.edges`: the links grouped by source node, sources in node order. */
  function EdgesView(g: Graph): seq<Link> {
    EdgesFrom(g.order, g.links)
  }

  function EdgesFrom(order: seq<int>, links: seq<Link>): (r: seq<Link>)
    ensures forall e :: e in r <==> e in links && e.0 in order
  {
    if order == [] then [] else OutLinks(links, order[0]) + EdgesFrom(order[1..], links)
  }

  /** In a valid graph the edge view holds exactly the links. */
  lemma EdgesViewLinks(g: Graph)
    requires Valid(g)
    ensures forall e :: e in EdgesView(g) <==> e in g.ids
  {
    forall e | e in g.ids ensures e in g.links && e.0 in g.order {
      var k := e.0;
      assert k in g.info;
      assert k in g.order;
    }
  }

}

/**
 * The directed account graph of `run_detection` (backend/graph_engine.py):
 * one edge per ordered (sender, receiver) pair, holding the amount and
 * timestamp of the last transaction seen for that pair.
 *
 * The networkx `DiGraph` is kept as the three things the engine observes:
 * its nodes in first-appearance order, its edges (pairs) in first-appearance
 * order, and the attribute dictionary of each edge.
 */
module AccountGraph {
  import opened Text
  import opened Records

  type Pair = (AccountId, AccountId)

  datatype EdgeAttr = EdgeAttr(amount: real, timestamp: int)

  datatype Graph = Graph(nodes: seq<AccountId>, pairs: seq<Pair>, attr: map<Pair, EdgeAttr>)

  /** What the engine relies on: nodes and pairs listed once each, pairs
      exactly the keyed edges, every endpoint a node. */
  ghost predicate WellFormed(g: Graph) {
    && NoDup(g.nodes)
    && NoDup(g.pairs)
    && Elems(g.pairs) == g.attr.Keys
    && (forall p :: p in g.attr ==> p.0 in g.nodes && p.1 in g.nodes)
  }

  function PairOf(t: Txn): Pair {
    (t.sender, t.receiver)
  }

  function AttrOf(t: Txn): EdgeAttr {
    EdgeAttr(t.amount, t.timestamp)
  }

  /** `G.add_edge(u, v, amount=..., timestamp=...)`: adds the missing endpoints
      (u first), adds the pair if new, and overwrites its attributes. */
  function AddEdge(g: Graph, u: AccountId, v: AccountId, e: EdgeAttr): Graph {
    var withU := if u in g.nodes then g.nodes else g.nodes + [u];
    var withV := if v in withU then withU else withU + [v];
    var ps := if (u, v) in g.attr then g.pairs else g.pairs + [(u, v)];
    Graph(withV, ps, g.attr[(u, v) := e])
  }

  /** The graph after adding the edges of `txns` in order to an empty DiGraph. */
  function GraphOf(txns: seq<Txn>): Graph {
    if txns == [] then Graph([], [], map[])
    else
      var t := txns[|txns| - 1];
      AddEdge(GraphOf(txns[..|txns| - 1]), t.sender, t.receiver, AttrOf(t))
  }

  /** The edge-upsert loop over the rows (backend/graph_engine.py:34-42). */
  method BuildGraph(txns: seq<Txn>) returns (g: Graph)
    ensures g == GraphOf(txns)
    ensures WellFormed(g)
  {
    g := Graph([], [], map[]);
    var i := 0;
    while i < |txns|
      invariant 0 <= i <= |txns|
      invariant g == GraphOf(txns[..i])
    {
      var t := txns[i];
      assert txns[..i + 1][..i] == txns[..i];
      g := AddEdge(g, t.sender, t.receiver, EdgeAttr(t.amount, t.timestamp));
      i := i + 1;
    }
    assert txns[..i] == txns;
    GraphOfWellFormed(txns);
  }

  lemma AddEdgeWellFormed(g: Graph, u: AccountId, v: AccountId, e: EdgeAttr)
    requires WellFormed(g)
    ensures WellFormed(AddEdge(g, u, v, e))
  {
    var h := AddEdge(g, u, v, e);
    assert Elems(h.pairs) == h.attr.Keys;
  }

  lemma {:induction false} GraphOfWellFormed(txns: seq<Txn>)
    ensures WellFormed(GraphOf(txns))
  {
    if txns != [] {
      GraphOfWellFormed(txns[..|txns| - 1]);
      var t := txns[|txns| - 1];
      AddEdgeWellFormed(GraphOf(txns[..|txns| - 1]), t.sender, t.receiver, AttrOf(t));
    }
  }

  /** Every account that sends or receives in `txns`. */
  function RowAccounts(txns: seq<Txn>): set<AccountId> {
    (set t | t in txns :: t.sender) + (set t | t in txns :: t.receiver)
  }

  lemma AccountsSnoc(txns: seq<Txn>, t: Txn)
    ensures RowAccounts(txns + [t]) == RowAccounts(txns) + {t.sender, t.receiver}
  {
    var all := txns + [t];
    assert forall x :: x in all <==> x in txns || x == t;
    assert (set x | x in all :: x.sender) == (set x | x in txns :: x.sender) + {t.sender};
    assert (set x | x in all :: x.receiver) == (set x | x in txns :: x.receiver) + {t.receiver};
  }

  /** The node set is the union of all sender and receiver ids, each listed
      once, so the node count is the number of distinct accounts. */
  lemma GraphNodes(txns: seq<Txn>)
    ensures Elems(GraphOf(txns).nodes) == RowAccounts(txns)
    ensures |GraphOf(txns).nodes| == |RowAccounts(txns)|
  {
    GraphNodeSet(txns);
    GraphOfWellFormed(txns);
    NoDupCard(GraphOf(txns).nodes);
  }

  lemma AddEdgeNodes(g: Graph, u: AccountId, v: AccountId, e: EdgeAttr)
    ensures Elems(AddEdge(g, u, v, e).nodes) == Elems(g.nodes) + {u, v}
  {
    var withU := if u in g.nodes then g.nodes else g.nodes + [u];
    assert Elems(withU) == Elems(g.nodes) + {u};
  }

  lemma {:induction false} GraphNodeSet(txns: seq<Txn>)
    ensures Elems(GraphOf(txns).nodes) == RowAccounts(txns)
  {
    if txns != [] {
      var init, t := txns[..|txns| - 1], txns[|txns| - 1];
      GraphNodeSet(init);
      assert txns == init + [t];
      AccountsSnoc(init, t);
      AddEdgeNodes(GraphOf(init), t.sender, t.receiver, AttrOf(t));
    }
  }

  function PairsOf(txns: seq<Txn>): set<Pair> {
    set t | t in txns :: PairOf(t)
  }

  lemma PairsOfLast(txns: seq<Txn>)
    requires txns != []
    ensures PairsOf(txns) == PairsOf(txns[..|txns| - 1]) + {PairOf(txns[|txns| - 1])}
  {
    var init, t := txns[..|txns| - 1], txns[|txns| - 1];
    assert forall x :: x in txns <==> x in init || x == t by {
      assert txns == init + [t];
    }
  }

  lemma AddEdgeKeys(g: Graph, u: AccountId, v: AccountId, e: EdgeAttr)
    ensures AddEdge(g, u, v, e).attr.Keys == g.attr.Keys + {(u, v)}
  {
  }

  /** The keyed edges are the pairs of the input. */
  lemma {:induction false} GraphKeys(txns: seq<Txn>)
    ensures GraphOf(txns).attr.Keys == PairsOf(txns)
  {
    if txns != [] {
      var init, t := txns[..|txns| - 1], txns[|txns| - 1];
      GraphKeys(init);
      PairsOfLast(txns);
      AddEdgeKeys(GraphOf(init), t.sender, t.receiver, AttrOf(t));
    }
  }

  /** Exactly one edge per distinct (sender, receiver) pair of the input. */
  lemma GraphEdges(txns: seq<Txn>)
    ensures GraphOf(txns).attr.Keys == PairsOf(txns)
    ensures |GraphOf(txns).pairs| == |PairsOf(txns)|
  {
    GraphKeys(txns);
    GraphOfWellFormed(txns);
    NoDupCard(GraphOf(txns).pairs);
  }

  /** Each edge holds the amount and timestamp of the last transaction with its
      pair, in input order (later rows overwrite earlier ones). */
  lemma {:induction false} LastWriteWins(txns: seq<Txn>, i: nat)
    requires i < |txns|
    requires forall j :: i < j < |txns| ==> PairOf(txns[j]) != PairOf(txns[i])
    ensures PairOf(txns[i]) in GraphOf(txns).attr
    ensures GraphOf(txns).attr[PairOf(txns[i])] == AttrOf(txns[i])
  {
    var init := txns[..|txns| - 1];
    if i < |txns| - 1 {
      LastWriteWins(init, i);
    }
  }

  // ---------------------------------------------------------------------------
  // Adjacency as networkx iterates it
  // ---------------------------------------------------------------------------

  /** `G.neighbors(u)`: the successors of u, in the order their edges were first added. */
  function Succ(g: Graph, u: AccountId): seq<AccountId> {
    SuccIn(g.pairs, u)
  }

  function SuccIn(ps: seq<Pair>, u: AccountId): seq<AccountId> {
    if ps == [] then []
    else SuccIn(ps[..|ps| - 1], u) + (if ps[|ps| - 1].0 == u then [ps[|ps| - 1].1] else [])
  }

  function PredIn(ps: seq<Pair>, v: AccountId): seq<AccountId> {
    if ps == [] then []
    else PredIn(ps[..|ps| - 1], v) + (if ps[|ps| - 1].1 == v then [ps[|ps| - 1].0] else [])
  }

  function OutDegree(g: Graph, n: AccountId): nat {
    |SuccIn(g.pairs, n)|
  }

  function InDegree(g: Graph, n: AccountId): nat {
    |PredIn(g.pairs, n)|
  }

  lemma {:induction false} SuccInSpec(ps: seq<Pair>, u: AccountId)
    requires NoDup(ps)
    ensures NoDup(SuccIn(ps, u))
    ensures Elems(SuccIn(ps, u)) == set p | p in Elems(ps) && p.0 == u :: p.1
  {
    if ps != [] {
      var init, last := ps[..|ps| - 1], ps[|ps| - 1];
      assert NoDup(init);
      SuccInSpec(init, u);
      assert ps == init + [last];
      assert Elems(ps) == Elems(init) + {last};
      if last.0 == u {
        assert last !in Elems(init);
        forall p | p in Elems(init) && p.0 == u
          ensures p.1 != last.1
        {
          assert p != last;
        }
        assert last.1 !in Elems(SuccIn(init, u));
        assert last.1 !in SuccIn(init, u);
        NoDupSnoc(SuccIn(init, u), last.1);
        assert SuccIn(ps, u) == SuccIn(init, u) + [last.1];
        assert Elems(SuccIn(ps, u)) == Elems(SuccIn(init, u)) + {last.1};
      } else {
        assert SuccIn(ps, u) == SuccIn(init, u);
      }
      assert (set p | p in Elems(ps) && p.0 == u :: p.1)
          == (set p | p in Elems(init) && p.0 == u :: p.1) + (if last.0 == u then {last.1} else {});
    }
  }

  lemma {:induction false} PredInSpec(ps: seq<Pair>, v: AccountId)
    requires NoDup(ps)
    ensures NoDup(PredIn(ps, v))
    ensures Elems(PredIn(ps, v)) == set p | p in Elems(ps) && p.1 == v :: p.0
  {
    if ps != [] {
      var init, last := ps[..|ps| - 1], ps[|ps| - 1];
      assert NoDup(init);
      PredInSpec(init, v);
      assert ps == init + [last];
      assert Elems(ps) == Elems(init) + {last};
      if last.1 == v {
        assert last !in Elems(init);
        forall p | p in Elems(init) && p.1 == v
          ensures p.0 != last.0
        {
          assert p != last;
        }
        assert last.0 !in Elems(PredIn(init, v));
        assert last.0 !in PredIn(init, v);
        NoDupSnoc(PredIn(init, v), last.0);
        assert PredIn(ps, v) == PredIn(init, v) + [last.0];
        assert Elems(PredIn(ps, v)) == Elems(PredIn(init, v)) + {last.0};
      } else {
        assert PredIn(ps, v) == PredIn(init, v);
      }
      assert (set p | p in Elems(ps) && p.1 == v :: p.0)
          == (set p | p in Elems(init) && p.1 == v :: p.0) + (if last.1 == v then {last.0} else {});
    }
  }

  /** Degrees count distinct adjacent edges: the neighbours of n are its
      successors over edges (n, v) and each is listed once. */
  lemma Degrees(g: Graph, n: AccountId)
    requires WellFormed(g)
    ensures Elems(Succ(g, n)) == set p | p in g.attr && p.0 == n :: p.1
    ensures OutDegree(g, n) == |set p | p in g.attr && p.0 == n :: p.1|
    ensures InDegree(g, n) == |set p | p in g.attr && p.1 == n :: p.0|
  {
    SuccInSpec(g.pairs, n);
    PredInSpec(g.pairs, n);
    NoDupCard(SuccIn(g.pairs, n));
    NoDupCard(PredIn(g.pairs, n));
  }

  /** `G.edges()`: node by node, each node's out-edges in insertion order. */
  function EdgeList(g: Graph): seq<Pair> {
    EdgesFrom(g, g.nodes)
  }

  function EdgesFrom(g: Graph, ns: seq<AccountId>): seq<Pair> {
    if ns == [] then []
    else OutEdges(Succ(g, ns[0]), ns[0]) + EdgesFrom(g, ns[1..])
  }

  function OutEdges(vs: seq<AccountId>, u: AccountId): (r: seq<Pair>)
    ensures |r| == |vs| && forall k :: 0 <= k < |vs| ==> r[k] == (u, vs[k])
  {
    if vs == [] then [] else [(u, vs[0])] + OutEdges(vs[1..], u)
  }

  /** The out-edges of u are its edges, each once. */
  lemma OutEdgesSpec(g: Graph, u: AccountId)
    requires WellFormed(g)
    ensures NoDup(OutEdges(Succ(g, u), u))
    ensures Elems(OutEdges(Succ(g, u), u)) == set p | p in g.attr && p.0 == u
  {
    var succ := Succ(g, u);
    var mine := OutEdges(succ, u);
    SuccInSpec(g.pairs, u);
    forall p | p in g.attr && p.0 == u ensures p in Elems(mine) {
      assert p in Elems(g.pairs);
      assert p.1 in Elems(succ);
      var k :| 0 <= k < |succ| && succ[k] == p.1;
      assert mine[k] == p;
    }
    forall p | p in Elems(mine) ensures p in g.attr && p.0 == u {
      var k :| 0 <= k < |mine| && mine[k] == p;
      assert succ[k] in Elems(succ);
      var q :| q in Elems(g.pairs) && q.0 == u && q.1 == succ[k];
      assert q == p;
    }
  }

  lemma {:induction false} EdgesFromSpec(g: Graph, ns: seq<AccountId>)
    requires WellFormed(g) && NoDup(ns)
    ensures NoDup(EdgesFrom(g, ns))
    ensures Elems(EdgesFrom(g, ns)) == set p | p in g.attr && p.0 in ns
  {
    if ns != [] {
      var u := ns[0];
      assert NoDup(ns[1..]);
      EdgesFromSpec(g, ns[1..]);
      OutEdgesSpec(g, u);
      assert u !in ns[1..];
      NoDupAppend(OutEdges(Succ(g, u), u), EdgesFrom(g, ns[1..]));
      assert ns == [u] + ns[1..];
    }
  }

  /** The edge list holds every edge of the graph exactly once. */
  lemma EdgeListSpec(g: Graph)
    requires WellFormed(g)
    ensures NoDup(EdgeList(g))
    ensures Elems(EdgeList(g)) == g.attr.Keys
    ensures |EdgeList(g)| == |g.attr|
  {
    EdgesFromSpec(g, g.nodes);
    NoDupCard(EdgeList(g));
  }
}

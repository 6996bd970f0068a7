/**
 * Layered shell networks (backend/detectors/shell_detector.py).
 *
 * From each of the first 50 nodes a depth-first search follows directed edges
 * along simple paths of at most 8 nodes. A path of at least 5 nodes whose
 * interior holds at least 2 "shell" accounts (2 or 3 adjacent edges in all)
 * is reported as a ring and not extended further.
 *
 * The search is modelled as it is evidently meant to run: the ring counter
 * belongs to `detect_shells` and goes up by one per ring. As written, the
 * nested function assigns `ring_counter` and so makes it a local of its own;
 * that version is modelled separately below (`FindShellPathsAsWritten`) and
 * proved to report nothing.
 */
module ShellDetector {
  import opened Wrappers
  import opened Text
  import opened Records
  import opened AccountGraph

  const MinPathLength: nat := 5
  /** MIN_PATH_LENGTH + 3: paths are extended only while shorter than this. */
  const MaxPathLength: nat := 8
  const ShellThresholdMin: int := 2
  const ShellThresholdMax: int := 3
  const MinShellNodes: nat := 2
  /** `list(G.nodes())[:50]`. */
  const SourceLimit: nat := 50
  const ShellPrefix: string := "RING_SHELL_"

  type Path = seq<AccountId>

  // ---------------------------------------------------------------------------
  // Transaction counts and the shell test
  // ---------------------------------------------------------------------------

  /** `tx_count`: in-degree plus out-degree of every node. */
  function TxCount(g: Graph): (tx: map<AccountId, int>)
    ensures tx.Keys == Elems(g.nodes)
    ensures forall n :: n in tx ==> tx[n] == InDegree(g, n) + OutDegree(g, n)
  {
    map n | n in g.nodes :: InDegree(g, n) + OutDegree(g, n)
  }

  /** For a well-formed graph, a node's count is the number of its distinct
      incoming edges plus the number of its distinct outgoing edges. */
  lemma TxCountEdges(g: Graph, n: AccountId)
    requires WellFormed(g) && n in g.nodes
    ensures TxCount(g)[n] == |set p | p in g.attr && p.1 == n :: p.0| + |set p | p in g.attr && p.0 == n :: p.1|
  {
    Degrees(g, n);
  }

  /** `tx_count.get(n, 0)`. */
  function TxOf(tx: map<AccountId, int>, n: AccountId): int {
    if n in tx then tx[n] else 0
  }

  predicate IsShell(tx: map<AccountId, int>, n: AccountId) {
    ShellThresholdMin <= TxOf(tx, n) <= ShellThresholdMax
  }

  /** The shell accounts among `xs`, in order. */
  function ShellsAmong(tx: map<AccountId, int>, xs: seq<AccountId>): (r: seq<AccountId>)
    ensures |r| <= |xs|
    ensures forall n :: n in r <==> n in xs && IsShell(tx, n)
  {
    if xs == [] then []
    else ShellsAmong(tx, xs[..|xs| - 1]) + (if IsShell(tx, xs[|xs| - 1]) then [xs[|xs| - 1]] else [])
  }

  /** `path[1:-1]`: the path without its two endpoints. */
  function Interior(p: Path): Path {
    if |p| < 2 then [] else p[1..|p| - 1]
  }

  /** `shell_nodes`: the shell accounts strictly inside the path. */
  function ShellNodes(tx: map<AccountId, int>, p: Path): seq<AccountId> {
    ShellsAmong(tx, Interior(p))
  }

  /** The test a path must pass to be reported. */
  predicate PathQualifies(tx: map<AccountId, int>, p: Path) {
    |p| >= MinPathLength && |ShellNodes(tx, p)| >= MinShellNodes
  }

  // ---------------------------------------------------------------------------
  // The search, as a function of the path reached
  // ---------------------------------------------------------------------------

  /** The paths the search from path p reports, in the order it reports them. */
  function Emit(g: Graph, tx: map<AccountId, int>, p: Path): seq<Path>
    requires 1 <= |p| <= MaxPathLength
    decreases MaxPathLength - |p|, 1, 0
  {
    if PathQualifies(tx, p) then [p]
    else if |p| < MaxPathLength then ExploreKids(g, tx, p, Succ(g, p[|p| - 1]))
    else []
  }

  /** The paths reported below p through the neighbours vs not already on p. */
  function ExploreKids(g: Graph, tx: map<AccountId, int>, p: Path, vs: seq<AccountId>): seq<Path>
    requires 1 <= |p| < MaxPathLength
    decreases MaxPathLength - |p|, 0, |vs|
  {
    if vs == [] then []
    else
      var v := vs[|vs| - 1];
      ExploreKids(g, tx, p, vs[..|vs| - 1]) + (if v in p then [] else Emit(g, tx, p + [v]))
  }

  /** `list(G.nodes())[:50]`. */
  function Sources(g: Graph): seq<AccountId> {
    if |g.nodes| <= SourceLimit then g.nodes else g.nodes[..SourceLimit]
  }

  /** The paths reported over the sources `srcs`, source by source. */
  function ShellPaths(g: Graph, tx: map<AccountId, int>, srcs: seq<AccountId>): seq<Path> {
    if srcs == [] then []
    else ShellPaths(g, tx, srcs[..|srcs| - 1]) + Emit(g, tx, [srcs[|srcs| - 1]])
  }

  /** The ring for the n-th reported path: risk 75 + 2.5 per shell node, i.e.
      150 + 5 per shell node in halves. */
  function ShellRing(tx: map<AccountId, int>, n: nat, p: Path): Ring {
    Ring(RingId(ShellPrefix, n), p, PatternShell, 150 + 5 * |ShellNodes(tx, p)|)
  }

  function ShellRings(tx: map<AccountId, int>, ps: seq<Path>, first: nat): seq<Ring> {
    seq(|ps|, k requires 0 <= k < |ps| => ShellRing(tx, first + k, ps[k]))
  }

  /** What `detect_shells(G)` is meant to return. */
  function ShellRingsOf(g: Graph): seq<Ring> {
    var tx := TxCount(g);
    ShellRings(tx, ShellPaths(g, tx, Sources(g)), 1)
  }

  // ---------------------------------------------------------------------------
  // Properties of the reported paths
  // ---------------------------------------------------------------------------

  predicate PrefixOf(a: Path, b: Path) {
    |a| <= |b| && b[..|a|] == a
  }

  /** Consecutive accounts of the path are joined by directed edges. */
  ghost predicate FollowsEdges(g: Graph, p: Path) {
    forall k :: 0 <= k < |p| - 1 ==> (p[k], p[k + 1]) in g.attr
  }

  /** A reportable path: simple, along edges, 5 to 8 accounts, passing the shell test. */
  ghost predicate ShellPath(g: Graph, tx: map<AccountId, int>, q: Path) {
    && MinPathLength <= |q| <= MaxPathLength
    && NoDup(q)
    && FollowsEdges(g, q)
    && PathQualifies(tx, q)
  }

  lemma SuccEdge(g: Graph, u: AccountId, v: AccountId)
    requires WellFormed(g)
    ensures v in Succ(g, u) <==> (u, v) in g.attr
  {
    SuccInSpec(g.pairs, u);
    var succs := set q | q in Elems(g.pairs) && q.0 == u :: q.1;
    if (u, v) in g.attr {
      assert (u, v) in Elems(g.pairs) && (u, v).0 == u;
      assert v in succs;
    }
    if v in Succ(g, u) {
      assert v in succs;
      var q :| q in Elems(g.pairs) && q.0 == u && q.1 == v;
      assert q == (u, v);
    }
  }

  lemma ExtendPath(g: Graph, p: Path, v: AccountId)
    requires |p| >= 1 && NoDup(p) && FollowsEdges(g, p) && v !in p && (p[|p| - 1], v) in g.attr
    ensures NoDup(p + [v]) && FollowsEdges(g, p + [v])
  {
    NoDupSnoc(p, v);
  }

  /** Every path the search from p reports extends p and is a reportable path. */
  lemma {:induction false} EmitShape(g: Graph, tx: map<AccountId, int>, p: Path)
    requires WellFormed(g)
    requires 1 <= |p| <= MaxPathLength && NoDup(p) && FollowsEdges(g, p)
    ensures forall q :: q in Emit(g, tx, p) ==> PrefixOf(p, q) && ShellPath(g, tx, q)
    decreases MaxPathLength - |p|, 1, 0
  {
    if !PathQualifies(tx, p) && |p| < MaxPathLength {
      var u := p[|p| - 1];
      forall v | v in Succ(g, u) ensures (u, v) in g.attr {
        SuccEdge(g, u, v);
      }
      KidsShape(g, tx, p, Succ(g, u));
    }
  }

  lemma {:induction false} KidsShape(g: Graph, tx: map<AccountId, int>, p: Path, vs: seq<AccountId>)
    requires WellFormed(g)
    requires 1 <= |p| < MaxPathLength && NoDup(p) && FollowsEdges(g, p)
    requires forall v :: v in vs ==> (p[|p| - 1], v) in g.attr
    ensures forall q :: q in ExploreKids(g, tx, p, vs) ==>
      |q| > |p| && PrefixOf(p, q) && q[|p|] in vs && ShellPath(g, tx, q)
    decreases MaxPathLength - |p|, 0, |vs|
  {
    if vs != [] {
      var init, v := vs[..|vs| - 1], vs[|vs| - 1];
      assert vs == init + [v];
      assert v in vs;
      assert forall x :: x in init ==> x in vs;
      KidsShape(g, tx, p, init);
      if v !in p {
        ExtendPath(g, p, v);
        EmitShape(g, tx, p + [v]);
        forall q | q in Emit(g, tx, p + [v]) ensures |q| > |p| && PrefixOf(p, q) && q[|p|] == v {
          PrefixSnoc(p, v, q);
        }
      }
    }
  }

  /** A path that extends p + [v] extends p and has v right after it. */
  lemma PrefixSnoc(p: Path, v: AccountId, q: Path)
    requires PrefixOf(p + [v], q)
    ensures |q| > |p| && PrefixOf(p, q) && q[|p|] == v
  {
    assert q[..|p|] == q[..|p| + 1][..|p|];
  }

  /** Every path reported from p extends p. */
  lemma {:induction false} EmitExtends(g: Graph, tx: map<AccountId, int>, p: Path)
    requires 1 <= |p| <= MaxPathLength
    ensures forall q :: q in Emit(g, tx, p) ==> PrefixOf(p, q)
    decreases MaxPathLength - |p|, 1, 0
  {
    if !PathQualifies(tx, p) && |p| < MaxPathLength {
      KidsPosition(g, tx, p, Succ(g, p[|p| - 1]));
    }
  }

  /** Every path reported below p through vs extends p by one of vs. */
  lemma {:induction false} KidsPosition(g: Graph, tx: map<AccountId, int>, p: Path, vs: seq<AccountId>)
    requires 1 <= |p| < MaxPathLength
    ensures forall q :: q in ExploreKids(g, tx, p, vs) ==> |q| > |p| && q[..|p|] == p && q[|p|] in vs
    decreases MaxPathLength - |p|, 0, |vs|
  {
    if vs != [] {
      var init, v := vs[..|vs| - 1], vs[|vs| - 1];
      assert vs == init + [v];
      KidsPosition(g, tx, p, init);
      if v !in p {
        EmitExtends(g, tx, p + [v]);
        forall q | q in Emit(g, tx, p + [v]) ensures |q| > |p| && q[..|p|] == p && q[|p|] == v {
          assert q[..|p| + 1] == p + [v];
          assert q[..|p|] == q[..|p| + 1][..|p|];
        }
      }
    }
  }

  /** The paths reported below p + [v] have v right after p. */
  lemma EmitBelow(g: Graph, tx: map<AccountId, int>, p: Path, v: AccountId)
    requires WellFormed(g)
    requires 1 <= |p| < MaxPathLength && NoDup(p) && FollowsEdges(g, p)
    requires v !in p && (p[|p| - 1], v) in g.attr
    ensures forall q :: q in Emit(g, tx, p + [v]) ==> |q| > |p| && q[|p|] == v
  {
    ExtendPath(g, p, v);
    EmitShape(g, tx, p + [v]);
    forall q | q in Emit(g, tx, p + [v]) ensures |q| > |p| && q[|p|] == v {
      assert q[..|p| + 1] == p + [v];
    }
  }

  /** No reported path is a prefix of another: in particular none is reported
      twice, and none is extended after being reported. */
  ghost predicate PrefixFree(ps: seq<Path>) {
    forall i, j :: 0 <= i < |ps| && 0 <= j < |ps| && i != j ==> !PrefixOf(ps[i], ps[j])
  }

  lemma PrefixFreeNoDup(ps: seq<Path>)
    requires PrefixFree(ps)
    ensures NoDup(ps)
  {
    forall i, j | 0 <= i < j < |ps| ensures ps[i] != ps[j] {
      assert !PrefixOf(ps[i], ps[j]);
    }
  }

  /** Two prefix-free path lists join into one when the paths of the second
      all hold c at position n and those of the first do not. */
  lemma PrefixFreeAppend(a: seq<Path>, b: seq<Path>, n: nat, c: AccountId)
    requires PrefixFree(a) && PrefixFree(b)
    requires forall x :: x in a ==> |x| > n && x[n] != c
    requires forall y :: y in b ==> |y| > n && y[n] == c
    ensures PrefixFree(a + b)
  {
    var ab := a + b;
    forall i, j | 0 <= i < |ab| && 0 <= j < |ab| && i != j ensures !PrefixOf(ab[i], ab[j]) {
      if i < |a| && j >= |a| {
        assert ab[i] == a[i] && ab[j] == b[j - |a|];
        assert a[i] in a && b[j - |a|] in b;
      } else if i >= |a| && j < |a| {
        assert ab[i] == b[i - |a|] && ab[j] == a[j];
        assert a[j] in a && b[i - |a|] in b;
      } else if i < |a| {
        assert ab[i] == a[i] && ab[j] == a[j];
      } else {
        assert ab[i] == b[i - |a|] && ab[j] == b[j - |a|];
      }
    }
  }

  lemma {:induction false} EmitPrefixFree(g: Graph, tx: map<AccountId, int>, p: Path)
    requires WellFormed(g)
    requires 1 <= |p| <= MaxPathLength && NoDup(p) && FollowsEdges(g, p)
    ensures PrefixFree(Emit(g, tx, p))
    decreases MaxPathLength - |p|, 1, 0
  {
    if !PathQualifies(tx, p) && |p| < MaxPathLength {
      var u := p[|p| - 1];
      forall v | v in Succ(g, u) ensures (u, v) in g.attr {
        SuccEdge(g, u, v);
      }
      SuccInSpec(g.pairs, u);
      KidsPrefixFree(g, tx, p, Succ(g, u));
    }
  }

  lemma {:induction false} KidsPrefixFree(g: Graph, tx: map<AccountId, int>, p: Path, vs: seq<AccountId>)
    requires WellFormed(g)
    requires 1 <= |p| < MaxPathLength && NoDup(p) && FollowsEdges(g, p)
    requires forall v :: v in vs ==> (p[|p| - 1], v) in g.attr
    requires NoDup(vs)
    ensures PrefixFree(ExploreKids(g, tx, p, vs))
    decreases MaxPathLength - |p|, 0, |vs|
  {
    if vs != [] {
      var init, v := vs[..|vs| - 1], vs[|vs| - 1];
      assert vs == init + [v];
      assert v in vs;
      assert forall x :: x in init ==> x in vs;
      assert NoDup(init);
      KidsPrefixFree(g, tx, p, init);
      if v !in p {
        var a, b := ExploreKids(g, tx, p, init), Emit(g, tx, p + [v]);
        ExtendPath(g, p, v);
        EmitPrefixFree(g, tx, p + [v]);
        KidsShape(g, tx, p, init);
        EmitBelow(g, tx, p, v);
        assert v !in init;
        PrefixFreeAppend(a, b, |p|, v);
      }
    }
  }

  /** Over any sources: every reported path starts at one of them and is a
      reportable path; over distinct sources the list is prefix-free. */
  lemma {:induction false} ShellPathsSpec(g: Graph, tx: map<AccountId, int>, srcs: seq<AccountId>)
    requires WellFormed(g)
    ensures forall q :: q in ShellPaths(g, tx, srcs) ==> ShellPath(g, tx, q) && q[0] in srcs
    ensures NoDup(srcs) ==> PrefixFree(ShellPaths(g, tx, srcs))
  {
    if srcs != [] {
      var init, s := srcs[..|srcs| - 1], srcs[|srcs| - 1];
      assert srcs == init + [s];
      ShellPathsSpec(g, tx, init);
      EmitShape(g, tx, [s]);
      forall q | q in Emit(g, tx, [s]) ensures q[0] == s {
        assert q[..1] == [s];
      }
      if NoDup(srcs) {
        assert NoDup(init) && s !in init;
        EmitPrefixFree(g, tx, [s]);
        PrefixFreeAppend(ShellPaths(g, tx, init), Emit(g, tx, [s]), 0, s);
      }
    }
  }

  /** Whatever the search reports below p + [v] is reported below p when v is
      among the neighbours explored and not already on p. */
  lemma {:induction false} KidsContain(g: Graph, tx: map<AccountId, int>, p: Path, vs: seq<AccountId>, v: AccountId)
    requires 1 <= |p| < MaxPathLength && v in vs && v !in p
    ensures forall x :: x in Emit(g, tx, p + [v]) ==> x in ExploreKids(g, tx, p, vs)
    decreases |vs|
  {
    var init, w := vs[..|vs| - 1], vs[|vs| - 1];
    assert vs == init + [w];
    if w != v {
      assert v in init;
      KidsContain(g, tx, p, init, v);
    }
  }

  /**
   * Completeness from p: a simple path q along edges that extends p, passes
   * the shell test and has no shorter qualifying prefix at least as long as p
   * is reported by the search from p.
   */
  lemma {:induction false} EmitComplete(g: Graph, tx: map<AccountId, int>, p: Path, q: Path)
    requires WellFormed(g)
    requires 1 <= |p| <= |q| <= MaxPathLength && q[..|p|] == p
    requires NoDup(q) && FollowsEdges(g, q) && PathQualifies(tx, q)
    requires forall m :: |p| <= m < |q| ==> !PathQualifies(tx, q[..m])
    ensures q in Emit(g, tx, p)
    decreases MaxPathLength - |p|
  {
    EmitUnfold(g, tx, p);
    if |p| == |q| {
      assert p == q;
    } else {
      var v := q[|p|];
      NextOnPath(g, p, q);
      EmitComplete(g, tx, p + [v], q);
      KidsContain(g, tx, p, Succ(g, p[|p| - 1]), v);
    }
  }

  /** The account after prefix p on a simple path q along edges is a
      neighbour of p's last account that is not on p. */
  lemma NextOnPath(g: Graph, p: Path, q: Path)
    requires WellFormed(g)
    requires 1 <= |p| < |q| && q[..|p|] == p && NoDup(q) && FollowsEdges(g, q)
    ensures q[|p|] in Succ(g, p[|p| - 1]) && q[|p|] !in p
    ensures q[..|p| + 1] == p + [q[|p|]]
  {
    var v := q[|p|];
    assert (q[|p| - 1], q[|p| - 1 + 1]) in g.attr;
    SuccEdge(g, p[|p| - 1], v);
    forall i | 0 <= i < |p| ensures p[i] != v {
      assert p[i] == q[i];
    }
  }

  /**
   * Over any sources: a simple path along edges that starts at one of them,
   * has at most 8 accounts, passes the shell test and has no shorter prefix
   * that does is reported.
   */
  lemma {:induction false} ShellPathsComplete(g: Graph, tx: map<AccountId, int>, srcs: seq<AccountId>, q: Path)
    requires WellFormed(g)
    requires 1 <= |q| <= MaxPathLength && q[0] in srcs
    requires NoDup(q) && FollowsEdges(g, q) && PathQualifies(tx, q)
    requires forall m :: 1 <= m < |q| ==> !PathQualifies(tx, q[..m])
    ensures q in ShellPaths(g, tx, srcs)
  {
    var init, s := srcs[..|srcs| - 1], srcs[|srcs| - 1];
    assert srcs == init + [s];
    if q[0] == s {
      assert q[..1] == [s];
      EmitComplete(g, tx, [s], q);
    } else {
      assert q[0] in init;
      ShellPathsComplete(g, tx, init, q);
    }
  }

  /** The sources are the first 50 nodes (all of them when there are fewer). */
  lemma SourcesSpec(g: Graph)
    requires WellFormed(g)
    ensures NoDup(Sources(g))
    ensures |Sources(g)| == if |g.nodes| <= SourceLimit then |g.nodes| else SourceLimit
    ensures forall k :: 0 <= k < |Sources(g)| ==> Sources(g)[k] == g.nodes[k]
  {
  }

  /** The rings over a list of reported paths. */
  lemma ShellRingsFrom(g: Graph, tx: map<AccountId, int>, ps: seq<Path>, srcs: seq<AccountId>, rs: seq<Ring>)
    requires forall q :: q in ps ==> ShellPath(g, tx, q) && q[0] in srcs
    requires PrefixFree(ps) && rs == ShellRings(tx, ps, 1)
    ensures forall k :: 0 <= k < |rs| ==>
        && rs[k].ringId == RingId(ShellPrefix, k + 1)
        && rs[k].pattern == PatternShell
        && ShellPath(g, tx, rs[k].members)
        && rs[k].members[0] in srcs
        && rs[k].risk == 150 + 5 * |ShellNodes(tx, rs[k].members)|
        && 160 <= rs[k].risk <= 180
    ensures forall j, k :: 0 <= j < |rs| && 0 <= k < |rs| && j != k ==> !PrefixOf(rs[j].members, rs[k].members)
  {
    forall k | 0 <= k < |rs|
      ensures && rs[k].ringId == RingId(ShellPrefix, k + 1)
              && rs[k].pattern == PatternShell
              && ShellPath(g, tx, rs[k].members)
              && rs[k].members[0] in srcs
              && rs[k].risk == 150 + 5 * |ShellNodes(tx, rs[k].members)|
              && 160 <= rs[k].risk <= 180
    {
      ShellRingAt(g, tx, ps, srcs, k, rs[k]);
    }
    forall j, k | 0 <= j < |rs| && 0 <= k < |rs| && j != k
      ensures !PrefixOf(rs[j].members, rs[k].members)
    {
      RingMembers(tx, ps, j);
      RingMembers(tx, ps, k);
    }
  }

  lemma RingMembers(tx: map<AccountId, int>, ps: seq<Path>, k: nat)
    requires k < |ps|
    ensures |ShellRings(tx, ps, 1)| == |ps| && ShellRings(tx, ps, 1)[k].members == ps[k]
  {
  }

  /** The k-th ring of a list of reported paths. */
  lemma ShellRingAt(g: Graph, tx: map<AccountId, int>, ps: seq<Path>, srcs: seq<AccountId>, k: nat, r: Ring)
    requires forall q :: q in ps ==> ShellPath(g, tx, q) && q[0] in srcs
    requires k < |ps| && r == ShellRings(tx, ps, 1)[k]
    ensures r.ringId == RingId(ShellPrefix, k + 1) && r.pattern == PatternShell
    ensures r.members == ps[k] && r.risk == 150 + 5 * |ShellNodes(tx, ps[k])|
    ensures ShellPath(g, tx, ps[k]) && ps[k][0] in srcs
    ensures 160 <= r.risk <= 180
  {
    assert ps[k] in ps;
    assert |ShellNodes(tx, ps[k])| <= |Interior(ps[k])| <= 6;
  }

  /**
   * The rings `detect_shells` is meant to return: numbered RING_SHELL_001,
   * _002, ... in the order found; each a simple directed path of 5 to 8
   * accounts starting at one of the first 50 nodes, with at least 2 shell
   * accounts inside and risk 75 + 2.5 per shell account (between 80 and 90);
   * no ring's path is a prefix of another's, so no path is reported twice.
   */
  lemma ShellRingsSpec(g: Graph)
    requires WellFormed(g)
    ensures var tx := TxCount(g);
      var rs := ShellRingsOf(g);
      && (forall k :: 0 <= k < |rs| ==>
        && rs[k].ringId == RingId(ShellPrefix, k + 1)
        && rs[k].pattern == PatternShell
        && ShellPath(g, tx, rs[k].members)
        && rs[k].members[0] in Sources(g)
        && rs[k].risk == 150 + 5 * |ShellNodes(tx, rs[k].members)|
        && 160 <= rs[k].risk <= 180)
      && (forall j, k :: 0 <= j < |rs| && 0 <= k < |rs| && j != k ==> !PrefixOf(rs[j].members, rs[k].members))
  {
    var tx := TxCount(g);
    SourcesSpec(g);
    ShellPathsSpec(g, tx, Sources(g));
    ShellRingsFrom(g, tx, ShellPaths(g, tx, Sources(g)), Sources(g), ShellRingsOf(g));
  }

  /**
   * The converse of ShellRingsSpec: every simple directed path of at most 8
   * accounts from one of the first 50 nodes that passes the shell test, with
   * no shorter prefix that does, is the path of some ring, numbered by its
   * position.
   */
  lemma ShellRingsComplete(g: Graph, q: Path)
    requires WellFormed(g)
    requires 1 <= |q| <= MaxPathLength && q[0] in Sources(g)
    requires NoDup(q) && FollowsEdges(g, q) && PathQualifies(TxCount(g), q)
    requires forall m :: 1 <= m < |q| ==> !PathQualifies(TxCount(g), q[..m])
    ensures exists k :: 0 <= k < |ShellRingsOf(g)| && ShellRingsOf(g)[k] == ShellRing(TxCount(g), k + 1, q)
  {
    var tx := TxCount(g);
    var ps := ShellPaths(g, tx, Sources(g));
    ShellPathsComplete(g, tx, Sources(g), q);
    var k :| 0 <= k < |ps| && ps[k] == q;
    assert ShellRingsOf(g)[k] == ShellRing(tx, k + 1, q);
  }

  lemma ShellRingsSnoc(tx: map<AccountId, int>, ps: seq<Path>, p: Path)
    ensures ShellRings(tx, ps + [p], 1) == ShellRings(tx, ps, 1) + [ShellRing(tx, |ps| + 1, p)]
  {
    var long := ShellRings(tx, ps + [p], 1);
    var short := ShellRings(tx, ps, 1) + [ShellRing(tx, |ps| + 1, p)];
    forall k | 0 <= k < |ps| ensures long[k] == short[k] {
      assert (ps + [p])[k] == ps[k];
    }
    assert long[|ps|] == short[|ps|];
  }

  /** Reporting one more path adds its ring, numbered next, and its path. */
  lemma ReportStep(tx: map<AccountId, int>, ps: seq<Path>, p: Path, ring: Ring, rs: seq<Ring>, ds: set<Path>)
    requires ring == ShellRing(tx, |ps| + 1, p) && rs == ShellRings(tx, ps, 1) && ds == Elems(ps)
    ensures rs + [ring] == ShellRings(tx, ps + [p], 1)
    ensures ds + {p} == Elems(ps + [p])
  {
    ShellRingsSnoc(tx, ps, p);
    ElemsSnoc(ps, p);
  }

  /** The paths reported under one more child come after those reported so far. */
  lemma AppendAfter(start: seq<Path>, kids: seq<Path>, more: seq<Path>, pre: seq<Path>, post: seq<Path>)
    requires pre == start + kids && post == pre + more
    ensures post == start + (kids + more)
  {
  }

  lemma KidsStep(g: Graph, tx: map<AccountId, int>, p: Path, ns: seq<AccountId>, i: nat)
    requires 1 <= |p| < MaxPathLength && i < |ns|
    ensures ExploreKids(g, tx, p, ns[..i + 1])
         == ExploreKids(g, tx, p, ns[..i]) + (if ns[i] in p then [] else Emit(g, tx, p + [ns[i]]))
  {
    assert ns[..i + 1][..i] == ns[..i];
  }

  lemma EmitUnfold(g: Graph, tx: map<AccountId, int>, p: Path)
    requires 1 <= |p| <= MaxPathLength
    ensures PathQualifies(tx, p) ==> Emit(g, tx, p) == [p]
    ensures !PathQualifies(tx, p) && |p| < MaxPathLength ==> Emit(g, tx, p) == ExploreKids(g, tx, p, Succ(g, p[|p| - 1]))
    ensures !PathQualifies(tx, p) && |p| == MaxPathLength ==> Emit(g, tx, p) == []
  {
  }

  /** Extending a path that is no prefix of q gives one that is no prefix of q either. */
  lemma NotPrefixExtend(p: Path, v: AccountId, q: Path)
    requires !PrefixOf(p, q)
    ensures !PrefixOf(p + [v], q)
  {
    if |p| + 1 <= |q| {
      assert q[..|p| + 1][..|p|] == q[..|p|];
    }
  }

  // ---------------------------------------------------------------------------
  // The search, step by step
  // ---------------------------------------------------------------------------

  /** The state `detect_shells` shares with its nested `find_shell_paths`. */
  class ShellSearch {
    const g: Graph
    /** `tx_count`. */
    const tx: map<AccountId, int>
    /** `detected_paths`. */
    var detected: set<Path>
    var rings: seq<Ring>
    /** `ring_counter`, in the version where the nested function updates the outer variable. */
    var counter: nat
    /** The paths reported so far, in order. */
    ghost var emitted: seq<Path>

    ghost predicate Valid()
      reads this
    {
      rings == ShellRings(tx, emitted, 1) && detected == Elems(emitted)
    }

    constructor(g: Graph)
      ensures this.g == g && tx == TxCount(g)
      ensures detected == {} && rings == [] && counter == 1 && emitted == []
      ensures Valid()
    {
      this.g := g;
      tx := TxCount(g);
      detected := {};
      rings := [];
      counter := 1;
      emitted := [];
    }

    /**
     * `find_shell_paths(source, visited, path)`. The explored path stays simple
     * and follows edges (each branch gets its own copy of `visited`), and no
     * path reported so far extends it. It reports exactly `Emit` of the path,
     * and returns the counter that follows the last ring.
     */
    method FindShellPaths(source: AccountId, visited: set<AccountId>, path: Path) returns (result: nat)
      requires WellFormed(g)
      requires visited == Elems(path) && source !in visited && |path| < MaxPathLength
      requires NoDup(path) && FollowsEdges(g, path) && (path != [] ==> (path[|path| - 1], source) in g.attr)
      requires forall q :: q in emitted ==> !PrefixOf(path + [source], q)
      requires Valid() && counter == |emitted| + 1
      modifies this
      ensures Valid()
      ensures emitted == old(emitted) + Emit(g, tx, path + [source])
      ensures result == |emitted| + 1
      ensures counter == if PathQualifies(tx, path + [source]) then old(counter) else result
      decreases MaxPathLength - |path|, 1
    {
      var p := path + [source];
      var seen := visited + {source};
      NoDupSnoc(path, source);
      assert FollowsEdges(g, p);
      if |p| >= MinPathLength {
        var shellNodes := ShellNodes(tx, p);
        if |shellNodes| >= MinShellNodes {
          if p !in detected {
            Report(p, shellNodes);
            return counter + 1;
          }
        }
      }
      if |p| < MaxPathLength {
        ExploreNeighbours(p, seen);
      }
      EmitUnfold(g, tx, p);
      result := counter;
    }

    /** Records path p as detected and appends its ring, numbered by the counter. */
    method Report(p: Path, shellNodes: seq<AccountId>)
      requires Valid() && counter == |emitted| + 1 && shellNodes == ShellNodes(tx, p)
      modifies this
      ensures Valid() && emitted == old(emitted) + [p]
      ensures counter == old(counter)
    {
      var ring := Ring(RingId(ShellPrefix, counter), p, PatternShell, 150 + 5 * |shellNodes|);
      ReportStep(tx, emitted, p, ring, rings, detected);
      detected := detected + {p};
      rings := rings + [ring];
      emitted := emitted + [p];
    }

    /** The `for neighbor in G.neighbors(source)` loop of `find_shell_paths`,
        for the path p ending in `source`. */
    method ExploreNeighbours(p: Path, seen: set<AccountId>)
      requires WellFormed(g)
      requires 1 <= |p| < MaxPathLength && seen == Elems(p) && NoDup(p) && FollowsEdges(g, p)
      requires forall q :: q in emitted ==> !PrefixOf(p, q)
      requires Valid() && counter == |emitted| + 1
      modifies this
      ensures Valid() && counter == |emitted| + 1
      ensures emitted == old(emitted) + ExploreKids(g, tx, p, Succ(g, p[|p| - 1]))
      decreases MaxPathLength - |p|, 2
    {
      var source := p[|p| - 1];
      var ns := Succ(g, source);
      SuccInSpec(g.pairs, source);
      var i := 0;
      ghost var start := emitted;
      while i < |ns|
        invariant 0 <= i <= |ns|
        invariant Valid() && counter == |emitted| + 1
        invariant emitted == start + ExploreKids(g, tx, p, ns[..i])
      {
        var nb := ns[i];
        ghost var kids := ExploreKids(g, tx, p, ns[..i]);
        ghost var pre := emitted;
        KidsStep(g, tx, p, ns, i);
        if nb !in seen {
          assert nb in ns && nb !in p;
          SuccEdge(g, source, nb);
          ChildUnreported(g, tx, start, p, ns, i, pre);
          var r := FindShellPaths(nb, seen, p);
          AppendAfter(start, kids, Emit(g, tx, p + [nb]), pre, emitted);
          if r != 0 {
            counter := r;
          }
        } else {
          assert nb in p;
        }
        i := i + 1;
      }
      assert ns[..i] == ns;
    }

    /**
     * `find_shell_paths` as written. The assignment `ring_counter = result`
     * makes `ring_counter` a local of the nested function, unbound on entry
     * (`ringCounter == None`); it is bound only after a child call returns.
     * The ring literal reads it before any such binding, and so does the final
     * `return` unless a child returned: every call raises UnboundLocalError,
     * after possibly recording its path in `detected_paths` and before
     * appending any ring.
     */
    method FindShellPathsAsWritten(source: AccountId, visited: set<AccountId>, path: Path) returns (out: Outcome)
      requires |path| < MaxPathLength
      modifies this
      ensures out == Raised
      ensures rings == old(rings) && counter == old(counter)
      ensures old(detected) <= detected
      decreases MaxPathLength - |path|
    {
      var p := path + [source];
      var seen := visited + {source};
      var ringCounter: Option<nat> := None;
      if |p| >= MinPathLength {
        var shellNodes := ShellNodes(tx, p);
        if |shellNodes| >= MinShellNodes && p !in detected {
          detected := detected + {p};
          var id := ReadLocal(ringCounter);
          rings := rings + RingIfBuilt(tx, id, p);
          return Incremented(id);
        }
      }
      if |p| < MaxPathLength {
        var ns := Succ(g, source);
        var i := 0;
        while i < |ns|
          invariant 0 <= i <= |ns|
          invariant rings == old(rings) && counter == old(counter) && old(detected) <= detected
          invariant ringCounter == None
        {
          var neighbor := ns[i];
          if neighbor !in seen {
            var result := FindShellPathsAsWritten(neighbor, seen, p);
            match result {
              case Raised => return Raised;
              case Returned(v) => if v != 0 { ringCounter := Some(v); }
            }
          }
          i := i + 1;
        }
      }
      out := ReadLocal(ringCounter);
    }
  }

  /** The next child's path is no prefix of anything reported before the
      neighbour loop or under the earlier siblings. */
  lemma ChildUnreported(g: Graph, tx: map<AccountId, int>, before: seq<Path>, p: Path, ns: seq<AccountId>, i: nat, now: seq<Path>)
    requires 1 <= |p| < MaxPathLength && i < |ns| && NoDup(ns)
    requires forall q :: q in before ==> !PrefixOf(p, q)
    requires now == before + ExploreKids(g, tx, p, ns[..i])
    ensures forall q :: q in now ==> !PrefixOf(p + [ns[i]], q)
  {
    var kids := ExploreKids(g, tx, p, ns[..i]);
    var v := ns[i];
    KidsPosition(g, tx, p, ns[..i]);
    assert v !in ns[..i] by {
      forall k | 0 <= k < i ensures ns[..i][k] != v {
        assert ns[..i][k] == ns[k];
      }
    }
    forall q | q in now ensures !PrefixOf(p + [v], q) {
      if q in before {
        NotPrefixExtend(p, v, q);
      } else {
        assert q in kids;
        NotPrefixAt(p, v, q);
      }
    }
  }

  /** A path whose entry after p is not v does not extend p + [v]. */
  lemma NotPrefixAt(p: Path, v: AccountId, q: Path)
    requires |q| > |p| && q[|p|] != v
    ensures !PrefixOf(p + [v], q)
  {
    assert q[..|p| + 1][|p|] != (p + [v])[|p|];
  }

  /** No path reported from other sources begins with a source s. */
  lemma {:induction false} FreshSource(g: Graph, tx: map<AccountId, int>, srcs: seq<AccountId>, s: AccountId)
    requires s !in srcs
    ensures forall q :: q in ShellPaths(g, tx, srcs) ==> !PrefixOf([s], q)
  {
    if srcs != [] {
      var init, t := srcs[..|srcs| - 1], srcs[|srcs| - 1];
      assert srcs == init + [t];
      FreshSource(g, tx, init, s);
      EmitExtends(g, tx, [t]);
      forall q | q in Emit(g, tx, [t]) ensures !PrefixOf([s], q) {
        assert q[..1][0] == t;
      }
    }
  }

  /** The search over the first i + 1 sources is the search over the first i,
      then the search from source i. */
  lemma ShellPathsSnoc(g: Graph, tx: map<AccountId, int>, srcs: seq<AccountId>, i: nat)
    requires i < |srcs|
    ensures ShellPaths(g, tx, srcs[..i + 1]) == ShellPaths(g, tx, srcs[..i]) + Emit(g, tx, [srcs[i]])
  {
    assert srcs[..i + 1][..i] == srcs[..i];
  }

  /**
   * `detect_shells(G)` as evidently intended: one search per source, the
   * counter carried from one to the next, and the rings collected.
   */
  method DetectShells(g: Graph) returns (rings: seq<Ring>)
    requires WellFormed(g)
    ensures rings == ShellRingsOf(g)
  {
    var search := new ShellSearch(g);
    var sources := if |g.nodes| <= SourceLimit then g.nodes else g.nodes[..SourceLimit];
    SourcesSpec(g);
    var i := 0;
    while i < |sources|
      invariant 0 <= i <= |sources|
      invariant search.Valid() && search.counter == |search.emitted| + 1
      invariant search.emitted == ShellPaths(g, search.tx, sources[..i])
      modifies search
    {
      assert sources[i] !in sources[..i];
      FreshSource(g, search.tx, sources[..i], sources[i]);
      ShellPathsSnoc(g, search.tx, sources, i);
      assert [] + [sources[i]] == [sources[i]];
      var newCounter := search.FindShellPaths(sources[i], {}, []);
      if newCounter != 0 {
        search.counter := newCounter;
      }
      i := i + 1;
    }
    assert sources[..i] == sources;
    rings := search.rings;
  }
  // ---------------------------------------------------------------------------
  // The search as written
  // ---------------------------------------------------------------------------

  /** How a call of the nested function ends: a returned value, or an
      UnboundLocalError propagating to the caller. */
  datatype Outcome = Returned(value: nat) | Raised

  /** Reading a local that may not be bound yet. */
  function ReadLocal(local: Option<nat>): (o: Outcome)
    ensures o.Raised? <==> local.None?
    ensures local.Some? ==> o == Returned(local.value)
  {
    match local
    case None => Raised
    case Some(n) => Returned(n)
  }

  /** `ring_counter + 1`, when the read of `ring_counter` did not raise. */
  function Incremented(id: Outcome): (o: Outcome)
    ensures o.Raised? <==> id.Raised?
    ensures id.Returned? ==> o.value == id.value + 1
  {
    match id
    case Raised => Raised
    case Returned(n) => Returned(n + 1)
  }

  /** The ring `rings.append` receives, once its literal could be built from
      the counter read; nothing when the read raised. */
  function RingIfBuilt(tx: map<AccountId, int>, id: Outcome, p: Path): (r: seq<Ring>)
    ensures id.Raised? ==> r == []
    ensures id.Returned? ==> r == [ShellRing(tx, id.value, p)]
  {
    match id
    case Raised => []
    case Returned(n) => [ShellRing(tx, n, p)]
  }

  /**
   * `detect_shells(G)` as written: every call of the nested function raises,
   * the bare `except` moves on to the next source, and no ring is ever
   * appended, whatever the graph.
   */
  method DetectShellsAsWritten(g: Graph) returns (rings: seq<Ring>)
    ensures rings == []
  {
    var search := new ShellSearch(g);
    var sources := if |g.nodes| <= SourceLimit then g.nodes else g.nodes[..SourceLimit];
    var ringCounter := 1;
    for i := 0 to |sources|
      invariant search.rings == []
    {
      var outcome := search.FindShellPathsAsWritten(sources[i], {}, []);
      match outcome {
        case Raised =>
        case Returned(v) => if v != 0 { ringCounter := v; }
      }
    }
    rings := search.rings;
  }

  // ---------------------------------------------------------------------------
  // A graph on which the two versions differ
  // ---------------------------------------------------------------------------

  /** Five distinct accounts passing money along a line. */
  predicate Apart(a: AccountId, b: AccountId, c: AccountId, d: AccountId, e: AccountId) {
    a != b && a != c && a != d && a != e && b != c && b != d && b != e && c != d && c != e && d != e
  }

  function ChainGraph(a: AccountId, b: AccountId, c: AccountId, d: AccountId, e: AccountId): Graph {
    var x := EdgeAttr(100.0, 0);
    Graph([a, b, c, d, e], [(a, b), (b, c), (c, d), (d, e)],
          map[(a, b) := x, (b, c) := x, (c, d) := x, (d, e) := x])
  }

  lemma SuccInSnoc(ps: seq<Pair>, q: Pair, u: AccountId)
    ensures SuccIn(ps + [q], u) == SuccIn(ps, u) + (if q.0 == u then [q.1] else [])
  {
    assert (ps + [q])[..|ps|] == ps;
  }

  lemma PredInSnoc(ps: seq<Pair>, q: Pair, v: AccountId)
    ensures PredIn(ps + [q], v) == PredIn(ps, v) + (if q.1 == v then [q.0] else [])
  {
    assert (ps + [q])[..|ps|] == ps;
  }

  lemma ChainAdjacency(a: AccountId, b: AccountId, c: AccountId, d: AccountId, e: AccountId, u: AccountId)
    requires Apart(a, b, c, d, e)
    ensures Succ(ChainGraph(a, b, c, d, e), u) ==
      (if u == a then [b] else if u == b then [c] else if u == c then [d] else if u == d then [e] else [])
    ensures PredIn(ChainGraph(a, b, c, d, e).pairs, u) ==
      (if u == b then [a] else if u == c then [b] else if u == d then [c] else if u == e then [d] else [])
  {
    var p0: seq<Pair> := [];
    var p1 := p0 + [(a, b)];
    var p2 := p1 + [(b, c)];
    var p3 := p2 + [(c, d)];
    var p4 := p3 + [(d, e)];
    SuccInSnoc(p0, (a, b), u);
    SuccInSnoc(p1, (b, c), u);
    SuccInSnoc(p2, (c, d), u);
    SuccInSnoc(p3, (d, e), u);
    PredInSnoc(p0, (a, b), u);
    PredInSnoc(p1, (b, c), u);
    PredInSnoc(p2, (c, d), u);
    PredInSnoc(p3, (d, e), u);
    assert ChainGraph(a, b, c, d, e).pairs == p4;
  }

  lemma EmitOneChild(g: Graph, tx: map<AccountId, int>, p: Path, v: AccountId)
    requires 1 <= |p| < MinPathLength && Succ(g, p[|p| - 1]) == [v] && v !in p
    ensures Emit(g, tx, p) == Emit(g, tx, p + [v])
  {
    assert !PathQualifies(tx, p);
    assert Emit(g, tx, p) == ExploreKids(g, tx, p, [v]);
    assert [v][..0] == [];
    assert ExploreKids(g, tx, p, [v]) == ExploreKids(g, tx, p, []) + Emit(g, tx, p + [v]);
  }

  lemma EmitNoChild(g: Graph, tx: map<AccountId, int>, p: Path)
    requires 1 <= |p| < MinPathLength && Succ(g, p[|p| - 1]) == []
    ensures Emit(g, tx, p) == []
  {
  }

  lemma LineShells(tx: map<AccountId, int>, a: AccountId, b: AccountId, c: AccountId, d: AccountId, e: AccountId)
    requires IsShell(tx, b) && IsShell(tx, c) && IsShell(tx, d)
    ensures ShellNodes(tx, [a, b, c, d, e]) == [b, c, d]
  {
    assert Interior([a, b, c, d, e]) == [b, c, d];
    assert [b, c, d][..2] == [b, c] && [b, c][..1] == [b] && [b][..0] == [];
    assert ShellsAmong(tx, [b]) == [b];
    assert ShellsAmong(tx, [b, c]) == [b, c];
  }

  /** A node with one edge in and one edge out has count 2, a shell. */
  lemma PassThroughShell(g: Graph, n: AccountId, u: AccountId, v: AccountId)
    requires n in g.nodes && Succ(g, n) == [v] && PredIn(g.pairs, n) == [u]
    ensures IsShell(TxCount(g), n)
  {
    assert n in Elems(g.nodes);
    assert TxCount(g)[n] == 2;
  }

  lemma ChainCounts(a: AccountId, b: AccountId, c: AccountId, d: AccountId, e: AccountId)
    requires Apart(a, b, c, d, e)
    ensures var tx := TxCount(ChainGraph(a, b, c, d, e)); IsShell(tx, b) && IsShell(tx, c) && IsShell(tx, d)
  {
    var g := ChainGraph(a, b, c, d, e);
    ChainAdjacency(a, b, c, d, e, b);
    PassThroughShell(g, b, a, c);
    ChainAdjacency(a, b, c, d, e, c);
    PassThroughShell(g, c, b, d);
    ChainAdjacency(a, b, c, d, e, d);
    PassThroughShell(g, d, c, e);
  }

  /** On a line a -> b -> c -> d -> e whose interior is all shells, the search
      from a reports the whole line. */
  lemma LineEmitHead(g: Graph, tx: map<AccountId, int>, a: AccountId, b: AccountId, c: AccountId, d: AccountId, e: AccountId)
    requires Apart(a, b, c, d, e)
    requires Succ(g, a) == [b] && Succ(g, b) == [c] && Succ(g, c) == [d] && Succ(g, d) == [e]
    requires PathQualifies(tx, [a, b, c, d, e])
    ensures Emit(g, tx, [a]) == [[a, b, c, d, e]]
  {
    assert [a, b, c, d] + [e] == [a, b, c, d, e];
    assert [a, b, c] + [d] == [a, b, c, d];
    assert [a, b] + [c] == [a, b, c];
    assert [a] + [b] == [a, b];
    EmitOneChild(g, tx, [a, b, c, d], e);
    EmitOneChild(g, tx, [a, b, c], d);
    EmitOneChild(g, tx, [a, b], c);
    EmitOneChild(g, tx, [a], b);
  }

  /** The search from b runs b, c, d, e into a dead end after four nodes. */
  lemma LineEmitSecond(g: Graph, tx: map<AccountId, int>, b: AccountId, c: AccountId, d: AccountId, e: AccountId)
    requires b != c && b != d && b != e && c != d && c != e && d != e
    requires Succ(g, b) == [c] && Succ(g, c) == [d] && Succ(g, d) == [e] && Succ(g, e) == []
    ensures Emit(g, tx, [b]) == []
  {
    assert [b, c, d] + [e] == [b, c, d, e];
    assert [b, c] + [d] == [b, c, d];
    assert [b] + [c] == [b, c];
    EmitNoChild(g, tx, [b, c, d, e]);
    EmitOneChild(g, tx, [b, c, d], e);
    EmitOneChild(g, tx, [b, c], d);
    EmitOneChild(g, tx, [b], c);
  }

  /** The searches from c, d and e end after at most three nodes. */
  lemma LineEmitRest(g: Graph, tx: map<AccountId, int>, c: AccountId, d: AccountId, e: AccountId)
    requires c != d && c != e && d != e
    requires Succ(g, c) == [d] && Succ(g, d) == [e] && Succ(g, e) == []
    ensures Emit(g, tx, [c]) == [] && Emit(g, tx, [d]) == [] && Emit(g, tx, [e]) == []
  {
    assert [c, d] + [e] == [c, d, e];
    assert [c] + [d] == [c, d];
    assert [d] + [e] == [d, e];
    EmitNoChild(g, tx, [c, d, e]);
    EmitNoChild(g, tx, [d, e]);
    EmitNoChild(g, tx, [e]);
    EmitOneChild(g, tx, [c, d], e);
    EmitOneChild(g, tx, [c], d);
    EmitOneChild(g, tx, [d], e);
  }

  lemma LinePaths(g: Graph, tx: map<AccountId, int>, a: AccountId, b: AccountId, c: AccountId, d: AccountId, e: AccountId)
    requires Emit(g, tx, [a]) == [[a, b, c, d, e]]
    requires Emit(g, tx, [b]) == [] && Emit(g, tx, [c]) == [] && Emit(g, tx, [d]) == [] && Emit(g, tx, [e]) == []
    ensures ShellPaths(g, tx, [a, b, c, d, e]) == [[a, b, c, d, e]]
  {
    var srcs := [a, b, c, d, e];
    assert srcs[..1] == [a] && srcs[..2] == [a, b] && srcs[..3] == [a, b, c] && srcs[..4] == [a, b, c, d];
    assert [a, b][..1] == [a] && [a, b, c][..2] == [a, b] && [a, b, c, d][..3] == [a, b, c] && [a][..0] == [];
    assert ShellPaths(g, tx, [a]) == [[a, b, c, d, e]];
    assert ShellPaths(g, tx, [a, b]) == [[a, b, c, d, e]];
    assert ShellPaths(g, tx, [a, b, c]) == [[a, b, c, d, e]];
    assert ShellPaths(g, tx, [a, b, c, d]) == [[a, b, c, d, e]];
  }

  lemma ShellRingsOne(tx: map<AccountId, int>, p: Path)
    ensures ShellRings(tx, [p], 1) == [ShellRing(tx, 1, p)]
  {
    ShellRingsSnoc(tx, [], p);
    assert [] + [p] == [p];
  }

  lemma ChainSucc(a: AccountId, b: AccountId, c: AccountId, d: AccountId, e: AccountId)
    requires Apart(a, b, c, d, e)
    ensures var g := ChainGraph(a, b, c, d, e);
      Succ(g, a) == [b] && Succ(g, b) == [c] && Succ(g, c) == [d] && Succ(g, d) == [e] && Succ(g, e) == []
  {
    ChainAdjacency(a, b, c, d, e, a);
    ChainAdjacency(a, b, c, d, e, b);
    ChainAdjacency(a, b, c, d, e, c);
    ChainAdjacency(a, b, c, d, e, d);
    ChainAdjacency(a, b, c, d, e, e);
  }

  lemma ChainWellFormed(a: AccountId, b: AccountId, c: AccountId, d: AccountId, e: AccountId)
    requires Apart(a, b, c, d, e)
    ensures WellFormed(ChainGraph(a, b, c, d, e))
  {
    var g := ChainGraph(a, b, c, d, e);
    assert Elems(g.pairs) == g.attr.Keys;
  }

  /**
   * The line graph a -> b -> c -> d -> e of five distinct accounts has a
   * layered shell path (b, c and d each take part in two transfers), and the
   * search as intended reports exactly that one ring, while
   * `DetectShellsAsWritten` returns no ring for it.
   */
  lemma LineReported(a: AccountId, b: AccountId, c: AccountId, d: AccountId, e: AccountId)
    requires Apart(a, b, c, d, e)
    ensures WellFormed(ChainGraph(a, b, c, d, e))
    ensures ShellRingsOf(ChainGraph(a, b, c, d, e)) == [ShellRing(TxCount(ChainGraph(a, b, c, d, e)), 1, [a, b, c, d, e])]
  {
    var g := ChainGraph(a, b, c, d, e);
    var tx := TxCount(g);
    ChainSucc(a, b, c, d, e);
    ChainCounts(a, b, c, d, e);
    LineShells(tx, a, b, c, d, e);
    LineEmitHead(g, tx, a, b, c, d, e);
    LineEmitSecond(g, tx, b, c, d, e);
    LineEmitRest(g, tx, c, d, e);
    LinePaths(g, tx, a, b, c, d, e);
    assert Sources(g) == [a, b, c, d, e];
    ShellRingsOne(tx, [a, b, c, d, e]);
    ChainWellFormed(a, b, c, d, e);
  }
}

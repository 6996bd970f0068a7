/**
 * `run_detection` (backend/graph_engine.py): the schema check, the graph
 * built from the rows, the three detectors' rings concatenated (cycle, then
 * smurfing, then shell), the scores, and the view of the graph the front end
 * draws, with the summary counts.
 *
 * The CSV reader is not modelled: the run starts from the set of column names
 * the file had and its rows, already typed. The two library results the
 * detectors consume are inputs: `cycles` is what `nx.simple_cycles(G)`
 * yielded, and `byTime` is what the pandas sort by timestamp returned.
 */
module GraphEngine {
  import opened Wrappers
  import opened Text
  import opened Records
  import opened AccountGraph
  import opened CycleDetector
  import opened SmurfingDetector
  import opened ShellDetector
  import opened Scoring

  const RequiredColumns: set<string> := {"transaction_id", "sender_id", "receiver_id", "amount", "timestamp"}

  /** The message of the `ValueError` a file without the required columns raises. */
  const SchemaMismatch: string := "CSV schema mismatch"

  /** One entry of `graph_data["nodes"]`. */
  datatype NodeView = NodeView(accountId: AccountId, suspicionScore: Halves, suspicious: bool, ringId: Option<string>)

  /** One entry of `graph_data["edges"]`. */
  datatype EdgeView = EdgeView(from: AccountId, to: AccountId)

  datatype GraphData = GraphData(nodes: seq<NodeView>, edges: seq<EdgeView>)

  /** The `summary` dictionary. */
  datatype Summary = Summary(totalAccountsAnalyzed: nat, suspiciousAccountsFlagged: nat, fraudRingsDetected: nat)

  /** The four values `run_detection` returns. */
  datatype Detection = Detection(graph: GraphData, accounts: seq<ScoredAccount>, rings: seq<Ring>, summary: Summary)

  /** `cycle_rings + smurf_rings + shell_rings`. */
  function AllRings(g: Graph, cycles: seq<seq<AccountId>>, byTime: seq<Txn>): seq<Ring> {
    CycleRings(Kept(cycles)) + SmurfRings(byTime) + ShellRingsOf(g)
  }

  // ---------------------------------------------------------------------------
  // `ring_lookup`
  // ---------------------------------------------------------------------------

  /** `ring_lookup.get(node)`. */
  function Lookup(lookup: map<AccountId, string>, a: AccountId): Option<string> {
    if a in lookup then Some(lookup[a]) else None
  }

  lemma LookupStart(done: seq<Ring>, ring: Ring, lookup: map<AccountId, string>)
    requires lookup.Keys == Elems(Members(done)) && RingsHeld(done, lookup)
    ensures lookup.Keys == Elems(Members(done + [Upto(ring, 0)])) && RingsHeld(done + [Upto(ring, 0)], lookup)
  {
    var done' := done + [Upto(ring, 0)];
    assert done'[..|done|] == done;
    assert Members(done') == Members(done);
  }

  /** The inner loop of the `ring_lookup` loop, over the members of one ring. */
  method LookupRing(done: seq<Ring>, ring: Ring, lookup0: map<AccountId, string>) returns (lookup: map<AccountId, string>)
    requires lookup0.Keys == Elems(Members(done)) && RingsHeld(done, lookup0)
    ensures lookup.Keys == Elems(Members(done + [ring])) && RingsHeld(done + [ring], lookup)
  {
    lookup := lookup0;
    LookupStart(done, ring, lookup);
    var j := 0;
    while j < |ring.members|
      invariant 0 <= j <= |ring.members|
      invariant lookup.Keys == Elems(Members(done + [Upto(ring, j)]))
      invariant RingsHeld(done + [Upto(ring, j)], lookup)
    {
      var acc := ring.members[j];
      RingsStep(done, ring, j, lookup);
      StepMembers(done, ring, j);
      KeysUpdate(lookup, acc, ring.ringId);
      lookup := lookup[acc := ring.ringId];
      j := j + 1;
    }
    assert Upto(ring, |ring.members|) == ring;
  }

  /** The `ring_lookup` loop: every account some ring names is mapped to the
      id of the last ring naming it, and no other account is mapped. */
  method RingLookup(rings: seq<Ring>) returns (lookup: map<AccountId, string>)
    ensures lookup.Keys == Elems(Members(rings))
    ensures forall a :: a in lookup ==> LastRingId(rings, a) == Some(lookup[a])
  {
    lookup := map[];
    var i := 0;
    while i < |rings|
      invariant 0 <= i <= |rings|
      invariant lookup.Keys == Elems(Members(rings[..i])) && RingsHeld(rings[..i], lookup)
    {
      lookup := LookupRing(rings[..i], rings[i], lookup);
      assert rings[..i] + [rings[i]] == rings[..i + 1];
      i := i + 1;
    }
    assert rings[..i] == rings;
  }

  /** `ring_lookup.get(a)` agrees with the ring id scoring gives `a`. */
  lemma LookupAgrees(rings: seq<Ring>, lookup: map<AccountId, string>, a: AccountId)
    requires lookup.Keys == Elems(Members(rings))
    requires forall b :: b in lookup ==> LastRingId(rings, b) == Some(lookup[b])
    ensures Lookup(lookup, a) == LastRingId(rings, a)
  {
    LastRingIdSpec(rings, a);
  }

  // ---------------------------------------------------------------------------
  // `graph_nodes`
  // ---------------------------------------------------------------------------

  /** The score `next(...)` finds: that of the first entry for `a`, else 0. */
  function FirstScore(accounts: seq<ScoredAccount>, a: AccountId): Halves {
    if accounts == [] then 0
    else if accounts[0].accountId == a then accounts[0].score
    else FirstScore(accounts[1..], a)
  }

  /** With account ids listed once each, the first match is the only one;
      with none, the score is 0. */
  lemma {:induction false} FirstScoreSpec(accounts: seq<ScoredAccount>, a: AccountId)
    requires NoDup(Ids(accounts))
    ensures a !in Ids(accounts) ==> FirstScore(accounts, a) == 0
    ensures forall k :: 0 <= k < |accounts| && accounts[k].accountId == a ==> FirstScore(accounts, a) == accounts[k].score
  {
    if accounts != [] {
      var rest := accounts[1..];
      assert Ids(rest) == Ids(accounts)[1..];
      FirstScoreSpec(rest, a);
      forall k | 0 <= k < |accounts| && accounts[k].accountId == a ensures FirstScore(accounts, a) == accounts[k].score {
        if k > 0 {
          assert Ids(accounts)[0] != Ids(accounts)[k];
          assert rest[k - 1] == accounts[k];
        }
      }
      if a !in Ids(accounts) {
        assert Ids(accounts)[0] in Ids(accounts);
        forall b | b in Ids(rest) ensures b != a {
          var m :| 0 <= m < |Ids(rest)| && Ids(rest)[m] == b;
          assert Ids(accounts)[m + 1] == b;
        }
      }
    }
  }

  /** The node view of account `a`, as scoring determines it: its capped
      score when some ring names it, else 0; suspicious exactly when some
      ring names it; the id of the last ring naming it, if any. */
  function NodeOf(rings: seq<Ring>, a: AccountId): NodeView {
    NodeView(a, if a in Members(rings) then Scored(rings, a).score else 0, a in Members(rings), LastRingId(rings, a))
  }

  /** The view the loop builds for node `a`. */
  function NodeEntry(accounts: seq<ScoredAccount>, ids: set<AccountId>, lookup: map<AccountId, string>, a: AccountId): NodeView {
    NodeView(a, FirstScore(accounts, a), a in ids, Lookup(lookup, a))
  }

  /** The `graph_nodes` loop: one view per node, in node order. */
  method BuildNodeViews(g: Graph, accounts: seq<ScoredAccount>, ids: set<AccountId>, lookup: map<AccountId, string>)
    returns (nodes: seq<NodeView>)
    ensures |nodes| == |g.nodes|
    ensures forall k :: 0 <= k < |g.nodes| ==> nodes[k] == NodeEntry(accounts, ids, lookup, g.nodes[k])
  {
    nodes := [];
    for k := 0 to |g.nodes|
      invariant |nodes| == k
      invariant forall m :: 0 <= m < k ==> nodes[m] == NodeEntry(accounts, ids, lookup, g.nodes[m])
    {
      var node := g.nodes[k];
      nodes := nodes + [NodeView(node, FirstScore(accounts, node), node in ids, Lookup(lookup, node))];
    }
  }

  /**
   * Given the scored list, its id set and the ring lookup of the same rings,
   * the view the loop builds for any account is the one scoring determines.
   */
  lemma NodeEntryAgrees(rings: seq<Ring>, lookup: map<AccountId, string>, a: AccountId)
    requires lookup.Keys == Elems(Members(rings))
    requires forall b :: b in lookup ==> LastRingId(rings, b) == Some(lookup[b])
    ensures NodeEntry(Scores(rings), Elems(Ids(Scores(rings))), lookup, a) == NodeOf(rings, a)
  {
    var out := Scores(rings);
    ScoresSpec(rings);
    FirstScoreSpec(out, a);
    LookupAgrees(rings, lookup, a);
    if a in Members(rings) {
      assert a in Elems(Ids(out));
      var k :| 0 <= k < |Ids(out)| && Ids(out)[k] == a;
      assert out[k] in out;
    } else {
      assert a !in Elems(Ids(out));
    }
  }

  /** A scored account's node has its score and ring id; an account no ring
      names has score 0, no ring id and is not suspicious. */
  lemma NodeOfSpec(rings: seq<Ring>, a: AccountId)
    ensures forall e :: e in Scores(rings) && e.accountId == a ==>
      NodeOf(rings, a).suspicious && NodeOf(rings, a).suspicionScore == e.score && NodeOf(rings, a).ringId == e.ringId
    ensures a !in Members(rings) ==> NodeOf(rings, a) == NodeView(a, 0, false, None)
  {
    ScoresEntries(rings);
    LastRingIdSpec(rings, a);
  }

  // ---------------------------------------------------------------------------
  // `graph_edges`
  // ---------------------------------------------------------------------------

  /** `[{"from": u, "to": v} for u, v in G.edges()]`. */
  function EdgesView(g: Graph): seq<EdgeView> {
    var es := EdgeList(g);
    seq(|es|, k requires 0 <= k < |es| => EdgeView(es[k].0, es[k].1))
  }

  /** The edge view lists each edge of the graph exactly once. */
  lemma EdgesViewSpec(g: Graph)
    requires WellFormed(g)
    ensures NoDup(EdgesView(g))
    ensures forall u, v :: EdgeView(u, v) in EdgesView(g) <==> (u, v) in g.attr
    ensures |EdgesView(g)| == |g.attr|
  {
    var es := EdgeList(g);
    var vs := EdgesView(g);
    EdgeListSpec(g);
    forall u, v | (u, v) in g.attr ensures EdgeView(u, v) in vs {
      assert (u, v) in Elems(es);
      var k :| 0 <= k < |es| && es[k] == (u, v);
      assert vs[k] == EdgeView(u, v);
    }
    forall u, v | EdgeView(u, v) in vs ensures (u, v) in g.attr {
      var k :| 0 <= k < |vs| && vs[k] == EdgeView(u, v);
      assert es[k] in Elems(es);
    }
    forall i, j | 0 <= i < j < |vs| ensures vs[i] != vs[j] {
      assert es[i] != es[j];
    }
  }

  // ---------------------------------------------------------------------------
  // The run
  // ---------------------------------------------------------------------------

  /**
   * `run_detection` after the CSV is read. A file lacking one of the five
   * required columns fails with the schema-mismatch error before any graph
   * exists. Otherwise the result is the graph of the rows, the concatenated
   * rings, their scores, one view per node (in node order, each as scoring
   * determines it), the edge views, and the counts.
   */
  method RunDetection(columns: set<string>, rows: seq<Txn>, cycles: seq<seq<AccountId>>, byTime: seq<Txn>)
    returns (r: Result<Detection, string>)
    requires SortedByTime(byTime) && multiset(byTime) == multiset(rows)
    ensures r.Failure? <==> !(RequiredColumns <= columns)
    ensures r.Failure? ==> r.error == SchemaMismatch
    ensures r.Success? ==>
      var g := GraphOf(rows);
      var rings := AllRings(g, cycles, byTime);
      var d := r.value;
      && d.rings == rings
      && d.accounts == Scores(rings)
      && |d.graph.nodes| == |g.nodes|
      && (forall k :: 0 <= k < |g.nodes| ==> d.graph.nodes[k] == NodeOf(rings, g.nodes[k]))
      && (forall i, j :: 0 <= i < j < |d.graph.nodes| ==> d.graph.nodes[i].accountId != d.graph.nodes[j].accountId)
      && d.graph.edges == EdgesView(g)
      && d.summary == Summary(|g.nodes|, |Scores(rings)|, |rings|)
  {
    if !(RequiredColumns <= columns) {
      return Failure(SchemaMismatch);
    }
    var g := BuildGraph(rows);
    var totalAccounts := |g.nodes|;

    var cycleRings := DetectCycles(cycles);
    var smurfRings := DetectSmurfing(rows, byTime);
    var shellRings := DetectShells(g);
    var allRings := cycleRings + smurfRings + shellRings;

    var accounts := CalculateScores(g, allRings);

    var suspiciousIds := Elems(Ids(accounts));
    var ringLookup := RingLookup(allRings);
    var graphNodes := BuildNodeViews(g, accounts, suspiciousIds, ringLookup);
    forall k | 0 <= k < |g.nodes| ensures graphNodes[k] == NodeOf(allRings, g.nodes[k]) {
      NodeEntryAgrees(allRings, ringLookup, g.nodes[k]);
    }
    var graphEdges := EdgesView(g);

    var summary := Summary(totalAccounts, |accounts|, |allRings|);
    r := Success(Detection(GraphData(graphNodes, graphEdges), accounts, allRings, summary));
  }

  /**
   * The summary counts: the number of distinct accounts among the rows, the
   * number of distinct accounts some ring names, and the sum of the three
   * detectors' ring counts.
   */
  lemma SummarySpec(rows: seq<Txn>, cycles: seq<seq<AccountId>>, byTime: seq<Txn>)
    ensures var g := GraphOf(rows);
      var rings := AllRings(g, cycles, byTime);
      && |g.nodes| == |AccountGraph.RowAccounts(rows)|
      && |Scores(rings)| == |Elems(Members(rings))|
      && |rings| == |CycleRings(Kept(cycles))| + |SmurfRings(byTime)| + |ShellRingsOf(g)|
  {
    var rings := AllRings(GraphOf(rows), cycles, byTime);
    GraphNodes(rows);
    ScoresSpec(rings);
    NoDupCard(Ids(Scores(rings)));
  }
}

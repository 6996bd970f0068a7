/**
 * Circular fund routing (backend/detectors/cycle_detector.py): every
 * elementary cycle of 3 to 5 accounts becomes a ring.
 *
 * The enumeration itself (`nx.simple_cycles`) is library code whose order is
 * not visible; it enters the model as the sequence `cycles` it yields.
 */
module CycleDetector {
  import opened Text
  import opened Records
  import opened AccountGraph

  const CyclePrefix: string := "RING_CYCLE_"

  /** The length filter `3 <= len(cycle) <= 5`. */
  predicate InRange(c: seq<AccountId>) {
    3 <= |c| <= 5
  }

  /** The enumerated cycles that pass the length filter, in enumeration order. */
  function Kept(cycles: seq<seq<AccountId>>): seq<seq<AccountId>> {
    if cycles == [] then []
    else Kept(cycles[..|cycles| - 1]) + (if InRange(cycles[|cycles| - 1]) then [cycles[|cycles| - 1]] else [])
  }

  /** The ring for the n-th surviving cycle: risk 80 + 3 * length, i.e. 160 + 6 * length halves. */
  function CycleRing(n: nat, c: seq<AccountId>): Ring {
    Ring(RingId(CyclePrefix, n), c, PatternCycle, 160 + 6 * |c|)
  }

  /** The rings numbered 1, 2, ... in order. */
  function CycleRings(kept: seq<seq<AccountId>>): seq<Ring> {
    seq(|kept|, k requires 0 <= k < |kept| => CycleRing(k + 1, kept[k]))
  }

  lemma CycleRingsSnoc(kept: seq<seq<AccountId>>, c: seq<AccountId>)
    ensures CycleRings(kept + [c]) == CycleRings(kept) + [CycleRing(|kept| + 1, c)]
  {
  }

  /** `detect_cycles(G)` over the cycles `nx.simple_cycles(G)` yields. */
  method DetectCycles(cycles: seq<seq<AccountId>>) returns (rings: seq<Ring>)
    ensures rings == CycleRings(Kept(cycles))
    ensures forall k :: 0 <= k < |rings| ==>
      3 <= |rings[k].members| <= 5 && rings[k].pattern == PatternCycle && rings[k].risk in {178, 184, 190}
  {
    rings := [];
    var ringCounter := 1;
    var i := 0;
    while i < |cycles|
      invariant 0 <= i <= |cycles|
      invariant rings == CycleRings(Kept(cycles[..i]))
      invariant ringCounter == |rings| + 1
    {
      var cycle := cycles[i];
      assert cycles[..i + 1][..i] == cycles[..i];
      if 3 <= |cycle| <= 5 {
        var ring := CycleRing(ringCounter, cycle);
        CycleRingsSnoc(Kept(cycles[..i]), cycle);
        rings := rings + [ring];
        ringCounter := ringCounter + 1;
      }
      i := i + 1;
    }
    assert cycles[..i] == cycles;
    CycleRingsShape(cycles);
  }

  /** Every cycle ring has 3 to 5 members, pattern "cycle" and risk 89, 92 or 95. */
  lemma CycleRingsShape(cycles: seq<seq<AccountId>>)
    ensures forall k :: 0 <= k < |CycleRings(Kept(cycles))| ==>
      var r := CycleRings(Kept(cycles))[k];
      3 <= |r.members| <= 5 && r.pattern == PatternCycle && r.risk in {178, 184, 190}
  {
    KeptSpec(cycles);
    var kept := Kept(cycles);
    forall k | 0 <= k < |kept|
      ensures 3 <= |kept[k]| <= 5
    {
      assert kept[k] in kept;
    }
  }

  /** Every survivor is an enumerated cycle of 3 to 5 nodes, and every enumerated
      cycle of 3 to 5 nodes survives. */
  lemma {:induction false} KeptSpec(cycles: seq<seq<AccountId>>)
    ensures forall c :: c in Kept(cycles) ==> c in cycles && InRange(c)
    ensures forall c :: c in cycles && InRange(c) ==> c in Kept(cycles)
  {
    if cycles != [] {
      KeptSpec(cycles[..|cycles| - 1]);
      assert cycles == cycles[..|cycles| - 1] + [cycles[|cycles| - 1]];
    }
  }

  /** The number of rings is the number of enumerated cycles with 3 to 5 nodes. */
  lemma {:induction false} KeptCount(cycles: seq<seq<AccountId>>)
    ensures |Kept(cycles)| == |set i | 0 <= i < |cycles| && InRange(cycles[i])|
  {
    if cycles != [] {
      var n := |cycles| - 1;
      KeptCount(cycles[..n]);
      var before := set i | 0 <= i < n && InRange(cycles[..n][i]);
      var now := set i | 0 <= i < |cycles| && InRange(cycles[i]);
      assert before == set i | 0 <= i < n && InRange(cycles[i]);
      assert now == before + (if InRange(cycles[n]) then {n} else {});
    }
  }

  /** Ring ids are RING_CYCLE_001, _002, ... in emission order, hence pairwise distinct. */
  lemma CycleRingIds(kept: seq<seq<AccountId>>, j: nat, k: nat)
    requires j < |kept| && k < |kept| && j != k
    ensures CycleRings(kept)[j].ringId != CycleRings(kept)[k].ringId
  {
    if CycleRings(kept)[j].ringId == CycleRings(kept)[k].ringId {
      RingIdInjective(CyclePrefix, j + 1, k + 1);
    }
  }

  /** An elementary directed cycle of g: no repeated node, each node has an
      edge to the next, and the last node has an edge back to the first. */
  ghost predicate IsElementaryCycle(g: Graph, c: seq<AccountId>) {
    && |c| > 0
    && NoDup(c)
    && (forall k :: 0 <= k < |c| - 1 ==> (c[k], c[k + 1]) in g.attr)
    && (c[|c| - 1], c[0]) in g.attr
  }

  /** When the enumeration yields elementary cycles of g, every cycle ring is a
      closed directed walk of 3 to 5 distinct accounts of g. */
  lemma CycleRingsAreCycles(g: Graph, cycles: seq<seq<AccountId>>)
    requires forall c :: c in cycles ==> IsElementaryCycle(g, c)
    ensures forall r :: r in CycleRings(Kept(cycles)) ==>
      IsElementaryCycle(g, r.members) && 3 <= |r.members| <= 5
  {
    KeptSpec(cycles);
    var rings := CycleRings(Kept(cycles));
    forall r | r in rings
      ensures IsElementaryCycle(g, r.members) && 3 <= |r.members| <= 5
    {
      var k :| 0 <= k < |rings| && rings[k] == r;
      assert Kept(cycles)[k] in Kept(cycles);
    }
  }
}

/**
 * Per-account suspicion scores (backend/scoring.py).
 *
 * Every occurrence of an account among a ring's members adds the weight of
 * the ring's pattern; the total is capped at 100. Each scored account also
 * carries the sorted set of its patterns and the id of the last ring that
 * names it, and the list is sorted by score, highest first, keeping the order
 * of first appearance among equal scores.
 *
 * Scores are in halves (see `Records.Halves`): the weights 40, 30, 30, 20 and
 * 10 are 80, 60, 60, 40 and 20, and the cap 100 is 200.
 */
module Scoring {
  import opened Wrappers
  import opened Text
  import opened Records
  import opened AccountGraph

  /** `100.0`, the score cap. */
  const Cap: Halves := 200
  /** `WEIGHTS.get(pattern, 10)`: the smallest weight any pattern gets. */
  const DefaultWeight: Halves := 20

  /** `WEIGHTS.get(pattern, 10)`. */
  function Weight(pattern: string): Halves {
    if pattern == PatternCycle then 80
    else if pattern == PatternFanIn then 60
    else if pattern == PatternFanOut then 60
    else if pattern == PatternShell then 40
    else DefaultWeight
  }

  lemma WeightRange(pattern: string)
    ensures DefaultWeight <= Weight(pattern) <= 80
    ensures pattern !in {PatternCycle, PatternFanIn, PatternFanOut, PatternShell} ==> Weight(pattern) == DefaultWeight
  {
  }

  function Min(a: int, b: int): int {
    if a <= b then a else b
  }

  // ---------------------------------------------------------------------------
  // What the accumulation loop computes, ring by ring
  // ---------------------------------------------------------------------------

  /** How often `a` occurs in `xs`. */
  function Count(xs: seq<AccountId>, a: AccountId): nat {
    multiset(xs)[a]
  }

  /** All member lists, concatenated in ring order. */
  function Members(rings: seq<Ring>): seq<AccountId> {
    if rings == [] then [] else Members(rings[..|rings| - 1]) + rings[|rings| - 1].members
  }

  /** `score_map[a]` before the cap: the weight of each ring, once per occurrence of `a` in it. */
  function RawScore(rings: seq<Ring>, a: AccountId): Halves {
    if rings == [] then 0
    else
      var r := rings[|rings| - 1];
      RawScore(rings[..|rings| - 1], a) + Weight(r.pattern) * Count(r.members, a)
  }

  /** `pattern_map[a]`: the patterns of the rings that name `a`. */
  function PatternSet(rings: seq<Ring>, a: AccountId): set<string> {
    if rings == [] then {}
    else
      var r := rings[|rings| - 1];
      PatternSet(rings[..|rings| - 1], a) + (if a in r.members then {r.pattern} else {})
  }

  /** `ring_map.get(a)`: the id of the last ring that names `a`. */
  function LastRingId(rings: seq<Ring>, a: AccountId): Option<string> {
    if rings == [] then None
    else
      var r := rings[|rings| - 1];
      if a in r.members then Some(r.ringId) else LastRingId(rings[..|rings| - 1], a)
  }

  /** The keys of `score_map` in insertion order: accounts by first appearance. */
  function RingedAccounts(rings: seq<Ring>): seq<AccountId> {
    Distinct(Members(rings))
  }

  /** One entry of the returned list. */
  datatype ScoredAccount = ScoredAccount(accountId: AccountId, score: Halves, patterns: seq<string>, ringId: Option<string>)

  /** The entry built for account `a`. */
  function Scored(rings: seq<Ring>, a: AccountId): ScoredAccount {
    ScoredAccount(a, Min(RawScore(rings, a), Cap), SortedDistinct(PatternList(rings, a)), LastRingId(rings, a))
  }

  /** The patterns of the rings that name `a`, in ring order (with repeats). */
  function PatternList(rings: seq<Ring>, a: AccountId): seq<string> {
    if rings == [] then []
    else
      var r := rings[|rings| - 1];
      PatternList(rings[..|rings| - 1], a) + (if a in r.members then [r.pattern] else [])
  }

  /** The entries before sorting, in `score_map` order. */
  function Unsorted(rings: seq<Ring>): seq<ScoredAccount> {
    var accs := RingedAccounts(rings);
    seq(|accs|, k requires 0 <= k < |accs| => Scored(rings, accs[k]))
  }

  /** What `calculate_scores(G, fraud_rings)` returns. */
  function Scores(rings: seq<Ring>): seq<ScoredAccount> {
    SortByScore(Unsorted(rings))
  }

  // ---------------------------------------------------------------------------
  // What each accumulator holds
  // ---------------------------------------------------------------------------

  /** The accounts scored are those named by some ring. */
  lemma {:induction false} MembersSpec(rings: seq<Ring>, a: AccountId)
    ensures a in Members(rings) <==> exists i :: 0 <= i < |rings| && a in rings[i].members
  {
    if rings != [] {
      var n := |rings| - 1;
      MembersSpec(rings[..n], a);
      if a in Members(rings[..n]) {
        var i :| 0 <= i < n && a in rings[..n][i].members;
        assert a in rings[i].members;
      }
    }
  }

  /** Each occurrence adds between 10 and 40: the uncapped score lies between
      10 and 40 times the number of occurrences of the account. */
  lemma {:induction false} RawScoreBounds(rings: seq<Ring>, a: AccountId)
    ensures DefaultWeight * Count(Members(rings), a) <= RawScore(rings, a) <= 80 * Count(Members(rings), a)
  {
    if rings != [] {
      var n := |rings| - 1;
      RawScoreBounds(rings[..n], a);
      WeightRange(rings[n].pattern);
      assert Count(Members(rings), a) == Count(Members(rings[..n]), a) + Count(rings[n].members, a);
    }
  }

  /** The uncapped score of a concatenation is the sum of the two scores. */
  lemma {:induction false} RawScoreAppend(rs: seq<Ring>, more: seq<Ring>, a: AccountId)
    ensures RawScore(rs + more, a) == RawScore(rs, a) + RawScore(more, a)
  {
    if more != [] {
      var n := |more| - 1;
      RawScoreAppend(rs, more[..n], a);
      assert (rs + more)[..|rs| + n] == rs + more[..n];
    } else {
      assert rs + more == rs;
    }
  }

  /** Appending rings never lowers an account's (capped) score. */
  lemma ScoreMonotone(rs: seq<Ring>, more: seq<Ring>, a: AccountId)
    ensures Min(RawScore(rs + more, a), Cap) >= Min(RawScore(rs, a), Cap)
  {
    RawScoreAppend(rs, more, a);
    RawScoreBounds(more, a);
  }

  /** `pattern_map[a]` holds exactly the patterns of the rings naming `a`. */
  lemma {:induction false} PatternSetSpec(rings: seq<Ring>, a: AccountId, p: string)
    ensures p in PatternSet(rings, a) <==> exists i :: 0 <= i < |rings| && a in rings[i].members && rings[i].pattern == p
  {
    if rings != [] {
      var n := |rings| - 1;
      PatternSetSpec(rings[..n], a, p);
      if p in PatternSet(rings[..n], a) {
        var i :| 0 <= i < n && a in rings[..n][i].members && rings[..n][i].pattern == p;
        assert rings[i] == rings[..n][i];
      }
    }
  }

  lemma {:induction false} PatternListSpec(rings: seq<Ring>, a: AccountId)
    ensures Elems(PatternList(rings, a)) == PatternSet(rings, a)
  {
    if rings != [] {
      PatternListSpec(rings[..|rings| - 1], a);
    }
  }

  /** `ring_map[a]` is the id of the last ring naming `a`, and there is one
      exactly when some ring names `a`. */
  lemma {:induction false} LastRingIdSpec(rings: seq<Ring>, a: AccountId)
    ensures LastRingId(rings, a).Some? <==> a in Members(rings)
    ensures LastRingId(rings, a).Some? ==>
      exists i :: 0 <= i < |rings| && a in rings[i].members && rings[i].ringId == LastRingId(rings, a).value
        && forall j :: i < j < |rings| ==> a !in rings[j].members
  {
    if rings != [] {
      var n := |rings| - 1;
      LastRingIdSpec(rings[..n], a);
      if a !in rings[n].members && LastRingId(rings[..n], a).Some? {
        var i :| 0 <= i < n && a in rings[..n][i].members && rings[..n][i].ringId == LastRingId(rings[..n], a).value
          && forall j :: i < j < n ==> a !in rings[..n][j].members;
        assert rings[i] == rings[..n][i];
        forall j | i < j < |rings| ensures a !in rings[j].members {
          if j < n {
            assert rings[j] == rings[..n][j];
          }
        }
      }
    }
  }

  // ---------------------------------------------------------------------------
  // The stable descending sort `sort(key=score, reverse=True)`
  // ---------------------------------------------------------------------------

  /** Puts x in front of the first entry whose score is not above its own. */
  function InsertByScore(x: ScoredAccount, s: seq<ScoredAccount>): seq<ScoredAccount> {
    if s == [] then [x]
    else if s[0].score > x.score then [s[0]] + InsertByScore(x, s[1..])
    else [x] + s
  }

  function SortByScore(s: seq<ScoredAccount>): seq<ScoredAccount> {
    if s == [] then [] else InsertByScore(s[0], SortByScore(s[1..]))
  }

  predicate NonIncreasing(s: seq<ScoredAccount>) {
    forall i, j :: 0 <= i < j < |s| ==> s[i].score >= s[j].score
  }

  /** The entries of s with score k, in order. */
  function WithScore(s: seq<ScoredAccount>, k: Halves): seq<ScoredAccount> {
    if s == [] then []
    else (if s[0].score == k then [s[0]] else []) + WithScore(s[1..], k)
  }

  lemma {:induction false} InsertByScorePerm(x: ScoredAccount, s: seq<ScoredAccount>)
    ensures multiset(InsertByScore(x, s)) == multiset(s) + multiset{x}
  {
    if s != [] && s[0].score > x.score {
      InsertByScorePerm(x, s[1..]);
      assert s == [s[0]] + s[1..];
    }
  }

  lemma {:induction false} InsertByScoreOrdered(x: ScoredAccount, s: seq<ScoredAccount>)
    requires NonIncreasing(s)
    ensures NonIncreasing(InsertByScore(x, s))
  {
    if s != [] && s[0].score > x.score {
      var rest := InsertByScore(x, s[1..]);
      InsertByScoreOrdered(x, s[1..]);
      InsertByScorePerm(x, s[1..]);
      forall j | 0 <= j < |rest| ensures s[0].score >= rest[j].score {
        var e := rest[j];
        assert e in multiset(rest);
        if e != x {
          assert e in multiset(s[1..]);
          var m :| 0 <= m < |s[1..]| && s[1..][m] == e;
          assert e == s[m + 1];
        }
      }
      assert InsertByScore(x, s) == [s[0]] + rest;
    }
  }

  lemma {:induction false} InsertByScoreStable(x: ScoredAccount, s: seq<ScoredAccount>, k: Halves)
    ensures WithScore(InsertByScore(x, s), k) == WithScore([x] + s, k)
  {
    if s != [] && s[0].score > x.score {
      var rest := InsertByScore(x, s[1..]);
      InsertByScoreStable(x, s[1..], k);
      assert ([s[0]] + rest)[1..] == rest;
      assert ([x] + s)[1..] == s;
      assert ([x] + s[1..])[1..] == s[1..];
      assert s == [s[0]] + s[1..];
      assert ([x] + s)[1..][1..] == s[1..];
    }
  }

  /** The sort returns a permutation of its input, non-increasing in score,
      and among entries of equal score it keeps their input order. */
  lemma {:induction false} SortByScoreSpec(s: seq<ScoredAccount>)
    ensures NonIncreasing(SortByScore(s))
    ensures multiset(SortByScore(s)) == multiset(s)
    ensures forall k :: WithScore(SortByScore(s), k) == WithScore(s, k)
  {
    if s != [] {
      SortByScoreSpec(s[1..]);
      InsertByScoreOrdered(s[0], SortByScore(s[1..]));
      InsertByScorePerm(s[0], SortByScore(s[1..]));
      assert s == [s[0]] + s[1..];
      forall k ensures WithScore(SortByScore(s), k) == WithScore(s, k) {
        InsertByScoreStable(s[0], SortByScore(s[1..]), k);
        assert ([s[0]] + SortByScore(s[1..]))[1..] == SortByScore(s[1..]);
      }
    }
  }

  // ---------------------------------------------------------------------------
  // The returned list
  // ---------------------------------------------------------------------------

  function Ids(s: seq<ScoredAccount>): seq<AccountId> {
    seq(|s|, k requires 0 <= k < |s| => s[k].accountId)
  }

  /** The entry of an account some ring names: its score is the capped sum,
      between 10 and 100; its patterns are listed once each, in increasing
      order; its ring id is that of the last ring naming it. */
  lemma ScoredSpec(rings: seq<Ring>, a: AccountId)
    requires a in Members(rings)
    ensures var e := Scored(rings, a);
      && e.accountId == a
      && e.score == Min(RawScore(rings, a), Cap)
      && DefaultWeight <= e.score <= Cap
      && StrictlySorted(e.patterns) && Elems(e.patterns) == PatternSet(rings, a)
      && e.ringId == LastRingId(rings, a) && e.ringId.Some?
  {
    RawScoreBounds(rings, a);
    assert Count(Members(rings), a) >= 1;
    PatternListSpec(rings, a);
    SortedDistinctSpec(PatternList(rings, a));
    LastRingIdSpec(rings, a);
  }

  /** Before sorting there is one entry per named account, in order of first appearance. */
  lemma UnsortedSpec(rings: seq<Ring>)
    ensures Ids(Unsorted(rings)) == RingedAccounts(rings)
    ensures NoDup(Unsorted(rings))
  {
    var u := Unsorted(rings);
    DistinctSpec(Members(rings));
    assert Ids(u) == RingedAccounts(rings);
    forall i, j | 0 <= i < j < |u| ensures u[i] != u[j] {
      assert u[i].accountId == RingedAccounts(rings)[i] && u[j].accountId == RingedAccounts(rings)[j];
    }
  }

  lemma UnsortedEntries(rings: seq<Ring>)
    ensures forall e :: e in Unsorted(rings) ==> e.accountId in Members(rings) && e == Scored(rings, e.accountId)
  {
    var u := Unsorted(rings);
    DistinctSpec(Members(rings));
    forall e | e in u ensures e.accountId in Members(rings) && e == Scored(rings, e.accountId) {
      var k :| 0 <= k < |u| && u[k] == e;
      assert RingedAccounts(rings)[k] in Elems(RingedAccounts(rings));
    }
  }

  lemma ScoresEntries(rings: seq<Ring>)
    ensures forall e :: e in Scores(rings) ==> e.accountId in Members(rings) && e == Scored(rings, e.accountId)
    ensures forall e :: e in Unsorted(rings) ==> e in Scores(rings)
  {
    var u := Unsorted(rings);
    var out := Scores(rings);
    SortByScoreSpec(u);
    UnsortedEntries(rings);
    forall e | e in out ensures e in u {
      assert e in multiset(out);
    }
    forall e | e in u ensures e in out {
      assert e in multiset(u);
    }
  }

  lemma ScoresIdsDistinct(rings: seq<Ring>)
    ensures NoDup(Ids(Scores(rings)))
  {
    var out := Scores(rings);
    ScoresEntries(rings);
    forall i, j | 0 <= i < j < |out| ensures Ids(out)[i] != Ids(out)[j] {
      assert out[i] in out && out[j] in out;
      UnsortedSpec(rings);
      SortByScoreSpec(Unsorted(rings));
      SameMultisetNoDup(out, Unsorted(rings));
    }
  }

  lemma ScoresIdsCover(rings: seq<Ring>)
    ensures Elems(Ids(Scores(rings))) == Elems(Members(rings))
  {
    var u := Unsorted(rings);
    var out := Scores(rings);
    ScoresEntries(rings);
    UnsortedSpec(rings);
    DistinctSpec(Members(rings));
    forall a | a in Elems(Members(rings)) ensures a in Elems(Ids(out)) {
      assert a in Elems(RingedAccounts(rings));
      var k :| 0 <= k < |u| && RingedAccounts(rings)[k] == a;
      assert u[k] in out;
      var m :| 0 <= m < |out| && out[m] == u[k];
      assert Ids(out)[m] == a;
    }
    forall a | a in Elems(Ids(out)) ensures a in Elems(Members(rings)) {
      var m :| 0 <= m < |out| && Ids(out)[m] == a;
      assert out[m] in out;
    }
  }

  /**
   * `calculate_scores` lists every account some ring names, exactly once, each
   * with the entry `Scored` describes, in non-increasing score order; among
   * equal scores, accounts keep their order of first appearance.
   */
  lemma ScoresSpec(rings: seq<Ring>)
    ensures NoDup(Ids(Scores(rings)))
    ensures Elems(Ids(Scores(rings))) == Elems(Members(rings))
    ensures forall e :: e in Scores(rings) ==> e.accountId in Members(rings) && e == Scored(rings, e.accountId)
    ensures NonIncreasing(Scores(rings))
    ensures forall k :: WithScore(Scores(rings), k) == WithScore(Unsorted(rings), k)
  {
    ScoresIdsDistinct(rings);
    ScoresIdsCover(rings);
    ScoresEntries(rings);
    SortByScoreSpec(Unsorted(rings));
  }

  // ---------------------------------------------------------------------------
  // The accumulation loop
  // ---------------------------------------------------------------------------

  /** The ring r with only its first j members, as the inner loop has seen it. */
  function Upto(r: Ring, j: nat): Ring
    requires j <= |r.members|
  {
    r.(members := r.members[..j])
  }

  /** The three accumulators (and the key order of `score_map`) after the
      occurrences in `rs`. */
  ghost predicate Tallied(rs: seq<Ring>, scoreMap: map<AccountId, Halves>, patternMap: map<AccountId, set<string>>,
                          ringMap: map<AccountId, string>, order: seq<AccountId>)
  {
    && order == RingedAccounts(rs)
    && scoreMap.Keys == Elems(Members(rs))
    && patternMap.Keys == scoreMap.Keys
    && ringMap.Keys == scoreMap.Keys
    && ScoresHeld(rs, scoreMap)
    && PatternsHeld(rs, patternMap)
    && RingsHeld(rs, ringMap)
  }

  ghost predicate ScoresHeld(rs: seq<Ring>, scoreMap: map<AccountId, Halves>) {
    forall a :: a in scoreMap ==> scoreMap[a] == RawScore(rs, a)
  }

  ghost predicate PatternsHeld(rs: seq<Ring>, patternMap: map<AccountId, set<string>>) {
    forall a :: a in patternMap ==> patternMap[a] == PatternSet(rs, a)
  }

  ghost predicate RingsHeld(rs: seq<Ring>, ringMap: map<AccountId, string>) {
    forall a :: a in ringMap ==> LastRingId(rs, a) == Some(ringMap[a])
  }

  lemma TallyStart(rs: seq<Ring>, r: Ring, scoreMap: map<AccountId, Halves>, patternMap: map<AccountId, set<string>>,
                   ringMap: map<AccountId, string>, order: seq<AccountId>)
    requires Tallied(rs, scoreMap, patternMap, ringMap, order)
    ensures Tallied(rs + [Upto(r, 0)], scoreMap, patternMap, ringMap, order)
  {
    var rs' := rs + [Upto(r, 0)];
    assert rs'[..|rs|] == rs;
    assert Members(rs') == Members(rs);
  }

  lemma StepMembers(rs: seq<Ring>, r: Ring, j: nat)
    requires j < |r.members|
    ensures Members(rs + [Upto(r, j + 1)]) == Members(rs + [Upto(r, j)]) + [r.members[j]]
  {
    assert (rs + [Upto(r, j)])[..|rs|] == rs && (rs + [Upto(r, j + 1)])[..|rs|] == rs;
    assert r.members[..j + 1] == r.members[..j] + [r.members[j]];
  }

  lemma StepRaw(rs: seq<Ring>, r: Ring, j: nat, a: AccountId)
    requires j < |r.members|
    ensures RawScore(rs + [Upto(r, j + 1)], a) == RawScore(rs + [Upto(r, j)], a) + (if a == r.members[j] then Weight(r.pattern) else 0)
  {
    assert (rs + [Upto(r, j)])[..|rs|] == rs && (rs + [Upto(r, j + 1)])[..|rs|] == rs;
    assert r.members[..j + 1] == r.members[..j] + [r.members[j]];
  }

  lemma StepPatterns(rs: seq<Ring>, r: Ring, j: nat, a: AccountId)
    requires j < |r.members|
    ensures PatternSet(rs + [Upto(r, j + 1)], a) == PatternSet(rs + [Upto(r, j)], a) + (if a == r.members[j] then {r.pattern} else {})
  {
    assert (rs + [Upto(r, j)])[..|rs|] == rs && (rs + [Upto(r, j + 1)])[..|rs|] == rs;
    assert r.members[..j + 1] == r.members[..j] + [r.members[j]];
  }

  lemma StepLast(rs: seq<Ring>, r: Ring, j: nat, a: AccountId)
    requires j < |r.members|
    ensures LastRingId(rs + [Upto(r, j + 1)], a) == if a == r.members[j] then Some(r.ringId) else LastRingId(rs + [Upto(r, j)], a)
  {
    assert (rs + [Upto(r, j)])[..|rs|] == rs && (rs + [Upto(r, j + 1)])[..|rs|] == rs;
    assert r.members[..j + 1] == r.members[..j] + [r.members[j]];
  }

  /** An account no ring names has uncapped score 0 and no pattern. */
  lemma Unnamed(rs: seq<Ring>, a: AccountId)
    requires a !in Members(rs)
    ensures RawScore(rs, a) == 0 && PatternSet(rs, a) == {}
  {
    RawScoreBounds(rs, a);
    MembersSpec(rs, a);
    forall p ensures p !in PatternSet(rs, a) {
      PatternSetSpec(rs, a, p);
    }
  }

  lemma ScoresStep(rs: seq<Ring>, r: Ring, j: nat, scoreMap: map<AccountId, Halves>)
    requires j < |r.members|
    requires scoreMap.Keys == Elems(Members(rs + [Upto(r, j)])) && ScoresHeld(rs + [Upto(r, j)], scoreMap)
    ensures var x := r.members[j];
      ScoresHeld(rs + [Upto(r, j + 1)], scoreMap[x := (if x in scoreMap then scoreMap[x] else 0) + Weight(r.pattern)])
  {
    var x := r.members[j];
    if x !in scoreMap {
      Unnamed(rs + [Upto(r, j)], x);
    }
    forall a ensures RawScore(rs + [Upto(r, j + 1)], a) == RawScore(rs + [Upto(r, j)], a) + (if a == x then Weight(r.pattern) else 0) {
      StepRaw(rs, r, j, a);
    }
  }

  lemma PatternsStep(rs: seq<Ring>, r: Ring, j: nat, patternMap: map<AccountId, set<string>>)
    requires j < |r.members|
    requires patternMap.Keys == Elems(Members(rs + [Upto(r, j)])) && PatternsHeld(rs + [Upto(r, j)], patternMap)
    ensures var x := r.members[j];
      PatternsHeld(rs + [Upto(r, j + 1)], patternMap[x := (if x in patternMap then patternMap[x] else {}) + {r.pattern}])
  {
    var x := r.members[j];
    if x !in patternMap {
      Unnamed(rs + [Upto(r, j)], x);
    }
    forall a ensures PatternSet(rs + [Upto(r, j + 1)], a) == PatternSet(rs + [Upto(r, j)], a) + (if a == x then {r.pattern} else {}) {
      StepPatterns(rs, r, j, a);
    }
  }

  lemma RingsStep(rs: seq<Ring>, r: Ring, j: nat, ringMap: map<AccountId, string>)
    requires j < |r.members|
    requires RingsHeld(rs + [Upto(r, j)], ringMap)
    ensures RingsHeld(rs + [Upto(r, j + 1)], ringMap[r.members[j] := r.ringId])
  {
    forall a ensures LastRingId(rs + [Upto(r, j + 1)], a) == if a == r.members[j] then Some(r.ringId) else LastRingId(rs + [Upto(r, j)], a) {
      StepLast(rs, r, j, a);
    }
  }

  lemma OrderStep(rs: seq<Ring>, r: Ring, j: nat, keys: set<AccountId>, order: seq<AccountId>)
    requires j < |r.members|
    requires keys == Elems(Members(rs + [Upto(r, j)])) && order == RingedAccounts(rs + [Upto(r, j)])
    ensures var x := r.members[j];
      && keys + {x} == Elems(Members(rs + [Upto(r, j + 1)]))
      && (if x in keys then order else order + [x]) == RingedAccounts(rs + [Upto(r, j + 1)])
  {
    var m := Members(rs + [Upto(r, j)]);
    var x := r.members[j];
    StepMembers(rs, r, j);
    assert (m + [x])[..|m|] == m;
    DistinctSpec(m);
  }

  lemma KeysUpdate<V>(m: map<AccountId, V>, x: AccountId, v: V)
    ensures m[x := v].Keys == m.Keys + {x}
  {
  }

  lemma TallyStep(rs: seq<Ring>, r: Ring, j: nat, scoreMap: map<AccountId, Halves>, patternMap: map<AccountId, set<string>>,
                  ringMap: map<AccountId, string>, order: seq<AccountId>,
                  scoreMap': map<AccountId, Halves>, patternMap': map<AccountId, set<string>>,
                  ringMap': map<AccountId, string>, order': seq<AccountId>, x: AccountId)
    requires j < |r.members| && x == r.members[j]
    requires Tallied(rs + [Upto(r, j)], scoreMap, patternMap, ringMap, order)
    requires && scoreMap' == scoreMap[x := (if x in scoreMap then scoreMap[x] else 0) + Weight(r.pattern)]
      && patternMap' == patternMap[x := (if x in patternMap then patternMap[x] else {}) + {r.pattern}]
      && ringMap' == ringMap[x := r.ringId]
      && order' == if x in scoreMap then order else order + [x]
    ensures Tallied(rs + [Upto(r, j + 1)], scoreMap', patternMap', ringMap', order')
  {
    var rs' := rs + [Upto(r, j + 1)];
    assert order' == RingedAccounts(rs') && scoreMap'.Keys == Elems(Members(rs')) by {
      OrderStep(rs, r, j, scoreMap.Keys, order);
      KeysUpdate(scoreMap, x, (if x in scoreMap then scoreMap[x] else 0) + Weight(r.pattern));
    }
    assert patternMap'.Keys == scoreMap'.Keys && ringMap'.Keys == scoreMap'.Keys by {
      KeysUpdate(scoreMap, x, (if x in scoreMap then scoreMap[x] else 0) + Weight(r.pattern));
      KeysUpdate(patternMap, x, (if x in patternMap then patternMap[x] else {}) + {r.pattern});
      KeysUpdate(ringMap, x, r.ringId);
    }
    assert ScoresHeld(rs', scoreMap') by {
      ScoresStep(rs, r, j, scoreMap);
    }
    assert PatternsHeld(rs', patternMap') by {
      PatternsStep(rs, r, j, patternMap);
    }
    assert RingsHeld(rs', ringMap') by {
      RingsStep(rs, r, j, ringMap);
    }
  }

  lemma TallyEnd(rs: seq<Ring>, r: Ring)
    ensures rs + [Upto(r, |r.members|)] == rs + [r]
  {
    assert r.members[..|r.members|] == r.members;
  }

  /** The k-th key of `score_map`, read out of the finished accumulators, is
      the k-th unsorted entry (up to its pattern listing). */
  lemma EntryOf(rings: seq<Ring>, scoreMap: map<AccountId, Halves>, patternMap: map<AccountId, set<string>>,
                ringMap: map<AccountId, string>, order: seq<AccountId>, k: nat)
    requires Tallied(rings, scoreMap, patternMap, ringMap, order) && k < |order|
    ensures |Unsorted(rings)| == |order|
    ensures var a := order[k];
      && a in scoreMap && a in patternMap && a in ringMap
      && patternMap[a] == PatternSet(rings, a)
      && Unsorted(rings)[k] == Scored(rings, a)
      && Scored(rings, a).score == Min(scoreMap[a], Cap)
      && Scored(rings, a).ringId == Some(ringMap[a])
  {
    DistinctSpec(Members(rings));
    assert order[k] in Elems(order);
  }

  lemma TakeSnoc<T>(s: seq<T>, k: nat)
    requires k < |s|
    ensures s[..k + 1] == s[..k] + [s[k]]
  {
  }

  /** The listing `sorted(list(pattern_map[a]))` is the entry's pattern list. */
  lemma PatternsOf(rings: seq<Ring>, a: AccountId, patterns: seq<string>)
    requires StrictlySorted(patterns) && Elems(patterns) == PatternSet(rings, a)
    ensures patterns == Scored(rings, a).patterns
  {
    PatternListSpec(rings, a);
    SortedDistinctSpec(PatternList(rings, a));
    StrictlySortedUnique(patterns, SortedDistinct(PatternList(rings, a)));
  }

  /** The `# Aggregate scores` loops of `calculate_scores`: one pass over the
      rings, filling the three maps. */
  method Aggregate(rings: seq<Ring>)
    returns (scoreMap: map<AccountId, Halves>, patternMap: map<AccountId, set<string>>,
             ringMap: map<AccountId, string>, order: seq<AccountId>)
    ensures Tallied(rings, scoreMap, patternMap, ringMap, order)
  {
    scoreMap, patternMap, ringMap := map[], map[], map[];
    // the insertion order of the keys of `score_map`
    order := [];
    for i := 0 to |rings|
      invariant Tallied(rings[..i], scoreMap, patternMap, ringMap, order)
    {
      scoreMap, patternMap, ringMap, order := AggregateRing(rings[..i], rings[i], scoreMap, patternMap, ringMap, order);
      assert rings[..i + 1] == rings[..i] + [rings[i]];
    }
    assert rings[..|rings|] == rings;
  }

  /** The body of the loop over rings: each member of `ring` adds the ring's
      weight, pattern and id to its entries. */
  method AggregateRing(done: seq<Ring>, ring: Ring, scoreMap0: map<AccountId, Halves>, patternMap0: map<AccountId, set<string>>,
                       ringMap0: map<AccountId, string>, order0: seq<AccountId>)
    returns (scoreMap: map<AccountId, Halves>, patternMap: map<AccountId, set<string>>,
             ringMap: map<AccountId, string>, order: seq<AccountId>)
    requires Tallied(done, scoreMap0, patternMap0, ringMap0, order0)
    ensures Tallied(done + [ring], scoreMap, patternMap, ringMap, order)
  {
    scoreMap, patternMap, ringMap, order := scoreMap0, patternMap0, ringMap0, order0;
    var weight := Weight(ring.pattern);
    TallyStart(done, ring, scoreMap, patternMap, ringMap, order);
    for j := 0 to |ring.members|
      invariant Tallied(done + [Upto(ring, j)], scoreMap, patternMap, ringMap, order)
    {
      var acc := ring.members[j];
      ghost var before := (scoreMap, patternMap, ringMap, order);
      order := if acc in scoreMap then order else order + [acc];
      scoreMap := scoreMap[acc := (if acc in scoreMap then scoreMap[acc] else 0) + weight];
      patternMap := patternMap[acc := (if acc in patternMap then patternMap[acc] else {}) + {ring.pattern}];
      ringMap := ringMap[acc := ring.ringId];
      TallyStep(done, ring, j, before.0, before.1, before.2, before.3, scoreMap, patternMap, ringMap, order, acc);
    }
    TallyEnd(done, ring);
  }

  /**
   * `calculate_scores(G, fraud_rings)`: the accumulation, then one entry per
   * account in `score_map` order, then the sort. The sort is the library's
   * `list.sort`, kept as its result: the stable descending sort `SortByScore`.
   * `G` is never read.
   */
  method CalculateScores(g: Graph, rings: seq<Ring>) returns (accounts: seq<ScoredAccount>)
    ensures accounts == Scores(rings)
  {
    var scoreMap, patternMap, ringMap, order := Aggregate(rings);
    var unsorted: seq<ScoredAccount> := [];
    ghost var expected := Unsorted(rings);
    for k := 0 to |order|
      invariant unsorted == expected[..k]
    {
      var acc := order[k];
      EntryOf(rings, scoreMap, patternMap, ringMap, order, k);
      var patterns := SortedList(patternMap[acc]);
      PatternsOf(rings, acc, patterns);
      unsorted := unsorted + [ScoredAccount(acc, Min(scoreMap[acc], Cap), patterns, if acc in ringMap then Some(ringMap[acc]) else None)];
      TakeSnoc(expected, k);
    }
    assert expected[..|order|] == expected;
    accounts := SortByScore(unsorted);
  }
}

/**
 * Fan-in / fan-out smurfing (backend/detectors/smurfing_detector.py).
 *
 * Transactions are taken in time order; for every receiver (fan-in) and every
 * sender (fan-out) a 72-hour window slides over the start positions of that
 * account's own transactions, and the first window that reaches 10 distinct
 * counterparties yields one ring. Both passes share one ring counter.
 */
module SmurfingDetector {
  import opened Wrappers
  import opened Text
  import opened Records

  /** timedelta(hours=72), in seconds. */
  const Window: int := 259200
  /** Distinct counterparties a window needs. */
  const Threshold: nat := 10

  datatype Direction = FanIn | FanOut

  /** The account a pass groups by: the receiver for fan-in, the sender for fan-out. */
  function Focal(d: Direction, t: Txn): AccountId {
    if d == FanIn then t.receiver else t.sender
  }

  /** The other side of the transaction. */
  function Party(d: Direction, t: Txn): AccountId {
    if d == FanIn then t.sender else t.receiver
  }

  function Prefix(d: Direction): string {
    if d == FanIn then "RING_SMURF_IN_" else "RING_SMURF_OUT_"
  }

  function PatternOf(d: Direction): string {
    if d == FanIn then PatternFanIn else PatternFanOut
  }

  /** What a grouped list keeps of a transaction (the amount is carried but never read). */
  datatype Contact = Contact(party: AccountId, time: int)

  predicate SortedByTime(txs: seq<Txn>) {
    forall i, j :: 0 <= i < j < |txs| ==> txs[i].timestamp <= txs[j].timestamp
  }

  predicate ContactsSorted(cs: seq<Contact>) {
    forall i, j :: 0 <= i < j < |cs| ==> cs[i].time <= cs[j].time
  }

  // ---------------------------------------------------------------------------
  // Grouping: fan_in_map / fan_out_map
  // ---------------------------------------------------------------------------

  function Focals(txs: seq<Txn>, d: Direction): seq<AccountId> {
    seq(|txs|, k requires 0 <= k < |txs| => Focal(d, txs[k]))
  }

  /** The keys of the defaultdict, in insertion order. */
  function FocalOrder(txs: seq<Txn>, d: Direction): seq<AccountId> {
    Distinct(Focals(txs, d))
  }

  /** The list the defaultdict holds for account a: a's transactions in input order. */
  function ContactsOf(txs: seq<Txn>, d: Direction, a: AccountId): seq<Contact> {
    if txs == [] then []
    else
      var t := txs[|txs| - 1];
      ContactsOf(txs[..|txs| - 1], d, a) + (if Focal(d, t) == a then [Contact(Party(d, t), t.timestamp)] else [])
  }

  function ContactsMap(txs: seq<Txn>, d: Direction): map<AccountId, seq<Contact>> {
    map a | a in Focals(txs, d) :: ContactsOf(txs, d, a)
  }

  lemma {:induction false} ContactsOfAbsent(txs: seq<Txn>, d: Direction, a: AccountId)
    requires a !in Focals(txs, d)
    ensures ContactsOf(txs, d, a) == []
  {
    if txs != [] {
      var init := txs[..|txs| - 1];
      assert Focals(txs, d)[..|init|] == Focals(init, d);
      assert Focal(d, txs[|txs| - 1]) == Focals(txs, d)[|init|];
      ContactsOfAbsent(init, d, a);
    }
  }

  lemma ContactsMapSnoc(txs: seq<Txn>, t: Txn, d: Direction)
    ensures var m := ContactsMap(txs, d);
      var f := Focal(d, t);
      ContactsMap(txs + [t], d)
        == m[f := (if f in m then m[f] else []) + [Contact(Party(d, t), t.timestamp)]]
  {
    var all := txs + [t];
    var f := Focal(d, t);
    var m := ContactsMap(txs, d);
    var r := m[f := (if f in m then m[f] else []) + [Contact(Party(d, t), t.timestamp)]];
    var m2 := ContactsMap(all, d);
    assert all[..|txs|] == txs;
    assert Focals(all, d) == Focals(txs, d) + [f];
    assert forall a :: a in Focals(all, d) <==> a in Focals(txs, d) || a == f;
    assert m2.Keys == r.Keys;
    forall a | a in m2
      ensures m2[a] == r[a]
    {
      assert ContactsOf(all, d, a) == ContactsOf(txs, d, a) + (if f == a then [Contact(Party(d, t), t.timestamp)] else []);
      if a == f && f !in m {
        ContactsOfAbsent(txs, d, f);
      }
    }
  }

  lemma FocalOrderSnoc(txs: seq<Txn>, t: Txn, d: Direction)
    ensures var f := Focal(d, t);
      FocalOrder(txs + [t], d)
        == if f in ContactsMap(txs, d) then FocalOrder(txs, d) else FocalOrder(txs, d) + [f]
    ensures Elems(FocalOrder(txs, d)) == ContactsMap(txs, d).Keys
  {
    var all := txs + [t];
    assert all[..|txs|] == txs;
    assert Focals(all, d) == Focals(txs, d) + [Focal(d, t)];
    assert Focals(all, d)[..|txs|] == Focals(txs, d);
    DistinctSpec(Focals(txs, d));
  }

  /** Building fan_in_map (or fan_out_map) by appending, row by row. */
  method GroupByFocal(txs: seq<Txn>, d: Direction) returns (order: seq<AccountId>, lists: map<AccountId, seq<Contact>>)
    ensures order == FocalOrder(txs, d)
    ensures lists == ContactsMap(txs, d)
    ensures Elems(order) == lists.Keys
  {
    order, lists := [], map[];
    var i := 0;
    while i < |txs|
      invariant 0 <= i <= |txs|
      invariant order == FocalOrder(txs[..i], d)
      invariant lists == ContactsMap(txs[..i], d)
    {
      var t := txs[i];
      var f := Focal(d, t);
      ghost var pre := txs[..i];
      assert txs[..i + 1] == pre + [t];
      FocalOrderSnoc(pre, t, d);
      ContactsMapSnoc(pre, t, d);
      if f !in lists {
        order := order + [f];
      }
      var current := if f in lists then lists[f] else [];
      lists := lists[f := current + [Contact(Party(d, t), t.timestamp)]];
      i := i + 1;
    }
    assert txs[..i] == txs;
    FocalOrderSnoc(txs, Txn("", "", "", 0.0, 0), d);
  }

  /** A focal account's list, taken from time-sorted transactions, is time-sorted. */
  lemma {:induction false} ContactsOfSorted(txs: seq<Txn>, d: Direction, a: AccountId)
    requires SortedByTime(txs)
    ensures ContactsSorted(ContactsOf(txs, d, a))
    ensures forall c :: c in ContactsOf(txs, d, a) ==> exists t :: t in txs && c.time == t.timestamp
  {
    if txs != [] {
      var init, t := txs[..|txs| - 1], txs[|txs| - 1];
      ContactsOfSorted(init, d, a);
      var prev := ContactsOf(init, d, a);
      forall c | c in prev ensures c.time <= t.timestamp {
        var u :| u in init && c.time == u.timestamp;
        var k :| 0 <= k < |init| && init[k] == u;
        assert txs[k] == u;
      }
    }
  }

  // ---------------------------------------------------------------------------
  // The sliding window
  // ---------------------------------------------------------------------------

  /** Where the scan from start i stops: the first position from j on whose
      time is more than 72 h after the start, or the end of the list. */
  function WindowEnd(cs: seq<Contact>, i: nat, j: nat): (e: nat)
    requires i < |cs| && i <= j <= |cs|
    ensures j <= e <= |cs|
    decreases |cs| - j
  {
    if j == |cs| then j
    else if cs[j].time - cs[i].time <= Window then WindowEnd(cs, i, j + 1)
    else j
  }

  function PartiesOf(cs: seq<Contact>): seq<AccountId> {
    seq(|cs|, k requires 0 <= k < |cs| => cs[k].party)
  }

  /** The counterparties the window starting at i collects (with repeats). */
  function WindowParties(cs: seq<Contact>, i: nat): seq<AccountId>
    requires i < |cs|
  {
    PartiesOf(cs[i..WindowEnd(cs, i, i)])
  }

  predicate WindowQualifies(cs: seq<Contact>, i: nat)
    requires i < |cs|
  {
    |Elems(WindowParties(cs, i))| >= Threshold
  }

  /** The first start position, from `from` on, whose window qualifies. */
  function FirstStart(cs: seq<Contact>, from: nat): (r: Option<nat>)
    ensures r.Some? ==> from <= r.value < |cs|
    decreases |cs| - from
  {
    if from >= |cs| then None
    else if WindowQualifies(cs, from) then Some(from)
    else FirstStart(cs, from + 1)
  }

  /** The window used is the earliest qualifying start, and when none is
      found no start qualifies (completeness). */
  lemma {:induction false} FirstStartSpec(cs: seq<Contact>, from: nat)
    ensures FirstStart(cs, from).Some? ==> WindowQualifies(cs, FirstStart(cs, from).value)
    ensures FirstStart(cs, from).Some? ==> forall k :: from <= k < FirstStart(cs, from).value ==> !WindowQualifies(cs, k)
    ensures FirstStart(cs, from).None? ==> forall k :: from <= k < |cs| ==> !WindowQualifies(cs, k)
    decreases |cs| - from
  {
    if from < |cs| && !WindowQualifies(cs, from) {
      FirstStartSpec(cs, from + 1);
    }
  }

  /** The inner `for j in range(i, len(txns))` loop with its `break`. */
  method ScanWindow(cs: seq<Contact>, i: nat) returns (parties: set<AccountId>)
    requires i < |cs|
    ensures parties == Elems(WindowParties(cs, i))
  {
    var windowStart := cs[i].time;
    parties := {};
    var j := i;
    while j < |cs|
      invariant i <= j <= |cs|
      invariant WindowEnd(cs, i, j) == WindowEnd(cs, i, i)
      invariant parties == Elems(PartiesOf(cs[i..j]))
    {
      if cs[j].time - windowStart <= Window {
        assert PartiesOf(cs[i..j + 1]) == PartiesOf(cs[i..j]) + [cs[j].party];
        parties := parties + {cs[j].party};
      } else {
        break;
      }
      j := j + 1;
    }
  }

  // ---------------------------------------------------------------------------
  // Rings
  // ---------------------------------------------------------------------------

  /** The ring for focal account a with the collected counterparties. Fan-in:
      sorted senders then the receiver; fan-out: the sender then sorted
      receivers. Risk 80 + 0.5 * count, i.e. 160 + count halves. */
  function SmurfRing(d: Direction, a: AccountId, n: nat, parties: seq<AccountId>): Ring {
    var sortedParties := SortedDistinct(parties);
    Ring(RingId(Prefix(d), n),
         if d == FanIn then sortedParties + [a] else [a] + sortedParties,
         PatternOf(d),
         160 + |Elems(parties)|)
  }

  /** The ring (if any) the window scan yields for focal account a, numbered n. */
  function AccountRing(d: Direction, a: AccountId, cs: seq<Contact>, n: nat): Option<Ring> {
    match FirstStart(cs, 0)
    case None => None
    case Some(i) => Some(SmurfRing(d, a, n, WindowParties(cs, i)))
  }

  /** The rings one pass emits over the focal accounts `fs`, numbered from `first`. */
  function PassRings(d: Direction, fs: seq<AccountId>, lists: map<AccountId, seq<Contact>>, first: nat): seq<Ring> {
    if fs == [] then []
    else
      var prev := PassRings(d, fs[..|fs| - 1], lists, first);
      var a := fs[|fs| - 1];
      match AccountRing(d, a, if a in lists then lists[a] else [], first + |prev|)
      case None => prev
      case Some(r) => prev + [r]
  }

  /** The whole detector over the time-sorted transactions: fan-in rings, then
      fan-out rings numbered on from where fan-in stopped. */
  function SmurfRings(byTime: seq<Txn>): seq<Ring> {
    var inRings := PassRings(FanIn, FocalOrder(byTime, FanIn), ContactsMap(byTime, FanIn), 1);
    inRings + PassRings(FanOut, FocalOrder(byTime, FanOut), ContactsMap(byTime, FanOut), 1 + |inRings|)
  }

  /** The ring built from the collected set is `SmurfRing` of the window. */
  lemma SmurfRingFromSet(d: Direction, a: AccountId, n: nat, ps: seq<AccountId>, members: seq<AccountId>)
    requires StrictlySorted(members) && Elems(members) == Elems(ps)
    ensures Ring(RingId(Prefix(d), n), if d == FanIn then members + [a] else [a] + members, PatternOf(d), 160 + |Elems(ps)|)
         == SmurfRing(d, a, n, ps)
  {
    SortedDistinctSpec(ps);
    StrictlySortedUnique(members, SortedDistinct(ps));
  }

  /** The sliding-window loop over one focal account's transactions, up to
      the `break` after the first ring. */
  method FirstWindowRing(d: Direction, a: AccountId, txns: seq<Contact>, ringCounter: nat) returns (found: Option<Ring>)
    ensures found == AccountRing(d, a, txns, ringCounter)
  {
    var i := 0;
    while i < |txns|
      invariant 0 <= i <= |txns|
      invariant FirstStart(txns, 0) == FirstStart(txns, i)
    {
      var parties := ScanWindow(txns, i);
      if |parties| >= Threshold {
        var members := SortedList(parties);
        found := Some(Ring(RingId(Prefix(d), ringCounter),
                           if d == FanIn then members + [a] else [a] + members,
                           PatternOf(d),
                           160 + |parties|));
        SmurfRingFromSet(d, a, ringCounter, WindowParties(txns, i), members);
        assert FirstStart(txns, i) == Some(i);
        return;
      }
      i := i + 1;
    }
    found := None;
  }

  /** One step of a pass: the next focal account adds its ring, if any. */
  lemma PassRingsStep(d: Direction, order: seq<AccountId>, k: nat, lists: map<AccountId, seq<Contact>>, first: nat,
                      rings0: seq<Ring>, before: seq<Ring>, after: seq<Ring>, found: Option<Ring>)
    requires k < |order| && order[k] in lists
    requires before == rings0 + PassRings(d, order[..k], lists, first)
    requires found == AccountRing(d, order[k], lists[order[k]], first + |before| - |rings0|)
    requires after == before + (if found.Some? then [found.value] else [])
    ensures after == rings0 + PassRings(d, order[..k + 1], lists, first)
  {
    var prev := PassRings(d, order[..k], lists, first);
    assert order[..k + 1][..k] == order[..k];
    assert PassRings(d, order[..k + 1], lists, first) == prev + (if found.Some? then [found.value] else []);
    assert rings0 + (prev + (if found.Some? then [found.value] else [])) == before + (if found.Some? then [found.value] else []);
  }

  /** One pass: for each focal account, slide the window until one qualifies. */
  method ScanPass(d: Direction, order: seq<AccountId>, lists: map<AccountId, seq<Contact>>, rings0: seq<Ring>, counter0: nat)
    returns (rings: seq<Ring>, ringCounter: nat)
    requires forall a :: a in order ==> a in lists
    ensures rings == rings0 + PassRings(d, order, lists, counter0)
    ensures ringCounter == counter0 + |PassRings(d, order, lists, counter0)|
  {
    rings, ringCounter := rings0, counter0;
    var k := 0;
    while k < |order|
      invariant 0 <= k <= |order|
      invariant rings == rings0 + PassRings(d, order[..k], lists, counter0)
      invariant ringCounter == counter0 + |rings| - |rings0|
    {
      var found := FirstWindowRing(d, order[k], lists[order[k]], ringCounter);
      ghost var before := rings;
      if found.Some? {
        rings := rings + [found.value];
        ringCounter := ringCounter + 1;
      }
      PassRingsStep(d, order, k, lists, counter0, rings0, before, rings, found);
      k := k + 1;
    }
    assert order[..k] == order;
  }

  /**
   * `detect_smurfing(G, df)`. `byTime` is what `df.sort_values("timestamp")`
   * returned: some time-sorted permutation of the rows (pandas' default sort is
   * not stable, so which one is left open).
   */
  method DetectSmurfing(txns: seq<Txn>, byTime: seq<Txn>) returns (rings: seq<Ring>)
    requires SortedByTime(byTime) && multiset(byTime) == multiset(txns)
    ensures rings == SmurfRings(byTime)
  {
    rings := [];
    var ringCounter := 1;
    var order, lists := GroupByFocal(byTime, FanIn);
    rings, ringCounter := ScanPass(FanIn, order, lists, rings, ringCounter);
    ghost var inRings := rings;
    order, lists := GroupByFocal(byTime, FanOut);
    rings, ringCounter := ScanPass(FanOut, order, lists, rings, ringCounter);
    assert inRings == PassRings(FanIn, FocalOrder(byTime, FanIn), ContactsMap(byTime, FanIn), 1);
  }

  // ---------------------------------------------------------------------------
  // Properties of the detector
  // ---------------------------------------------------------------------------

  /** The window from start i is a contiguous run of the sorted list: every
      contact in it lies within 72 h of the start (inclusive), and every later
      contact within that bound is in it. */
  lemma WindowBounds(cs: seq<Contact>, i: nat)
    requires ContactsSorted(cs) && i < |cs|
    ensures forall c :: c in cs[i..WindowEnd(cs, i, i)] ==> cs[i].time <= c.time <= cs[i].time + Window
    ensures forall k :: i <= k < |cs| && cs[k].time <= cs[i].time + Window ==> k < WindowEnd(cs, i, i)
  {
    WindowEndSpec(cs, i, i);
  }

  lemma {:induction false} WindowEndSpec(cs: seq<Contact>, i: nat, j: nat)
    requires ContactsSorted(cs) && i < |cs| && i <= j <= |cs|
    requires forall k :: i <= k < j ==> cs[k].time - cs[i].time <= Window
    ensures forall k :: i <= k < WindowEnd(cs, i, j) ==> cs[k].time - cs[i].time <= Window
    ensures forall k :: WindowEnd(cs, i, j) <= k < |cs| ==> cs[k].time - cs[i].time > Window
    decreases |cs| - j
  {
    if j < |cs| && cs[j].time - cs[i].time <= Window {
      WindowEndSpec(cs, i, j + 1);
    }
  }

  /** The members of a ring with counterparty set ps around focal account a:
      the counterparties in increasing order, then a (fan-in), or a, then the
      counterparties in increasing order (fan-out). */
  ghost predicate Layout(d: Direction, a: AccountId, ps: set<AccountId>, members: seq<AccountId>) {
    && |members| == |ps| + 1
    && (if d == FanIn
        then members[|ps|] == a && StrictlySorted(members[..|ps|]) && Elems(members[..|ps|]) == ps
        else members[0] == a && StrictlySorted(members[1..]) && Elems(members[1..]) == ps)
  }

  /** The focal account of a ring: its last member for fan-in, its first for fan-out. */
  function FocusOf(d: Direction, members: seq<AccountId>): AccountId {
    if members == [] then "" else if d == FanIn then members[|members| - 1] else members[0]
  }

  lemma SmurfRingSpec(d: Direction, a: AccountId, n: nat, parties: seq<AccountId>)
    ensures var r := SmurfRing(d, a, n, parties);
      && r.ringId == RingId(Prefix(d), n)
      && r.pattern == PatternOf(d)
      && r.risk == 160 + |Elems(parties)|
      && Layout(d, a, Elems(parties), r.members)
      && FocusOf(d, r.members) == a
  {
    SortedDistinctSpec(parties);
    var sp := SortedDistinct(parties);
    if d == FanIn {
      assert (sp + [a])[..|sp|] == sp;
    } else {
      assert ([a] + sp)[1..] == sp;
    }
  }

  /**
   * The scan of one focal account: a ring is emitted exactly when some start
   * position's 72-hour window holds at least 10 distinct counterparties
   * (soundness and completeness); it uses the earliest such start, is
   * numbered n, and scores 80 + 0.5 per counterparty, at least 85.
   */
  lemma AccountRingSpec(d: Direction, a: AccountId, cs: seq<Contact>, n: nat)
    ensures AccountRing(d, a, cs, n).Some? <==> exists i :: 0 <= i < |cs| && WindowQualifies(cs, i)
    ensures AccountRing(d, a, cs, n).Some? ==>
      var i := FirstStart(cs, 0).value;
      var ps := Elems(WindowParties(cs, i));
      var r := AccountRing(d, a, cs, n).value;
      && i < |cs|
      && (forall k :: 0 <= k < i ==> !WindowQualifies(cs, k))
      && |ps| >= Threshold
      && r.ringId == RingId(Prefix(d), n)
      && r.pattern == PatternOf(d)
      && r.risk == 160 + |ps| >= 170
      && Layout(d, a, ps, r.members)
      && FocusOf(d, r.members) == a
  {
    FirstStartSpec(cs, 0);
    if FirstStart(cs, 0).Some? {
      SmurfRingSpec(d, a, n, WindowParties(cs, FirstStart(cs, 0).value));
    }
  }

  /** The rings a pass emits after one more focal account. */
  lemma PassRingsLast(d: Direction, fs: seq<AccountId>, lists: map<AccountId, seq<Contact>>, first: nat)
    requires fs != []
    ensures var init, a := fs[..|fs| - 1], fs[|fs| - 1];
      var prev := PassRings(d, init, lists, first);
      var found := AccountRing(d, a, if a in lists then lists[a] else [], first + |prev|);
      && PassRings(d, fs, lists, first) == (if found.Some? then prev + [found.value] else prev)
      && (found.Some? ==> FocusOf(d, found.value.members) == a)
  {
    var init, a := fs[..|fs| - 1], fs[|fs| - 1];
    AccountRingSpec(d, a, if a in lists then lists[a] else [], first + |PassRings(d, init, lists, first)|);
  }

  /** The k-th ring of a pass is numbered first + k and is the ring of its
      focal account, which is one of `fs`. */
  lemma PassRingsSound(d: Direction, fs: seq<AccountId>, lists: map<AccountId, seq<Contact>>, first: nat)
    ensures var rs := PassRings(d, fs, lists, first);
      forall k :: 0 <= k < |rs| ==>
        var a := FocusOf(d, rs[k].members);
        && a in fs
        && AccountRing(d, a, if a in lists then lists[a] else [], first + k) == Some(rs[k])
  {
    forall k | 0 <= k < |PassRings(d, fs, lists, first)| {
      PassRingSound(d, fs, lists, first, k);
    }
  }

  lemma {:induction false} PassRingSound(d: Direction, fs: seq<AccountId>, lists: map<AccountId, seq<Contact>>, first: nat, k: nat)
    requires k < |PassRings(d, fs, lists, first)|
    ensures var r := PassRings(d, fs, lists, first)[k];
      var a := FocusOf(d, r.members);
      && a in fs
      && AccountRing(d, a, if a in lists then lists[a] else [], first + k) == Some(r)
  {
    var init := fs[..|fs| - 1];
    if k < |PassRings(d, init, lists, first)| {
      PassRingSound(d, init, lists, first, k);
      PassRingsKeep(d, fs, lists, first, k);
      InPrefix(fs, |fs| - 1, FocusOf(d, PassRings(d, init, lists, first)[k].members));
    } else {
      PassRingsNew(d, fs, lists, first, k);
    }
  }

  lemma InPrefix(xs: seq<AccountId>, n: nat, x: AccountId)
    requires n <= |xs| && x in xs[..n]
    ensures x in xs
  {
    var j :| 0 <= j < n && xs[..n][j] == x;
    assert xs[j] == x;
  }

  /** A pass over one more focal account keeps the rings it had. */
  lemma PassRingsKeep(d: Direction, fs: seq<AccountId>, lists: map<AccountId, seq<Contact>>, first: nat, k: nat)
    requires fs != [] && k < |PassRings(d, fs[..|fs| - 1], lists, first)|
    ensures k < |PassRings(d, fs, lists, first)|
    ensures PassRings(d, fs, lists, first)[k] == PassRings(d, fs[..|fs| - 1], lists, first)[k]
  {
  }

  /** The ring a pass gains from its last focal account is that account's ring. */
  lemma PassRingsNew(d: Direction, fs: seq<AccountId>, lists: map<AccountId, seq<Contact>>, first: nat, k: nat)
    requires fs != [] && |PassRings(d, fs[..|fs| - 1], lists, first)| <= k < |PassRings(d, fs, lists, first)|
    ensures var a, r := fs[|fs| - 1], PassRings(d, fs, lists, first)[k];
      && a in fs
      && FocusOf(d, r.members) == a
      && AccountRing(d, a, if a in lists then lists[a] else [], first + k) == Some(r)
  {
    PassRingsLast(d, fs, lists, first);
  }

  /** Over duplicate-free focal accounts, no account gets two rings. */
  lemma {:induction false} PassRingsDistinct(d: Direction, fs: seq<AccountId>, lists: map<AccountId, seq<Contact>>, first: nat)
    requires NoDup(fs)
    ensures var rs := PassRings(d, fs, lists, first);
      forall j, k :: 0 <= j < k < |rs| ==> FocusOf(d, rs[j].members) != FocusOf(d, rs[k].members)
  {
    if fs != [] {
      var init, a := fs[..|fs| - 1], fs[|fs| - 1];
      assert NoDup(init);
      PassRingsDistinct(d, init, lists, first);
      PassRingsSound(d, init, lists, first);
      PassRingsLast(d, fs, lists, first);
      var prev := PassRings(d, init, lists, first);
      var rs := PassRings(d, fs, lists, first);
      assert a !in init;
      forall j, k | 0 <= j < k < |rs| ensures FocusOf(d, rs[j].members) != FocusOf(d, rs[k].members) {
        assert rs[j] == prev[j];
        if k == |prev| {
          assert FocusOf(d, prev[j].members) in init;
        } else {
          assert rs[k] == prev[k];
        }
      }
    }
  }

  lemma AccountRingFound(d: Direction, a: AccountId, cs: seq<Contact>, n: nat, i: nat)
    requires i < |cs| && WindowQualifies(cs, i)
    ensures AccountRing(d, a, cs, n).Some?
  {
    FirstStartSpec(cs, 0);
  }

  /** Every focal account with a qualifying window gets a ring. */
  lemma {:induction false} PassRingsComplete(d: Direction, fs: seq<AccountId>, lists: map<AccountId, seq<Contact>>, first: nat,
                                               a: AccountId, i: nat)
    requires a in fs && a in lists
    requires i < |lists[a]| && WindowQualifies(lists[a], i)
    ensures var rs := PassRings(d, fs, lists, first);
      exists k :: 0 <= k < |rs| && FocusOf(d, rs[k].members) == a
  {
    var init, last := fs[..|fs| - 1], fs[|fs| - 1];
    PassRingsLast(d, fs, lists, first);
    var prev := PassRings(d, init, lists, first);
    var rs := PassRings(d, fs, lists, first);
    if last == a {
      AccountRingFound(d, a, lists[a], first + |prev|, i);
      assert rs[|prev|] == AccountRing(d, a, lists[a], first + |prev|).value;
    } else {
      var j :| 0 <= j < |fs| && fs[j] == a;
      assert init[j] == a;
      PassRingsComplete(d, init, lists, first, a, i);
      var k :| 0 <= k < |prev| && FocusOf(d, prev[k].members) == a;
      assert rs[k] == prev[k];
    }
  }

  /** The k-th ring of a pass is numbered first + k, carries the pass's
      pattern, has at least 11 members and risk 80 + 0.5 per counterparty. */
  lemma PassRingsShape(d: Direction, fs: seq<AccountId>, lists: map<AccountId, seq<Contact>>, first: nat)
    ensures var rs := PassRings(d, fs, lists, first);
      forall k :: 0 <= k < |rs| ==>
        && rs[k].ringId == RingId(Prefix(d), first + k)
        && rs[k].pattern == PatternOf(d)
        && |rs[k].members| >= Threshold + 1
        && rs[k].risk == 159 + |rs[k].members| >= 170
  {
    PassRingsSound(d, fs, lists, first);
    var rs := PassRings(d, fs, lists, first);
    forall k | 0 <= k < |rs|
      ensures rs[k].ringId == RingId(Prefix(d), first + k) && rs[k].pattern == PatternOf(d)
      ensures |rs[k].members| >= Threshold + 1 && rs[k].risk == 159 + |rs[k].members| >= 170
    {
      var a := FocusOf(d, rs[k].members);
      AccountRingSpec(d, a, if a in lists then lists[a] else [], first + k);
    }
  }

  /** Ring shape of a fan-in pass followed by a fan-out pass numbered on. */
  lemma TwoPassShape(fsIn: seq<AccountId>, mIn: map<AccountId, seq<Contact>>,
                     fsOut: seq<AccountId>, mOut: map<AccountId, seq<Contact>>)
    ensures var inRings := PassRings(FanIn, fsIn, mIn, 1);
      var rs := inRings + PassRings(FanOut, fsOut, mOut, 1 + |inRings|);
      forall k :: 0 <= k < |rs| ==>
        var d := if k < |inRings| then FanIn else FanOut;
        && rs[k].ringId == RingId(Prefix(d), k + 1)
        && rs[k].pattern == PatternOf(d)
        && |rs[k].members| >= Threshold + 1
        && rs[k].risk == 159 + |rs[k].members| >= 170
  {
    var inRings := PassRings(FanIn, fsIn, mIn, 1);
    PassRingsShape(FanIn, fsIn, mIn, 1);
    PassRingsShape(FanOut, fsOut, mOut, 1 + |inRings|);
  }

  /**
   * The whole detector: fan-in rings first, then fan-out rings, numbered
   * 1, 2, ... across both (RING_SMURF_IN_001 ... then RING_SMURF_OUT_ continuing
   * the count), each with at least 10 counterparties and risk at least 85.
   */
  lemma SmurfRingsShape(byTime: seq<Txn>)
    ensures var rs := SmurfRings(byTime);
      var nIn := |PassRings(FanIn, FocalOrder(byTime, FanIn), ContactsMap(byTime, FanIn), 1)|;
      && nIn <= |rs|
      && forall k :: 0 <= k < |rs| ==>
        var d := if k < nIn then FanIn else FanOut;
        && rs[k].ringId == RingId(Prefix(d), k + 1)
        && rs[k].pattern == PatternOf(d)
        && |rs[k].members| >= Threshold + 1
        && rs[k].risk == 159 + |rs[k].members| >= 170
  {
    var fsIn, mIn := FocalOrder(byTime, FanIn), ContactsMap(byTime, FanIn);
    var inRings := PassRings(FanIn, fsIn, mIn, 1);
    TwoPassShape(fsIn, mIn, FocalOrder(byTime, FanOut), ContactsMap(byTime, FanOut));
    assert SmurfRings(byTime) == inRings + PassRings(FanOut, FocalOrder(byTime, FanOut), ContactsMap(byTime, FanOut), 1 + |inRings|);
  }

  /** Over duplicate-free focal accounts holding every account with contacts:
      one ring per account at most, and one for every account with a
      qualifying window. */
  lemma PassPerAccount(d: Direction, fs: seq<AccountId>, m: map<AccountId, seq<Contact>>, first: nat)
    requires NoDup(fs) && Elems(fs) == m.Keys
    ensures var rs := PassRings(d, fs, m, first);
      forall j, k :: 0 <= j < k < |rs| ==> FocusOf(d, rs[j].members) != FocusOf(d, rs[k].members)
    ensures var rs := PassRings(d, fs, m, first);
      forall a, i: nat :: a in m && i < |m[a]| && WindowQualifies(m[a], i) ==>
        exists k :: 0 <= k < |rs| && FocusOf(d, rs[k].members) == a
  {
    PassRingsDistinct(d, fs, m, first);
    forall a, i: nat | a in m && i < |m[a]| && WindowQualifies(m[a], i)
      ensures exists k :: 0 <= k < |PassRings(d, fs, m, first)| && FocusOf(d, PassRings(d, fs, m, first)[k].members) == a
    {
      assert a in Elems(fs);
      PassRingsComplete(d, fs, m, first, a, i);
    }
  }

  /** The grouping holds, for each account with transactions in the pass's
      role, exactly its transactions, and lists each such account once. */
  lemma GroupingSpec(byTime: seq<Txn>, d: Direction, a: AccountId)
    ensures NoDup(FocalOrder(byTime, d)) && Elems(FocalOrder(byTime, d)) == ContactsMap(byTime, d).Keys
    ensures ContactsOf(byTime, d, a) != [] ==> a in ContactsMap(byTime, d) && ContactsMap(byTime, d)[a] == ContactsOf(byTime, d, a)
  {
    DistinctSpec(Focals(byTime, d));
    FocalOrderSnoc(byTime, Txn("", "", "", 0.0, 0), d);
    if a !in Focals(byTime, d) {
      ContactsOfAbsent(byTime, d, a);
    }
  }

  /** No account gets two rings of the same direction. */
  lemma SmurfRingsOnePerAccount(byTime: seq<Txn>, d: Direction, first: nat)
    ensures var rs := PassRings(d, FocalOrder(byTime, d), ContactsMap(byTime, d), first);
      forall j, k :: 0 <= j < k < |rs| ==> FocusOf(d, rs[j].members) != FocusOf(d, rs[k].members)
  {
    GroupingSpec(byTime, d, "");
    PassPerAccount(d, FocalOrder(byTime, d), ContactsMap(byTime, d), first);
  }

  /** An account any of whose 72-hour windows holds 10 distinct counterparties
      gets a ring (completeness of the scan). */
  lemma SmurfRingsComplete(byTime: seq<Txn>, d: Direction, first: nat, a: AccountId, i: nat)
    requires i < |ContactsOf(byTime, d, a)| && WindowQualifies(ContactsOf(byTime, d, a), i)
    ensures var rs := PassRings(d, FocalOrder(byTime, d), ContactsMap(byTime, d), first);
      exists k :: 0 <= k < |rs| && FocusOf(d, rs[k].members) == a
  {
    GroupingSpec(byTime, d, a);
    PassRingsComplete(d, FocalOrder(byTime, d), ContactsMap(byTime, d), first, a, i);
  }

  /** The counterparties of a ring's window lie within 72 hours (inclusive) of
      its start, which is the focal account's earliest qualifying transaction. */
  lemma RingWindowBounds(byTime: seq<Txn>, d: Direction, a: AccountId)
    requires SortedByTime(byTime)
    ensures var cs := ContactsOf(byTime, d, a);
      FirstStart(cs, 0).Some? ==>
        var i := FirstStart(cs, 0).value;
        forall c :: c in cs[i..WindowEnd(cs, i, i)] ==> cs[i].time <= c.time <= cs[i].time + Window
  {
    var cs := ContactsOf(byTime, d, a);
    ContactsOfSorted(byTime, d, a);
    if FirstStart(cs, 0).Some? {
      WindowBounds(cs, FirstStart(cs, 0).value);
    }
  }
}

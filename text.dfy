/**
 * Strings as the detectors use them: Python's ordering of `str` values, the
 * `sorted(...)` of a set of account ids or pattern names, de-duplication in
 * first-appearance order, and the `{n:03d}` suffix of ring ids.
 */
module Text {

  /** The elements of a sequence, as a set. */
  function Elems<T>(xs: seq<T>): set<T> {
    set x | x in xs
  }

  /** No element occurs twice. */
  predicate NoDup<T(==)>(xs: seq<T>) {
    forall i, j :: 0 <= i < j < |xs| ==> xs[i] != xs[j]
  }

  lemma ElemsEmpty<T>(xs: seq<T>)
    ensures Elems(xs) == {} <==> xs == []
  {
    if xs != [] {
      assert xs[0] in Elems(xs);
    }
  }

  lemma ElemsSnoc<T>(xs: seq<T>, x: T)
    ensures Elems(xs + [x]) == Elems(xs) + {x}
  {
    assert forall y :: y in xs + [x] <==> y in xs || y == x;
  }

  lemma NoDupSnoc<T>(xs: seq<T>, x: T)
    requires NoDup(xs) && x !in xs
    ensures NoDup(xs + [x])
  {
  }

  /** Two duplicate-free sequences with no common element concatenate to one. */
  lemma NoDupAppend<T>(a: seq<T>, b: seq<T>)
    requires NoDup(a) && NoDup(b) && Elems(a) * Elems(b) == {}
    ensures NoDup(a + b) && Elems(a + b) == Elems(a) + Elems(b)
  {
    var all := a + b;
    forall i, j | 0 <= i < j < |all| ensures all[i] != all[j] {
      if i < |a| && j >= |a| {
        assert all[i] == a[i] && all[j] == b[j - |a|];
        assert all[i] in Elems(a) && all[j] in Elems(b);
        assert all[j] !in Elems(a) * Elems(b);
      } else if j < |a| {
        assert all[i] == a[i] && all[j] == a[j];
      } else {
        assert all[i] == b[i - |a|] && all[j] == b[j - |a|];
      }
    }
  }

  /** A duplicate-free sequence has as many elements as its set. */
  lemma {:induction false} NoDupCard<T>(xs: seq<T>)
    requires NoDup(xs)
    ensures |Elems(xs)| == |xs|
  {
    if xs != [] {
      var init := xs[..|xs| - 1];
      assert NoDup(init);
      NoDupCard(init);
      assert xs == init + [xs[|xs| - 1]];
      assert xs[|xs| - 1] !in init;
      assert Elems(xs) == Elems(init) + {xs[|xs| - 1]};
    }
  }

  // ---------------------------------------------------------------------------
  // Python's `<` on str: code-point-wise lexicographic, a proper prefix first.
  // ---------------------------------------------------------------------------

  predicate Less(a: string, b: string)
    decreases |a|
  {
    if |a| == 0 then |b| > 0
    else if |b| == 0 then false
    else a[0] < b[0] || (a[0] == b[0] && Less(a[1..], b[1..]))
  }

  lemma {:induction false} LessIrreflexive(a: string)
    ensures !Less(a, a)
  {
    if |a| > 0 {
      LessIrreflexive(a[1..]);
    }
  }

  lemma {:induction false} LessTransitive(a: string, b: string, c: string)
    requires Less(a, b) && Less(b, c)
    ensures Less(a, c)
  {
    if |a| > 0 && a[0] == b[0] && b[0] == c[0] {
      LessTransitive(a[1..], b[1..], c[1..]);
    }
  }

  lemma {:induction false} LessTotal(a: string, b: string)
    ensures Less(a, b) || a == b || Less(b, a)
  {
    if |a| > 0 && |b| > 0 && a[0] == b[0] {
      LessTotal(a[1..], b[1..]);
      if a[1..] == b[1..] {
        assert a == [a[0]] + a[1..] && b == [b[0]] + b[1..];
      }
    }
  }

  /** Non-decreasing in Python's string order. */
  predicate Sorted(s: seq<string>) {
    forall i, j :: 0 <= i < j < |s| ==> !Less(s[j], s[i])
  }

  /** Strictly increasing in Python's string order (hence duplicate-free). */
  predicate StrictlySorted(s: seq<string>) {
    forall i, j :: 0 <= i < j < |s| ==> Less(s[i], s[j])
  }

  // ---------------------------------------------------------------------------
  // sorted(xs) by insertion
  // ---------------------------------------------------------------------------

  function Insert(x: string, s: seq<string>): seq<string> {
    if s == [] then [x]
    else if Less(s[0], x) then [s[0]] + Insert(x, s[1..])
    else [x] + s
  }

  function Sort(s: seq<string>): seq<string> {
    if s == [] then [] else Insert(s[0], Sort(s[1..]))
  }

  lemma {:induction false} InsertPerm(x: string, s: seq<string>)
    ensures multiset(Insert(x, s)) == multiset(s) + multiset{x}
  {
    if s != [] && Less(s[0], x) {
      InsertPerm(x, s[1..]);
      assert s == [s[0]] + s[1..];
    }
  }

  /** x goes in front of a sorted s whose head is not below it. */
  lemma InsertFront(x: string, s: seq<string>)
    requires Sorted(s) && s != [] && !Less(s[0], x)
    ensures Sorted([x] + s)
  {
    LessTotal(s[0], x);
    forall i, j | 0 <= i < j < |[x] + s|
      ensures !Less(([x] + s)[j], ([x] + s)[i])
    {
      if i == 0 && j > 1 {
        var y := s[j - 1];
        if Less(y, x) {
          assert !Less(y, s[0]);
          LessTotal(y, s[0]);
          if y != s[0] {
            LessTransitive(s[0], y, x);
          }
        }
      }
    }
  }

  /** No element of the insertion result lies below a bound that x and all of s respect. */
  lemma InsertAbove(x: string, s: seq<string>, lo: string, k: nat)
    requires !Less(x, lo) && (forall i :: 0 <= i < |s| ==> !Less(s[i], lo))
    requires k < |Insert(x, s)|
    ensures !Less(Insert(x, s)[k], lo)
  {
    var r := Insert(x, s);
    InsertPerm(x, s);
    assert r[k] in multiset(r);
    if r[k] != x {
      assert r[k] in multiset(s);
      var m :| 0 <= m < |s| && s[m] == r[k];
    }
  }

  lemma {:induction false} InsertSorted(x: string, s: seq<string>)
    requires Sorted(s)
    ensures Sorted(Insert(x, s))
  {
    if s != [] && Less(s[0], x) {
      var r := Insert(x, s[1..]);
      InsertSorted(x, s[1..]);
      LessIrreflexive(x);
      if Less(x, s[0]) { LessTransitive(x, s[0], x); }
      forall k | 0 <= k < |r| ensures !Less(r[k], s[0]) {
        InsertAbove(x, s[1..], s[0], k);
      }
      assert Insert(x, s) == [s[0]] + r;
    } else if s != [] {
      InsertFront(x, s);
    }
  }

  lemma InsertSpec(x: string, s: seq<string>)
    requires Sorted(s)
    ensures Sorted(Insert(x, s))
    ensures multiset(Insert(x, s)) == multiset(s) + multiset{x}
  {
    InsertSorted(x, s);
    InsertPerm(x, s);
  }

  lemma {:induction false} SortSpec(s: seq<string>)
    ensures Sorted(Sort(s))
    ensures multiset(Sort(s)) == multiset(s)
  {
    if s != [] {
      SortSpec(s[1..]);
      InsertSpec(s[0], Sort(s[1..]));
      assert s == [s[0]] + s[1..];
    }
  }

  // ---------------------------------------------------------------------------
  // De-duplication in first-appearance order (the key order of a Python dict
  // or the element set of a Python set)
  // ---------------------------------------------------------------------------

  function Distinct<T(==)>(xs: seq<T>): seq<T> {
    if xs == [] then []
    else
      var r := Distinct(xs[..|xs| - 1]);
      if xs[|xs| - 1] in r then r else r + [xs[|xs| - 1]]
  }

  lemma {:induction false} DistinctSpec<T>(xs: seq<T>)
    ensures NoDup(Distinct(xs))
    ensures Elems(Distinct(xs)) == Elems(xs)
    ensures |Distinct(xs)| == |Elems(xs)|
  {
    if xs != [] {
      var init := xs[..|xs| - 1];
      DistinctSpec(init);
      assert xs == init + [xs[|xs| - 1]];
      assert Elems(xs) == Elems(init) + {xs[|xs| - 1]};
    }
    NoDupCard(Distinct(xs));
  }

  /** The `sorted(set(xs))` of Python: the distinct elements in increasing order. */
  function SortedDistinct(xs: seq<string>): seq<string> {
    Sort(Distinct(xs))
  }

  lemma SortedNoDupIsStrict(s: seq<string>)
    requires Sorted(s) && NoDup(s)
    ensures StrictlySorted(s)
  {
    forall i, j | 0 <= i < j < |s|
      ensures Less(s[i], s[j])
    {
      LessTotal(s[i], s[j]);
    }
  }

  lemma {:induction false} NoDupMultiplicity<T>(b: seq<T>, x: T)
    requires NoDup(b)
    ensures multiset(b)[x] <= 1
  {
    if b != [] {
      var init := b[..|b| - 1];
      NoDupMultiplicity(init, x);
      assert b == init + [b[|b| - 1]];
      if x == b[|b| - 1] {
        assert x !in init;
      }
    }
  }

  lemma SameMultisetNoDup<T>(a: seq<T>, b: seq<T>)
    requires multiset(a) == multiset(b) && NoDup(b)
    ensures NoDup(a)
  {
    forall i, j | 0 <= i < j < |a|
      ensures a[i] != a[j]
    {
      if a[i] == a[j] {
        var x := a[i];
        assert a == a[..i] + [x] + a[i + 1..j] + [x] + a[j + 1..];
        assert multiset(a)[x] >= 2;
        NoDupMultiplicity(b, x);
      }
    }
  }

  /** `SortedDistinct(xs)` is the increasing listing of the elements of `xs`. */
  lemma SortedDistinctSpec(xs: seq<string>)
    ensures StrictlySorted(SortedDistinct(xs))
    ensures Elems(SortedDistinct(xs)) == Elems(xs)
    ensures |SortedDistinct(xs)| == |Elems(xs)|
  {
    var d := Distinct(xs);
    DistinctSpec(xs);
    SortSpec(d);
    var s := Sort(d);
    SameMultisetNoDup(s, d);
    SortedNoDupIsStrict(s);
    assert forall x :: x in s <==> x in multiset(s);
    assert forall x :: x in d <==> x in multiset(d);
    assert Elems(s) == Elems(d);
    assert |s| == |multiset(s)| == |multiset(d)| == |d|;
  }

  /** Two increasing listings of the same set are the same sequence. */
  lemma {:induction false} StrictlySortedUnique(a: seq<string>, b: seq<string>)
    requires StrictlySorted(a) && StrictlySorted(b) && Elems(a) == Elems(b)
    ensures a == b
  {
    ElemsEmpty(a);
    ElemsEmpty(b);
    if a != [] && b != [] {
      assert a[0] in Elems(b) && b[0] in Elems(a);
      var i :| 0 <= i < |b| && b[i] == a[0];
      var j :| 0 <= j < |a| && a[j] == b[0];
      if a[0] != b[0] {
        assert i > 0 && j > 0;
        LessTransitive(a[0], b[0], a[0]);
        LessIrreflexive(a[0]);
      }
      forall x | x in Elems(a[1..]) ensures x in Elems(b[1..]) {
        var k :| 1 <= k < |a| && a[k] == x;
        assert x in Elems(b);
        var m :| 0 <= m < |b| && b[m] == x;
        if m == 0 { LessIrreflexive(a[0]); }
      }
      forall x | x in Elems(b[1..]) ensures x in Elems(a[1..]) {
        var k :| 1 <= k < |b| && b[k] == x;
        assert x in Elems(a);
        var m :| 0 <= m < |a| && a[m] == x;
        if m == 0 { LessIrreflexive(b[0]); }
      }
      StrictlySortedUnique(a[1..], b[1..]);
      assert a == [a[0]] + a[1..] && b == [b[0]] + b[1..];
    }
  }

  /**
   * `sorted(list(s))` for a set `s` the detectors built up: the increasing
   * listing of `s` (by `StrictlySortedUnique`, the one `SortedDistinct` gives
   * for any sequence with the elements of `s`).
   */
  method SortedList(s: set<string>) returns (r: seq<string>)
    ensures StrictlySorted(r) && Elems(r) == s && |r| == |s|
  {
    var rest := s;
    var acc: seq<string> := [];
    while rest != {}
      invariant rest !! Elems(acc) && rest + Elems(acc) == s
      invariant NoDup(acc)
      decreases |rest|
    {
      var x :| x in rest;
      acc := acc + [x];
      rest := rest - {x};
    }
    DistinctOfNoDup(acc);
    r := SortedDistinct(acc);
    SortedDistinctSpec(acc);
  }

  lemma {:induction false} DistinctOfNoDup<T>(xs: seq<T>)
    requires NoDup(xs)
    ensures Distinct(xs) == xs
  {
    if xs != [] {
      var init := xs[..|xs| - 1];
      DistinctOfNoDup(init);
    }
  }

  // ---------------------------------------------------------------------------
  // The zero-padded decimal suffix of ring ids: f"{n:03d}"
  // ---------------------------------------------------------------------------

  function DigitChar(d: nat): char
    requires d < 10
  {
    "0123456789"[d]
  }

  /** Decimal digits of n, without leading zeros. */
  function Digits(n: nat): string
    decreases n
  {
    if n < 10 then [DigitChar(n)] else Digits(n / 10) + [DigitChar(n % 10)]
  }

  function Zeros(k: nat): string {
    seq(k, _ => '0')
  }

  /** `format(n, "03d")`: decimal, padded with zeros on the left to width 3. */
  function Pad3(n: nat): string {
    var d := Digits(n);
    if |d| >= 3 then d else Zeros(3 - |d|) + d
  }

  /** The value a string of decimal digits denotes (the inverse of `Pad3`). */
  function DecimalValue(s: string): nat {
    if s == [] then 0
    else
      var c := s[|s| - 1];
      DecimalValue(s[..|s| - 1]) * 10 + (if '0' <= c <= '9' then (c - '0') as nat else 0)
  }

  lemma {:induction false} DigitsRoundTrip(n: nat)
    ensures DecimalValue(Digits(n)) == n
    decreases n
  {
    if n >= 10 {
      DigitsRoundTrip(n / 10);
      assert Digits(n)[..|Digits(n)| - 1] == Digits(n / 10);
    }
  }

  lemma {:induction false} ZerosPrefix(k: nat, d: string)
    ensures DecimalValue(Zeros(k) + d) == DecimalValue(d)
    decreases |d|
  {
    if d == [] {
      ZerosValue(k);
      assert Zeros(k) + d == Zeros(k);
    } else {
      var init := d[..|d| - 1];
      ZerosPrefix(k, init);
      assert (Zeros(k) + d)[..|Zeros(k) + d| - 1] == Zeros(k) + init;
    }
  }

  lemma {:induction false} ZerosValue(k: nat)
    ensures DecimalValue(Zeros(k)) == 0
  {
    if k > 0 {
      ZerosValue(k - 1);
      assert Zeros(k)[..k - 1] == Zeros(k - 1);
    }
  }

  /** Reading back a padded suffix gives the number: distinct counters give distinct suffixes. */
  lemma Pad3RoundTrip(n: nat)
    ensures DecimalValue(Pad3(n)) == n
    ensures |Pad3(n)| >= 3
  {
    DigitsRoundTrip(n);
    var d := Digits(n);
    if |d| < 3 {
      ZerosPrefix(3 - |d|, d);
    }
  }

  /** A ring id: a detector's prefix followed by the padded counter. */
  function RingId(prefix: string, n: nat): string {
    prefix + Pad3(n)
  }

  lemma RingIdInjective(prefix: string, n: nat, m: nat)
    requires RingId(prefix, n) == RingId(prefix, m)
    ensures n == m
  {
    assert Pad3(n) == RingId(prefix, n)[|prefix|..];
    assert Pad3(m) == RingId(prefix, m)[|prefix|..];
    Pad3RoundTrip(n);
    Pad3RoundTrip(m);
  }
}

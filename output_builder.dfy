/**
 * The report formatter `build_output_json` (backend/output_builder.py): a
 * field-by-field copy of the scored accounts and the fraud rings, with their
 * scores turned into floats, and a summary restricted to four keys, each
 * defaulted when the caller left it out.
 */
module OutputBuilder {
  import opened Wrappers
  import opened Records
  import opened Scoring

  /** A JSON number as Python holds it: an `int` or a `float`. */
  datatype Number = Int(i: int) | Float(r: real)

  /** One entry of `suspicious_accounts` in the report. */
  datatype AccountOut = AccountOut(accountId: AccountId, suspicionScore: real, detectedPatterns: seq<string>, ringId: Option<string>)

  /** One entry of `fraud_rings` in the report. */
  datatype RingOut = RingOut(ringId: string, memberAccounts: seq<AccountId>, patternType: string, riskScore: real)

  datatype Report = Report(suspiciousAccounts: seq<AccountOut>, fraudRings: seq<RingOut>, summary: map<string, Number>)

  const TotalKey: string := "total_accounts_analyzed"
  const FlaggedKey: string := "suspicious_accounts_flagged"
  const RingsKey: string := "fraud_rings_detected"
  const TimeKey: string := "processing_time_seconds"

  const SummaryKeys: set<string> := {TotalKey, FlaggedKey, RingsKey, TimeKey}

  // ---------------------------------------------------------------------------
  // Fields
  // ---------------------------------------------------------------------------

  /** `float(...)` of a score kept in halves. */
  function AsFloat(h: Halves): real {
    h as real / 2.0
  }

  /** The halves a float score stands for. */
  function HalvesOf(x: real): Halves {
    (x * 2.0).Floor
  }

  lemma AsFloatLossless(h: Halves)
    ensures HalvesOf(AsFloat(h)) == h
  {
    assert AsFloat(h) * 2.0 == h as real;
  }

  function AccountEntry(a: ScoredAccount): AccountOut {
    AccountOut(a.accountId, AsFloat(a.score), a.patterns, a.ringId)
  }

  function RingEntry(r: Ring): RingOut {
    RingOut(r.ringId, r.members, r.pattern, AsFloat(r.risk))
  }

  /** The scored account a report entry was copied from. */
  function AccountBack(o: AccountOut): ScoredAccount {
    ScoredAccount(o.accountId, HalvesOf(o.suspicionScore), o.detectedPatterns, o.ringId)
  }

  /** The ring a report entry was copied from. */
  function RingBack(o: RingOut): Ring {
    Ring(o.ringId, o.memberAccounts, o.patternType, HalvesOf(o.riskScore))
  }

  function AccountsBack(os: seq<AccountOut>): seq<ScoredAccount> {
    seq(|os|, k requires 0 <= k < |os| => AccountBack(os[k]))
  }

  function RingsBack(os: seq<RingOut>): seq<Ring> {
    seq(|os|, k requires 0 <= k < |os| => RingBack(os[k]))
  }

  /** An account entry holds every field of the scored account it was made from. */
  lemma AccountEntryLossless(a: ScoredAccount)
    ensures AccountBack(AccountEntry(a)) == a
  {
    AsFloatLossless(a.score);
  }

  /** A ring entry holds every field of the ring it was made from. */
  lemma RingEntryLossless(r: Ring)
    ensures RingBack(RingEntry(r)) == r
  {
    AsFloatLossless(r.risk);
  }

  // ---------------------------------------------------------------------------
  // Summary
  // ---------------------------------------------------------------------------

  /** `summary.get(key, default)`. */
  function Get(m: map<string, Number>, key: string, default: Number): Number {
    if key in m then m[key] else default
  }

  function SummaryOut(summary: map<string, Number>): map<string, Number> {
    map[TotalKey := Get(summary, TotalKey, Int(0)),
        FlaggedKey := Get(summary, FlaggedKey, Int(0)),
        RingsKey := Get(summary, RingsKey, Int(0)),
        TimeKey := Get(summary, TimeKey, Float(0.0))]
  }

  /** The report summary has exactly the four keys: any other key of the
      input is dropped. Each is copied when present; a missing count becomes
      `0` and a missing time `0.0`. */
  lemma SummaryOutSpec(summary: map<string, Number>)
    ensures SummaryOut(summary).Keys == SummaryKeys
    ensures forall k :: k in SummaryKeys && k in summary ==> SummaryOut(summary)[k] == summary[k]
    ensures forall k :: k in SummaryKeys - {TimeKey} && k !in summary ==> SummaryOut(summary)[k] == Int(0)
    ensures TimeKey !in summary ==> SummaryOut(summary)[TimeKey] == Float(0.0)
    ensures forall k :: k in summary && k !in SummaryKeys ==> k !in SummaryOut(summary)
  {
  }

  // ---------------------------------------------------------------------------
  // The formatter
  // ---------------------------------------------------------------------------

  /**
   * `build_output_json(suspicious_accounts, fraud_rings, summary)`. Both lists
   * come out with the same length and order as they went in, every entry a
   * copy of its input's fields.
   */
  method BuildOutputJson(accounts: seq<ScoredAccount>, rings: seq<Ring>, summary: map<string, Number>) returns (out: Report)
    ensures |out.suspiciousAccounts| == |accounts|
    ensures forall k :: 0 <= k < |accounts| ==> out.suspiciousAccounts[k] == AccountEntry(accounts[k])
    ensures AccountsBack(out.suspiciousAccounts) == accounts
    ensures |out.fraudRings| == |rings|
    ensures forall k :: 0 <= k < |rings| ==> out.fraudRings[k] == RingEntry(rings[k])
    ensures RingsBack(out.fraudRings) == rings
    ensures out.summary == SummaryOut(summary)
  {
    var accountsOut: seq<AccountOut> := [];
    var i := 0;
    while i < |accounts|
      invariant 0 <= i <= |accounts|
      invariant |accountsOut| == i
      invariant forall k :: 0 <= k < i ==> accountsOut[k] == AccountEntry(accounts[k])
      invariant AccountsBack(accountsOut) == accounts[..i]
    {
      AccountEntryLossless(accounts[i]);
      accountsOut := accountsOut + [AccountEntry(accounts[i])];
      i := i + 1;
    }
    var ringsOut: seq<RingOut> := [];
    i := 0;
    while i < |rings|
      invariant 0 <= i <= |rings|
      invariant |ringsOut| == i
      invariant forall k :: 0 <= k < i ==> ringsOut[k] == RingEntry(rings[k])
      invariant RingsBack(ringsOut) == rings[..i]
    {
      RingEntryLossless(rings[i]);
      ringsOut := ringsOut + [RingEntry(rings[i])];
      i := i + 1;
    }
    out := Report(accountsOut, ringsOut, SummaryOut(summary));
  }
}

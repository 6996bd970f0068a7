/**
 * The values that flow through the detection engine: typed transactions (what
 * the CSV reader hands over), fraud rings (what each detector emits) and the
 * pattern names the detectors stamp on their rings.
 */
module Records {

  type AccountId = string

  /**
   * One CSV row after parsing. `timestamp` is in seconds on any fixed epoch;
   * `amount` is carried onto graph edges and read by no decision.
   */
  datatype Txn = Txn(txId: string, sender: AccountId, receiver: AccountId, amount: real, timestamp: int)

  /**
   * Every score and risk the engine computes is a multiple of 0.5, so each is
   * kept as the integer number of halves: the value `h` stands for `h / 2`.
   * Python's `round(x, 2)` leaves such values unchanged.
   */
  type Halves = int

  /** A detected fraud ring, as the dictionaries the detectors build. */
  datatype Ring = Ring(ringId: string, members: seq<AccountId>, pattern: string, risk: Halves)

  const PatternCycle: string := "cycle"
  const PatternFanIn: string := "smurfing_fan_in"
  const PatternFanOut: string := "smurfing_fan_out"
  const PatternShell: string := "layered_shell"
}

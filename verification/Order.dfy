/** The order every position kind reports: by containment. */
module Order {
  /** Compare's answer for two positions with no order (math.MaxInt); it is
      greater than zero like the answer "after". */
  const INCOMPARABLE: int := 0x7FFF_FFFF_FFFF_FFFF

  /** Compare decided by containment in each direction. */
  function ByContainment(fwd: bool, rev: bool): int {
    if fwd && rev then 0 else if fwd then 1 else if rev then -1 else INCOMPARABLE
  }
}

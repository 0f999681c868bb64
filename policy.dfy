/**
  The timing and milestone rules of the habit-staking ledger: the clock constants,
  the check-in window classification and the deterministic identifier of a
  streak credential. Everything here is a pure function of its arguments.
 */
module ChallengePolicy {

  /** An account, read as the unsigned integer it denotes (an address is 160 bits wide). */
  const ADDRESS_LIMIT: nat := 0x1_0000_0000_0000_0000_0000_0000_0000_0000_0000_0000
  type Address = a: nat | a < ADDRESS_LIMIT

  /** The all-zero address, the `from` of a credential mint. */
  const ZERO_ADDRESS: Address := 0

  /** Seconds of the block clock. */
  const HOUR: nat := 60 * 60
  const DAY: nat := 24 * HOUR

  /** Earliest and latest admissible gap between two check-ins (both inclusive). */
  const MIN_WINDOW: nat := 24 * HOUR
  const MAX_WINDOW: nat := 48 * HOUR

  /** Every MILESTONE_INTERVAL-th consecutive check-in earns a credential. */
  const MILESTONE_INTERVAL: nat := 3

  /** How a check-in at `now` relates to the last anchor of its window. */
  datatype Verdict = TooEarly | OnTime | Forfeit

  /**
    Window policy: a gap shorter than MIN_WINDOW is too early, a gap in the closed
    interval [MIN_WINDOW, MAX_WINDOW] is on time, a longer one forfeits. A clock
    reading before the anchor (a negative gap) is too early as well.
   */
  function Classify(last: nat, now: nat): Verdict
  {
    var elapsed: int := now - last;
    if elapsed < MIN_WINDOW then TooEarly
    else if elapsed <= MAX_WINDOW then OnTime
    else Forfeit
  }

  /** Orders the verdicts by how late they are. */
  function Lateness(v: Verdict): (n: nat)
    ensures n <= 2
    ensures n == 0 <==> v == TooEarly
    ensures n == 2 <==> v == Forfeit
  {
    match v
    case TooEarly => 0
    case OnTime => 1
    case Forfeit => 2
  }

  /** Waiting longer never makes a check-in earlier: the verdict only moves towards Forfeit. */
  lemma ClassifyMonotone(last: nat, now1: nat, now2: nat)
    requires now1 <= now2
    ensures Lateness(Classify(last, now1)) <= Lateness(Classify(last, now2))
  {
  }

  /** Both ends of the on-time window are inclusive; one second outside either end is not on time. */
  lemma ClassifyBoundaries(last: nat)
    ensures last + MIN_WINDOW >= 1 ==> Classify(last, last + MIN_WINDOW - 1) == TooEarly
    ensures Classify(last, last + MIN_WINDOW) == OnTime
    ensures Classify(last, last + MAX_WINDOW) == OnTime
    ensures Classify(last, last + MAX_WINDOW + 1) == Forfeit
  {
  }

  /** The three gaps the ledger's tests use: 25 hours, 5 minutes and 49 hours. */
  lemma ClassifyTestedGaps(last: nat)
    ensures Classify(last, last + 25 * HOUR) == OnTime
    ensures Classify(last, last + 5 * 60) == TooEarly
    ensures Classify(last, last + 49 * HOUR) == Forfeit
  {
  }

  /** A streak value that earns a credential. */
  predicate IsMilestone(streak: nat)
  {
    streak % MILESTONE_INTERVAL == 0
  }

  /**
    The identifier of the credential earned at `streak`: the participant's address,
    read as an integer, plus the streak. It needs no shared counter, and anybody
    can recompute it; it does not depend on which of the participant's challenges
    the streak belongs to.
   */
  function MilestoneId(participant: Address, streak: nat): nat
  {
    participant + streak
  }

  /**
    Across participants the scheme is not injective: two addresses three apart
    produce the same identifier at streaks 6 and 3.
   */
  lemma MilestoneIdsCollideAcrossParticipants(a: Address)
    requires a + 3 < ADDRESS_LIMIT
    ensures IsMilestone(3) && IsMilestone(6)
    ensures MilestoneId(a, 6) == MilestoneId(a + 3, 3)
  {
  }
}

/**
  The habit-staking ledger as a state machine over values: one challenge record
  per participant, the forfeited pool, the collateral token (balances, allowances
  to the ledger, the ledger's own custody) and the streak credentials minted so far.
  Every entry point is a function from the state before the call to its outcome:
  a revert, which leaves the state as it was, or a new state and the events emitted
  by the ledger and by the credential contract (the collateral token's own events
  are not listed).
 */
module HabitLedger {
  import opened ChallengePolicy
  import opened TokenBalances

  /** The fixed collateral of every challenge, in the token's smallest unit (0.005 of a unit of 18 decimals). */
  const STAKE_AMOUNT: nat := 5_000_000_000_000_000

  /** Revert reasons. */
  const TOO_EARLY: string := "Too early to check in"
  const INSUFFICIENT_ALLOWANCE: string := "ERC20InsufficientAllowance"
  const INSUFFICIENT_BALANCE: string := "ERC20InsufficientBalance"

  /** The 32-byte commitment to a habit description; the ledger only stores and echoes it. */
  const HASH_LIMIT: nat := 0x1_0000_0000_0000_0000_0000_0000_0000_0000_0000_0000_0000_0000_0000_0000_0000_0000
  type HabitHash = h: nat | h < HASH_LIMIT

  /** One participant's challenge, field for field as the ledger's public getter returns it. */
  datatype Challenge = Challenge(
    isActive: bool,
    streak: nat,
    stakeAmount: nat,
    habitHash: HabitHash,
    startTime: nat,
    duration: nat,
    lastCheckInTime: nat)

  /** What the getter returns for a participant who never staked. */
  const EMPTY_RECORD: Challenge := Challenge(false, 0, 0, 0, 0, 0, 0)

  /** Events of the ledger, and the credential contract's mint `Transfer` from the zero address. */
  datatype Event =
    | ChallengeStarted(user: Address, habitHash: HabitHash, duration: nat, stakeAmount: nat)
    | CheckedIn(user: Address, streak: nat)
    | ChallengeFailed(user: Address, habitHash: HabitHash)
    | RewardClaimed(user: Address, amount: nat)
    | Transfer(from: Address, to: Address, tokenId: nat)
    | IssuanceFailed(user: Address, tokenId: nat)

  /**
    The whole state: the block clock, the challenge records, the forfeited pool, the
    token balances of external accounts, their allowances to the ledger, the ledger's
    own token balance (`custody`, which holds the open stakes and the pool), the
    token supply, and the owner of every credential minted so far.
   */
  datatype Ledger = Ledger(
    now: nat,
    activeChallenges: map<Address, Challenge>,
    forfeitedPool: nat,
    custody: nat,
    balanceOf: map<Address, nat>,
    allowance: map<Address, nat>,
    totalSupply: nat,
    credentials: map<nat, Address>)

  /** A call either reverts with a reason (and changes nothing) or yields a new state and its events. */
  datatype Outcome = Reverted(reason: string) | Success(next: Ledger, events: seq<Event>)

  /** A freshly deployed ledger and token at clock reading `now`. */
  function Genesis(now: nat): Ledger
  {
    Ledger(now, map[], 0, 0, map[], map[], 0, map[])
  }

  /**
    The public getter `activeChallenges(a)`: the stored record, or the all-zero
    record for a participant who never staked. It reports an open challenge
    exactly when the participant has one.
   */
  function RecordOf(s: Ledger, a: Address): (c: Challenge)
    ensures a in s.activeChallenges ==> c == s.activeChallenges[a]
    ensures a !in s.activeChallenges ==> c == EMPTY_RECORD
    ensures c.isActive <==> HasActive(s, a)
  {
    if a in s.activeChallenges then s.activeChallenges[a] else EMPTY_RECORD
  }

  predicate HasActive(s: Ledger, a: Address)
  {
    a in s.activeChallenges && s.activeChallenges[a].isActive
  }

  /** The participants with an open challenge. */
  function ActiveSet(m: map<Address, Challenge>): set<Address>
  {
    set a | a in m && m[a].isActive
  }

  /** Collateral locked by open challenges: one stake per participant with an open challenge. */
  function Locked(m: map<Address, Challenge>): nat
  {
    STAKE_AMOUNT * |ActiveSet(m)|
  }

  /** What every stored record satisfies at clock reading `now`. */
  predicate WellFormed(c: Challenge, now: nat)
  {
    c.stakeAmount == STAKE_AMOUNT && c.startTime <= c.lastCheckInTime <= now
  }

  /** Every milestone a participant's streak has passed has its credential minted (to somebody). */
  predicate MilestonesIssued(s: Ledger)
  {
    forall a, k | a in s.activeChallenges && 0 < k <= s.activeChallenges[a].streak && IsMilestone(k) ::
      MilestoneId(a, k) in s.credentials
  }

  /**
    The ledger invariant: tokens are conserved, the ledger's custody is exactly the
    open stakes plus the pool, records are well formed and milestones are issued.
   */
  ghost predicate Invariant(s: Ledger)
  {
    TokensConserved(s) && CustodyBacked(s) && RecordsWellFormed(s) && MilestonesIssued(s)
  }

  /** No token is created or destroyed outside `mint`. */
  ghost predicate TokensConserved(s: Ledger)
  {
    Total(s.balanceOf) + s.custody == s.totalSupply
  }

  /** The ledger's token balance is exactly the open stakes plus the pool. */
  predicate CustodyBacked(s: Ledger)
  {
    s.custody == Locked(s.activeChallenges) + s.forfeitedPool
  }

  predicate RecordsWellFormed(s: Ledger)
  {
    forall a | a in s.activeChallenges :: WellFormed(s.activeChallenges[a], s.now)
  }

  // ----- entry points -----

  /**
    `stake(habitHash, durationDays)` by `user`: pull STAKE_AMOUNT from the user
    (spending the allowance), and open a record anchored at the current time.
   */
  function Stake(s: Ledger, user: Address, habitHash: HabitHash, durationDays: nat): Outcome
    requires !HasActive(s, user)
  {
    if AmountOf(s.allowance, user) < STAKE_AMOUNT then Reverted(INSUFFICIENT_ALLOWANCE)
    else if AmountOf(s.balanceOf, user) < STAKE_AMOUNT then Reverted(INSUFFICIENT_BALANCE)
    else
      var record := Challenge(true, 0, STAKE_AMOUNT, habitHash, s.now, durationDays, s.now);
      Success(
        s.(activeChallenges := s.activeChallenges[user := record],
           balanceOf := s.balanceOf[user := AmountOf(s.balanceOf, user) - STAKE_AMOUNT],
           allowance := s.allowance[user := AmountOf(s.allowance, user) - STAKE_AMOUNT],
           custody := s.custody + STAKE_AMOUNT),
        [ChallengeStarted(user, habitHash, durationDays, STAKE_AMOUNT)])
  }

  /**
    `checkIn()` by `user`: too early reverts; on time extends the streak, re-anchors
    the window and, at a milestone, mints the credential unless its identifier is
    already taken; too late closes the challenge and moves its stake to the pool.
   */
  function CheckIn(s: Ledger, user: Address): Outcome
    requires HasActive(s, user)
  {
    var c := s.activeChallenges[user];
    match Classify(c.lastCheckInTime, s.now)
    case TooEarly => Reverted(TOO_EARLY)
    case OnTime =>
      var streak := c.streak + 1;
      var s1 := s.(activeChallenges := s.activeChallenges[user := c.(streak := streak, lastCheckInTime := s.now)]);
      if !IsMilestone(streak) then
        Success(s1, [CheckedIn(user, streak)])
      else
        var id := MilestoneId(user, streak);
        if id in s.credentials then
          Success(s1, [IssuanceFailed(user, id), CheckedIn(user, streak)])
        else
          Success(s1.(credentials := s.credentials[id := user]), [Transfer(ZERO_ADDRESS, user, id), CheckedIn(user, streak)])
    case Forfeit =>
      Success(
        s.(activeChallenges := s.activeChallenges[user := c.(isActive := false)],
           forfeitedPool := s.forfeitedPool + c.stakeAmount),
        [ChallengeFailed(user, c.habitHash)])
  }

  /** The challenge's declared duration has fully elapsed since it started. */
  predicate ClaimDue(s: Ledger, user: Address)
    requires user in s.activeChallenges
  {
    var c := s.activeChallenges[user];
    s.now >= c.startTime + c.duration * DAY
  }

  /**
    `claimReward()` by `user`: close the challenge and return its stake from custody.
    Check-ins are not consulted; only the elapsed duration matters.
   */
  function ClaimReward(s: Ledger, user: Address): Outcome
    requires HasActive(s, user) && ClaimDue(s, user)
  {
    var c := s.activeChallenges[user];
    if s.custody < c.stakeAmount then Reverted(INSUFFICIENT_BALANCE)
    else
      Success(
        s.(activeChallenges := s.activeChallenges[user := c.(isActive := false)],
           custody := s.custody - c.stakeAmount,
           balanceOf := s.balanceOf[user := AmountOf(s.balanceOf, user) + c.stakeAmount]),
        [RewardClaimed(user, c.stakeAmount)])
  }

  /** The collateral token's `mint(to, amount)`. */
  function Mint(s: Ledger, to: Address, amount: nat): Ledger
  {
    s.(balanceOf := s.balanceOf[to := AmountOf(s.balanceOf, to) + amount],
       totalSupply := s.totalSupply + amount)
  }

  /** The collateral token's `approve(ledger, amount)` by `owner`. */
  function Approve(s: Ledger, owner: Address, amount: nat): Ledger
  {
    s.(allowance := s.allowance[owner := amount])
  }

  /** The test clock's `time.increase(seconds)`. */
  function IncreaseTime(s: Ledger, seconds: nat): Ledger
  {
    s.(now := s.now + seconds)
  }

  // ----- arbitrary sequences of calls -----

  /** Every externally triggered transition. */
  datatype Op =
    | StakeOp(user: Address, habitHash: HabitHash, durationDays: nat)
    | CheckInOp(user: Address)
    | ClaimOp(user: Address)
    | MintOp(to: Address, amount: nat)
    | ApproveOp(owner: Address, amount: nat)
    | IncreaseTimeOp(seconds: nat)

  /** The caller obligations of each entry point. */
  predicate Admissible(s: Ledger, op: Op)
  {
    match op
    case StakeOp(u, _, _) => !HasActive(s, u)
    case CheckInOp(u) => HasActive(s, u)
    case ClaimOp(u) => HasActive(s, u) && ClaimDue(s, u)
    case _ => true
  }

  function Apply(s: Ledger, op: Op): Outcome
    requires Admissible(s, op)
  {
    match op
    case StakeOp(u, h, d) => Stake(s, u, h, d)
    case CheckInOp(u) => CheckIn(s, u)
    case ClaimOp(u) => ClaimReward(s, u)
    case MintOp(to, amount) => Success(Mint(s, to, amount), [])
    case ApproveOp(owner, amount) => Success(Approve(s, owner, amount), [])
    case IncreaseTimeOp(d) => Success(IncreaseTime(s, d), [])
  }

  /** The state after a call; a reverted call leaves the state untouched. */
  function Next(s: Ledger, op: Op): Ledger
    requires Admissible(s, op)
  {
    match Apply(s, op)
    case Reverted(_) => s
    case Success(n, _) => n
  }

  predicate RunAdmissible(s: Ledger, ops: seq<Op>)
    decreases |ops|
  {
    ops == [] || (Admissible(s, ops[0]) && RunAdmissible(Next(s, ops[0]), ops[1..]))
  }

  /** The state after a sequence of calls, one after the other. */
  function Run(s: Ledger, ops: seq<Op>): Ledger
    requires RunAdmissible(s, ops)
    decreases |ops|
  {
    if ops == [] then s else Run(Next(s, ops[0]), ops[1..])
  }
}

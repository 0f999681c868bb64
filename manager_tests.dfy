/**
  The ledger's test cases as client code: each method deploys a fresh manager with
  the shared fixture, drives it through the calls of one test, and returns what
  that test observes. The postconditions are the test's expectations, proved from
  the methods' specifications alone.
 */
module HabitManagerTests {
  import opened ChallengePolicy
  import opened TokenBalances
  import opened HabitLedger
  import opened LedgerProperties
  import opened HabitManagerContract

  /** The challenge length the tests stake for, in days. */
  const DURATION: nat := 7

  /**
    The fixture: deploy, then mint STAKE_AMOUNT to each of two users and let each
    approve the ledger for STAKE_AMOUNT.
   */
  method DeployFixture(user1: Address, user2: Address, startTime: nat) returns (m: HabitManager)
    requires user1 != user2
    ensures fresh(m) && m.Valid()
    ensures m.now == startTime && m.activeChallenges == map[] && m.forfeitedPool == 0 && m.credentials == map[]
    ensures AmountOf(m.balanceOf, user1) == STAKE_AMOUNT && AmountOf(m.allowance, user1) == STAKE_AMOUNT
    ensures AmountOf(m.balanceOf, user2) == STAKE_AMOUNT && AmountOf(m.allowance, user2) == STAKE_AMOUNT
    ensures m.custody == 0 && m.totalSupply == 2 * STAKE_AMOUNT
  {
    m := new HabitManager(startTime);
    m.Mint(user1, STAKE_AMOUNT);
    m.Mint(user2, STAKE_AMOUNT);
    m.Approve(user1, STAKE_AMOUNT);
    m.Approve(user2, STAKE_AMOUNT);
  }

  /** Staking emits ChallengeStarted and stores an open record with the given hash. */
  method StakeStartsHabit(user1: Address, user2: Address, h: HabitHash, t0: nat)
    returns (receipt: Receipt, challenge: Challenge, balance: nat)
    requires user1 != user2
    ensures receipt == Emitted([ChallengeStarted(user1, h, DURATION, STAKE_AMOUNT)])
    ensures challenge.isActive && challenge.habitHash == h && challenge.streak == 0
    ensures balance == 0
  {
    var m := DeployFixture(user1, user2, t0);
    receipt := m.Stake(user1, h, DURATION);
    challenge := m.ChallengeOf(user1);
    balance := AmountOf(m.balanceOf, user1);
  }

  /** A check-in 25 hours after staking is on time: the streak becomes 1. */
  method CheckInWithinWindow(user1: Address, user2: Address, h: HabitHash, t0: nat)
    returns (receipt: Receipt, challenge: Challenge)
    requires user1 != user2
    ensures receipt == Emitted([CheckedIn(user1, 1)])
    ensures challenge.isActive && challenge.streak == 1 && challenge.lastCheckInTime == t0 + 25 * HOUR
  {
    var m := DeployFixture(user1, user2, t0);
    var _ := m.Stake(user1, h, DURATION);
    m.IncreaseTime(25 * HOUR);
    receipt := m.CheckIn(user1);
    challenge := m.ChallengeOf(user1);
  }

  /** A check-in 5 minutes after staking reverts, and the record and pool stay as they were. */
  method CheckInTooEarly(user1: Address, user2: Address, h: HabitHash, t0: nat)
    returns (receipt: Receipt, challenge: Challenge, pool: nat, balance: nat)
    requires user1 != user2
    ensures receipt == RevertedWith("Too early to check in")
    ensures challenge == Challenge(true, 0, STAKE_AMOUNT, h, t0, DURATION, t0)
    ensures pool == 0 && balance == 0
  {
    var m := DeployFixture(user1, user2, t0);
    var _ := m.Stake(user1, h, DURATION);
    m.IncreaseTime(5 * 60);
    receipt := m.CheckIn(user1);
    challenge := m.ChallengeOf(user1);
    pool := m.forfeitedPool;
    balance := AmountOf(m.balanceOf, user1);
  }

  /**
    A check-in 49 hours after staking forfeits: ChallengeFailed is emitted, the
    challenge closes and the pool goes from 0 to one stake; the user's tokens,
    the locked stakes and the pool still add up to what was minted to the user.
   */
  method CheckInTooLate(user1: Address, user2: Address, h: HabitHash, t0: nat)
    returns (receipt: Receipt, challenge: Challenge, pool: nat, balance: nat, locked: nat)
    requires user1 != user2
    ensures receipt == Emitted([ChallengeFailed(user1, h)])
    ensures !challenge.isActive && challenge.streak == 0
    ensures pool == STAKE_AMOUNT
    ensures balance + locked + pool == STAKE_AMOUNT
  {
    var m := DeployFixture(user1, user2, t0);
    var _ := m.Stake(user1, h, DURATION);
    m.IncreaseTime(49 * HOUR);
    receipt := m.CheckIn(user1);
    challenge := m.ChallengeOf(user1);
    pool := m.forfeitedPool;
    balance := AmountOf(m.balanceOf, user1);
    assert ActiveSet(m.activeChallenges) == {};
    locked := Locked(m.activeChallenges);
  }

  /**
    One round of the milestone test: advance the clock 25 hours and check in.
    The streak grows by one, the window is re-anchored, and the credential for the
    new streak is minted to the user exactly when the streak is a milestone whose
    identifier is free; balances, custody and pool are untouched.
   */
  method WaitAndCheckIn(m: HabitManager, user: Address) returns (receipt: Receipt)
    requires m.Valid() && HasActive(m.State(), user) && m.activeChallenges[user].lastCheckInTime == m.now
    modifies m
    ensures m.Valid() && HasActive(m.State(), user)
    ensures m.now == old(m.now) + 25 * HOUR
    ensures m.forfeitedPool == old(m.forfeitedPool) && m.custody == old(m.custody) && m.totalSupply == old(m.totalSupply)
    ensures m.balanceOf == old(m.balanceOf) && m.allowance == old(m.allowance)
    ensures var c, k := old(m.activeChallenges[user]), old(m.activeChallenges[user].streak) + 1;
      var id := MilestoneId(user, k);
      && m.activeChallenges == old(m.activeChallenges)[user := c.(streak := k, lastCheckInTime := m.now)]
      && m.credentials == (if IsMilestone(k) && id !in old(m.credentials) then old(m.credentials)[id := user] else old(m.credentials))
      && receipt == Emitted(if !IsMilestone(k) then [CheckedIn(user, k)]
                            else if id in old(m.credentials) then [IssuanceFailed(user, id), CheckedIn(user, k)]
                            else [Transfer(ZERO_ADDRESS, user, id), CheckedIn(user, k)])
  {
    ghost var before := m.State();
    DailyCheckIn(before, user);
    m.IncreaseTime(25 * HOUR);
    receipt := m.CheckIn(user);
  }

  /**
    Three rounds, each 25 hours after the previous check-in, from a fresh
    challenge: the streak reaches the first milestone. The third check-in mints
    `user + 3` to the user when that identifier is free and emits IssuanceFailed
    when it is already taken; nothing else but the clock and the record changes.
   */
  method CheckInToFirstMilestone(m: HabitManager, user: Address) returns (lastReceipt: Receipt)
    requires m.Valid() && HasActive(m.State(), user)
    requires m.activeChallenges[user].streak == 0 && m.activeChallenges[user].lastCheckInTime == m.now
    modifies m
    ensures m.Valid() && HasActive(m.State(), user)
    ensures m.now == old(m.now) + MILESTONE_INTERVAL * 25 * HOUR
    ensures m.forfeitedPool == old(m.forfeitedPool) && m.custody == old(m.custody) && m.totalSupply == old(m.totalSupply)
    ensures m.balanceOf == old(m.balanceOf) && m.allowance == old(m.allowance)
    ensures m.activeChallenges == old(m.activeChallenges)[user := old(m.activeChallenges[user]).(streak := MILESTONE_INTERVAL, lastCheckInTime := m.now)]
    ensures var id := MilestoneId(user, MILESTONE_INTERVAL);
      && m.credentials == (if id in old(m.credentials) then old(m.credentials) else old(m.credentials)[id := user])
      && lastReceipt == Emitted([if id in old(m.credentials) then IssuanceFailed(user, id) else Transfer(ZERO_ADDRESS, user, id),
                                 CheckedIn(user, MILESTONE_INTERVAL)])
  {
    ghost var before := m.State();
    ghost var id := MilestoneId(user, MILESTONE_INTERVAL);
    ghost var record := m.activeChallenges[user];
    lastReceipt := Emitted([]);
    for i := 1 to MILESTONE_INTERVAL + 1
      invariant m.Valid() && HasActive(m.State(), user)
      invariant m.now == before.now + (i - 1) * 25 * HOUR
      invariant m.activeChallenges == before.activeChallenges[user := record.(streak := i - 1, lastCheckInTime := m.now)]
      invariant m.credentials == if i <= MILESTONE_INTERVAL || id in before.credentials then before.credentials else before.credentials[id := user]
      invariant m.forfeitedPool == before.forfeitedPool && m.custody == before.custody && m.totalSupply == before.totalSupply
      invariant m.balanceOf == before.balanceOf && m.allowance == before.allowance
      invariant i == MILESTONE_INTERVAL + 1 ==>
        lastReceipt == Emitted([if id in before.credentials then IssuanceFailed(user, id) else Transfer(ZERO_ADDRESS, user, id),
                                CheckedIn(user, MILESTONE_INTERVAL)])
    {
      lastReceipt := WaitAndCheckIn(m, user);
      if i < MILESTONE_INTERVAL {
        assert !IsMilestone(i);
      } else {
        assert IsMilestone(i);
      }
    }
  }

  /**
    Three check-ins, each 25 hours after the previous one: the streak reaches 3,
    and the third check-in mints credential `user1 + 3` to user1.
   */
  method MilestoneAwardsCredential(user1: Address, user2: Address, h: HabitHash, t0: nat)
    returns (lastReceipt: Receipt, challenge: Challenge, owner: Address)
    requires user1 != user2
    ensures lastReceipt == Emitted([Transfer(ZERO_ADDRESS, user1, MilestoneId(user1, 3)), CheckedIn(user1, 3)])
    ensures challenge.isActive && challenge.streak == 3
    ensures owner == user1
  {
    var m := DeployFixture(user1, user2, t0);
    var _ := m.Stake(user1, h, DURATION);
    lastReceipt := CheckInToFirstMilestone(m, user1);
    challenge := m.ChallengeOf(user1);
    owner := m.credentials[MilestoneId(user1, 3)];
  }

  /**
    A second challenge of the same user reuses the first one's identifiers: after
    reaching streak 3, claiming and staking again, the next streak of 3 finds
    `user1 + 3` already minted, so the third check-in emits IssuanceFailed and the
    credential stays with user1.
   */
  method RestakeFindsMilestoneTaken(user1: Address, user2: Address, h1: HabitHash, h2: HabitHash, t0: nat)
    returns (lastReceipt: Receipt, challenge: Challenge, owner: Address)
    requires user1 != user2
    ensures lastReceipt == Emitted([IssuanceFailed(user1, MilestoneId(user1, 3)), CheckedIn(user1, 3)])
    ensures challenge.isActive && challenge.streak == 3 && challenge.habitHash == h2
    ensures owner == user1
  {
    var m := DeployFixture(user1, user2, t0);
    var _ := m.Stake(user1, h1, DURATION);
    var _ := CheckInToFirstMilestone(m, user1);
    m.IncreaseTime(DURATION * DAY);
    ghost var due := m.State();
    ClaimPaysBack(due, user1);
    var _ := m.ClaimReward(user1);
    m.Approve(user1, STAKE_AMOUNT);
    ghost var approved := m.State();
    StakeOpens(approved, user1, h2, DURATION);
    var _ := m.Stake(user1, h2, DURATION);
    lastReceipt := CheckInToFirstMilestone(m, user1);
    challenge := m.ChallengeOf(user1);
    owner := m.credentials[MilestoneId(user1, 3)];
  }

  /**
    With no check-in at all, a claim DURATION days after staking succeeds: the
    user's balance goes from 0 back to STAKE_AMOUNT and the challenge closes.
   */
  method ClaimAfterCompletion(user1: Address, user2: Address, h: HabitHash, t0: nat)
    returns (initialBalance: nat, receipt: Receipt, finalBalance: nat, challenge: Challenge, pool: nat, locked: nat)
    requires user1 != user2
    ensures initialBalance == 0
    ensures receipt == Emitted([RewardClaimed(user1, STAKE_AMOUNT)])
    ensures finalBalance == STAKE_AMOUNT
    ensures !challenge.isActive
    ensures finalBalance + locked + pool == STAKE_AMOUNT
  {
    var m := DeployFixture(user1, user2, t0);
    var _ := m.Stake(user1, h, DURATION);
    initialBalance := AmountOf(m.balanceOf, user1);
    m.IncreaseTime(DURATION * DAY);
    receipt := m.ClaimReward(user1);
    finalBalance := AmountOf(m.balanceOf, user1);
    challenge := m.ChallengeOf(user1);
    pool := m.forfeitedPool;
    assert ActiveSet(m.activeChallenges) == {};
    locked := Locked(m.activeChallenges);
  }
}

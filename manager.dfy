/**
  The ledger contract as an object: its records, pool and the state of the
  collateral token and credential contract it drives are fields that its entry
  points update in place. Each method is specified by the corresponding
  transition of HabitLedger, so everything proved there holds of the object.
 */
module HabitManagerContract {
  import opened ChallengePolicy
  import opened TokenBalances
  import opened HabitLedger
  import opened LedgerProperties

  /** What a caller observes of a call: its revert reason, or the events it emitted. */
  datatype Receipt = RevertedWith(reason: string) | Emitted(events: seq<Event>)

  function ReceiptOf(o: Outcome): Receipt
  {
    match o
    case Reverted(reason) => RevertedWith(reason)
    case Success(_, events) => Emitted(events)
  }

  class HabitManager {
    /** Block clock, in seconds. */
    var now: nat
    /** The participant-to-record mapping (`activeChallenges`). */
    var activeChallenges: map<Address, Challenge>
    /** Collateral collected from failed challenges. */
    var forfeitedPool: nat
    /** The ledger's own token balance. */
    var custody: nat
    /** Token balances of external accounts. */
    var balanceOf: map<Address, nat>
    /** Each account's allowance to the ledger. */
    var allowance: map<Address, nat>
    var totalSupply: nat
    /** Owner of every minted credential, by identifier. */
    var credentials: map<nat, Address>

    /** The object's state as a HabitLedger value. */
    ghost function State(): Ledger
      reads this
    {
      Ledger(now, activeChallenges, forfeitedPool, custody, balanceOf, allowance, totalSupply, credentials)
    }

    ghost predicate Valid()
      reads this
    {
      Invariant(State())
    }

    /** Deployment, with the clock at `startTime`. */
    constructor (startTime: nat)
      ensures State() == Genesis(startTime) && Valid()
    {
      now := startTime;
      activeChallenges := map[];
      forfeitedPool := 0;
      custody := 0;
      balanceOf := map[];
      allowance := map[];
      totalSupply := 0;
      credentials := map[];
      GenesisInvariant(startTime);
    }

    /** The public getter `activeChallenges(user)`, answered from the fields. */
    function ChallengeOf(user: Address): (c: Challenge)
      reads this
      ensures c == RecordOf(State(), user)
      ensures user in activeChallenges ==> c == activeChallenges[user]
      ensures user !in activeChallenges ==> c == EMPTY_RECORD
    {
      if user in activeChallenges then activeChallenges[user] else EMPTY_RECORD
    }

    /** `stake(habitHash, durationDays)` sent by `user`. */
    method Stake(user: Address, habitHash: HabitHash, durationDays: nat) returns (receipt: Receipt)
      requires Valid() && !HasActive(State(), user)
      modifies this
      ensures Valid()
      ensures State() == Next(old(State()), StakeOp(user, habitHash, durationDays))
      ensures receipt == ReceiptOf(HabitLedger.Stake(old(State()), user, habitHash, durationDays))
    {
      ghost var before := State();
      var allowed := AmountOf(allowance, user);
      var held := AmountOf(balanceOf, user);
      if allowed < STAKE_AMOUNT {
        receipt := RevertedWith(INSUFFICIENT_ALLOWANCE);
      } else if held < STAKE_AMOUNT {
        receipt := RevertedWith(INSUFFICIENT_BALANCE);
      } else {
        allowance := allowance[user := allowed - STAKE_AMOUNT];
        balanceOf := balanceOf[user := held - STAKE_AMOUNT];
        custody := custody + STAKE_AMOUNT;
        activeChallenges := activeChallenges[user := Challenge(true, 0, STAKE_AMOUNT, habitHash, now, durationDays, now)];
        receipt := Emitted([ChallengeStarted(user, habitHash, durationDays, STAKE_AMOUNT)]);
        assert State() == HabitLedger.Stake(before, user, habitHash, durationDays).next;
        StakePreservesInvariant(before, user, habitHash, durationDays);
      }
    }

    /** `checkIn()` sent by `user`. */
    method CheckIn(user: Address) returns (receipt: Receipt)
      requires Valid() && HasActive(State(), user)
      modifies this
      ensures Valid()
      ensures State() == Next(old(State()), CheckInOp(user))
      ensures receipt == ReceiptOf(HabitLedger.CheckIn(old(State()), user))
    {
      ghost var before := State();
      var c := activeChallenges[user];
      var verdict := Classify(c.lastCheckInTime, now);
      if verdict == TooEarly {
        receipt := RevertedWith(TOO_EARLY);
      } else if verdict == OnTime {
        var streak := c.streak + 1;
        activeChallenges := activeChallenges[user := c.(streak := streak, lastCheckInTime := now)];
        if IsMilestone(streak) {
          var id := MilestoneId(user, streak);
          if id in credentials {
            receipt := Emitted([IssuanceFailed(user, id), CheckedIn(user, streak)]);
          } else {
            credentials := credentials[id := user];
            receipt := Emitted([Transfer(ZERO_ADDRESS, user, id), CheckedIn(user, streak)]);
          }
        } else {
          receipt := Emitted([CheckedIn(user, streak)]);
        }
      } else {
        activeChallenges := activeChallenges[user := c.(isActive := false)];
        forfeitedPool := forfeitedPool + c.stakeAmount;
        receipt := Emitted([ChallengeFailed(user, c.habitHash)]);
      }
      assert verdict != TooEarly ==> State() == HabitLedger.CheckIn(before, user).next;
      CheckInPreservesInvariant(before, user);
    }

    /** `claimReward()` sent by `user`. */
    method ClaimReward(user: Address) returns (receipt: Receipt)
      requires Valid() && HasActive(State(), user) && ClaimDue(State(), user)
      modifies this
      ensures Valid()
      ensures State() == Next(old(State()), ClaimOp(user))
      ensures receipt == ReceiptOf(HabitLedger.ClaimReward(old(State()), user))
    {
      ghost var before := State();
      var c := activeChallenges[user];
      if custody < c.stakeAmount {
        receipt := RevertedWith(INSUFFICIENT_BALANCE);
      } else {
        activeChallenges := activeChallenges[user := c.(isActive := false)];
        custody := custody - c.stakeAmount;
        balanceOf := balanceOf[user := AmountOf(balanceOf, user) + c.stakeAmount];
        receipt := Emitted([RewardClaimed(user, c.stakeAmount)]);
        assert State() == HabitLedger.ClaimReward(before, user).next;
        ClaimPreservesInvariant(before, user);
      }
    }

    /** The collateral token's `mint(to, amount)`. */
    method Mint(to: Address, amount: nat)
      requires Valid()
      modifies this
      ensures Valid()
      ensures State() == Next(old(State()), MintOp(to, amount))
    {
      ghost var before := State();
      balanceOf := balanceOf[to := AmountOf(balanceOf, to) + amount];
      totalSupply := totalSupply + amount;
      assert State() == HabitLedger.Mint(before, to, amount);
      MintPreservesInvariant(before, to, amount);
    }

    /** The collateral token's `approve(ledger, amount)` sent by `owner`. */
    method Approve(owner: Address, amount: nat)
      requires Valid()
      modifies this
      ensures Valid()
      ensures State() == Next(old(State()), ApproveOp(owner, amount))
    {
      allowance := allowance[owner := amount];
    }

    /** Advance the block clock, as the test helper `time.increase(seconds)` does. */
    method IncreaseTime(seconds: nat)
      requires Valid()
      modifies this
      ensures Valid()
      ensures State() == Next(old(State()), IncreaseTimeOp(seconds))
    {
      ghost var before := State();
      now := now + seconds;
      assert State() == HabitLedger.IncreaseTime(before, seconds);
      IncreaseTimePreservesInvariant(before, seconds);
    }
  }
}

/**
  What the ledger's entry points guarantee: each call keeps the ledger invariant
  (token conservation, custody backing every open stake and the pool), the pool
  only grows, a streak only moves on an on-time check-in, a closed record is
  frozen, milestone credentials are issued, and a due claim always pays back.
 */
module LedgerProperties {
  import opened ChallengePolicy
  import opened TokenBalances
  import opened HabitLedger

  /** How the set of open challenges changes when one record is replaced. */
  lemma ActiveSetUpdate(m: map<Address, Challenge>, a: Address, c: Challenge)
    ensures ActiveSet(m[a := c]) == if c.isActive then ActiveSet(m) + {a} else ActiveSet(m) - {a}
  {
  }

  /** Opening a challenge for a participant without one locks exactly one more stake. */
  lemma LockedOpen(m: map<Address, Challenge>, a: Address, c: Challenge)
    requires !(a in m && m[a].isActive) && c.isActive
    ensures Locked(m[a := c]) == Locked(m) + STAKE_AMOUNT
  {
    ActiveSetUpdate(m, a, c);
    assert a !in ActiveSet(m);
  }

  /** Closing an open challenge unlocks exactly one stake. */
  lemma LockedClose(m: map<Address, Challenge>, a: Address, c: Challenge)
    requires a in m && m[a].isActive && !c.isActive
    ensures Locked(m[a := c]) + STAKE_AMOUNT == Locked(m)
  {
    ActiveSetUpdate(m, a, c);
    assert a in ActiveSet(m);
  }

  /** A deployment starts in the invariant. */
  lemma GenesisInvariant(now: nat)
    ensures Invariant(Genesis(now))
  {
    assert Genesis(now).balanceOf.Keys == {};
    assert ActiveSet(map[]) == {};
  }

  /** After a successful stake, external balances plus custody still equal the supply. */
  lemma StakeConservesTokens(s: Ledger, user: Address, h: HabitHash, days: nat)
    requires TokensConserved(s) && !HasActive(s, user) && Stake(s, user, h, days).Success?
    ensures TokensConserved(Stake(s, user, h, days).next)
  {
    TotalDebit(s.balanceOf, user, STAKE_AMOUNT);
  }

  /** After a successful claim, external balances plus custody still equal the supply. */
  lemma ClaimConservesTokens(s: Ledger, user: Address)
    requires TokensConserved(s) && HasActive(s, user) && ClaimDue(s, user) && ClaimReward(s, user).Success?
    requires s.activeChallenges[user].stakeAmount == STAKE_AMOUNT
    ensures TokensConserved(ClaimReward(s, user).next)
  {
    TotalCredit(s.balanceOf, user, STAKE_AMOUNT);
  }

  /** Minting adds the same amount to one balance and to the supply. */
  lemma MintConservesTokens(s: Ledger, to: Address, amount: nat)
    requires TokensConserved(s)
    ensures TokensConserved(Mint(s, to, amount))
  {
    TotalCredit(s.balanceOf, to, amount);
  }

  lemma {:induction false} StakePreservesInvariant(s: Ledger, user: Address, h: HabitHash, days: nat)
    requires Invariant(s) && !HasActive(s, user)
    ensures Stake(s, user, h, days).Success? ==> Invariant(Stake(s, user, h, days).next)
  {
    var r := Stake(s, user, h, days);
    if r.Success? {
      var n := r.next;
      StakeConservesTokens(s, user, h, days);
      assert CustodyBacked(n) by {
        LockedOpen(s.activeChallenges, user, n.activeChallenges[user]);
      }
      assert RecordsWellFormed(n);
      assert MilestonesIssued(n) by {
        forall a, k | a in n.activeChallenges && 0 < k <= n.activeChallenges[a].streak && IsMilestone(k)
          ensures MilestoneId(a, k) in n.credentials
        {
          assert a != user;
        }
      }
    }
  }

  /** An on-time check-in keeps the invariant; a reached milestone's credential is minted or already there. */
  lemma OnTimeCheckInPreservesInvariant(s: Ledger, user: Address)
    requires Invariant(s) && HasActive(s, user)
    requires Classify(s.activeChallenges[user].lastCheckInTime, s.now) == OnTime
    ensures Invariant(CheckIn(s, user).next)
  {
    var n := CheckIn(s, user).next;
    assert n.balanceOf == s.balanceOf && n.custody == s.custody && n.totalSupply == s.totalSupply;
    OnTimeKeepsCustodyBacked(s, user);
    OnTimeKeepsRecordsWellFormed(s, user);
    OnTimeKeepsMilestonesIssued(s, user);
  }

  /** After an on-time check-in, custody still equals the locked stakes plus the pool. */
  lemma OnTimeKeepsCustodyBacked(s: Ledger, user: Address)
    requires CustodyBacked(s) && HasActive(s, user)
    requires Classify(s.activeChallenges[user].lastCheckInTime, s.now) == OnTime
    ensures CustodyBacked(CheckIn(s, user).next)
  {
    var n := CheckIn(s, user).next;
    ActiveSetUpdate(s.activeChallenges, user, n.activeChallenges[user]);
    assert ActiveSet(n.activeChallenges) == ActiveSet(s.activeChallenges);
  }

  /** After an on-time check-in, every record is still well formed. */
  lemma OnTimeKeepsRecordsWellFormed(s: Ledger, user: Address)
    requires RecordsWellFormed(s) && HasActive(s, user)
    requires Classify(s.activeChallenges[user].lastCheckInTime, s.now) == OnTime
    ensures RecordsWellFormed(CheckIn(s, user).next)
  {
    assert WellFormed(s.activeChallenges[user], s.now);
  }

  /** After an on-time check-in every milestone passed, the new streak included, has its credential. */
  lemma OnTimeKeepsMilestonesIssued(s: Ledger, user: Address)
    requires MilestonesIssued(s) && HasActive(s, user)
    requires Classify(s.activeChallenges[user].lastCheckInTime, s.now) == OnTime
    ensures MilestonesIssued(CheckIn(s, user).next)
  {
    var c := s.activeChallenges[user];
    var n := CheckIn(s, user).next;
    forall a, k | a in n.activeChallenges && 0 < k <= n.activeChallenges[a].streak && IsMilestone(k)
      ensures MilestoneId(a, k) in n.credentials
    {
      if a != user || k <= c.streak {
        assert MilestoneId(a, k) in s.credentials;
      }
    }
  }

  /** A forfeiting check-in keeps the invariant: the stake leaves the locked total and enters the pool. */
  lemma ForfeitPreservesInvariant(s: Ledger, user: Address)
    requires Invariant(s) && HasActive(s, user)
    requires Classify(s.activeChallenges[user].lastCheckInTime, s.now) == Forfeit
    ensures Invariant(CheckIn(s, user).next)
  {
    var n := CheckIn(s, user).next;
    assert CustodyBacked(n) by {
      LockedClose(s.activeChallenges, user, n.activeChallenges[user]);
    }
    assert RecordsWellFormed(n);
    assert MilestonesIssued(n) by {
      forall a, k | a in n.activeChallenges && 0 < k <= n.activeChallenges[a].streak && IsMilestone(k)
        ensures MilestoneId(a, k) in n.credentials
      {
        assert MilestoneId(a, k) in s.credentials;
      }
    }
  }

  lemma CheckInPreservesInvariant(s: Ledger, user: Address)
    requires Invariant(s) && HasActive(s, user)
    ensures CheckIn(s, user).Success? ==> Invariant(CheckIn(s, user).next)
  {
    match Classify(s.activeChallenges[user].lastCheckInTime, s.now)
    case TooEarly =>
    case OnTime => OnTimeCheckInPreservesInvariant(s, user);
    case Forfeit => ForfeitPreservesInvariant(s, user);
  }

  lemma {:induction false} ClaimPreservesInvariant(s: Ledger, user: Address)
    requires Invariant(s) && HasActive(s, user) && ClaimDue(s, user)
    ensures ClaimReward(s, user).Success? ==> Invariant(ClaimReward(s, user).next)
  {
    var r := ClaimReward(s, user);
    if r.Success? {
      var n := r.next;
      ClaimConservesTokens(s, user);
      assert CustodyBacked(n) by {
        LockedClose(s.activeChallenges, user, n.activeChallenges[user]);
      }
      assert RecordsWellFormed(n);
      assert MilestonesIssued(n) by {
        forall a, k | a in n.activeChallenges && 0 < k <= n.activeChallenges[a].streak && IsMilestone(k)
          ensures MilestoneId(a, k) in n.credentials
        {
          assert MilestoneId(a, k) in s.credentials;
        }
      }
    }
  }

  lemma MintPreservesInvariant(s: Ledger, to: Address, amount: nat)
    requires Invariant(s)
    ensures Invariant(Mint(s, to, amount))
  {
    var n := Mint(s, to, amount);
    MintConservesTokens(s, to, amount);
    assert MilestonesIssued(n) by {
      assert n.activeChallenges == s.activeChallenges && n.credentials == s.credentials;
    }
  }

  lemma IncreaseTimePreservesInvariant(s: Ledger, d: nat)
    requires Invariant(s)
    ensures Invariant(IncreaseTime(s, d))
  {
    var n := IncreaseTime(s, d);
    assert RecordsWellFormed(n) by {
      forall a | a in n.activeChallenges ensures WellFormed(n.activeChallenges[a], n.now) {
        assert WellFormed(s.activeChallenges[a], s.now);
      }
    }
    assert MilestonesIssued(n) by {
      assert n.activeChallenges == s.activeChallenges && n.credentials == s.credentials;
    }
  }

  /** Every admissible call, whether it reverts or not, keeps the ledger invariant. */
  lemma {:induction false} StepPreservesInvariant(s: Ledger, op: Op)
    requires Invariant(s) && Admissible(s, op)
    ensures Invariant(Next(s, op))
  {
    match op
    case StakeOp(u, h, d) => StakePreservesInvariant(s, u, h, d);
    case CheckInOp(u) => CheckInPreservesInvariant(s, u);
    case ClaimOp(u) => ClaimPreservesInvariant(s, u);
    case MintOp(to, amount) => MintPreservesInvariant(s, to, amount);
    case ApproveOp(owner, amount) => assert Next(s, op) == Approve(s, owner, amount);
    case IncreaseTimeOp(d) => IncreaseTimePreservesInvariant(s, d);
  }

  /** Any admissible sequence of calls keeps the invariant. */
  lemma {:induction false} RunPreservesInvariant(s: Ledger, ops: seq<Op>)
    requires Invariant(s) && RunAdmissible(s, ops)
    ensures Invariant(Run(s, ops))
    decreases |ops|
  {
    if ops != [] {
      StepPreservesInvariant(s, ops[0]);
      RunPreservesInvariant(Next(s, ops[0]), ops[1..]);
    }
  }

  /**
    Conservation of collateral: from deployment on, whatever calls are made, the
    external balances plus the locked stakes plus the forfeited pool add up to
    every token ever minted.
   */
  lemma CollateralConserved(now: nat, ops: seq<Op>)
    requires RunAdmissible(Genesis(now), ops)
    ensures var s := Run(Genesis(now), ops);
      Total(s.balanceOf) + Locked(s.activeChallenges) + s.forfeitedPool == s.totalSupply
  {
    GenesisInvariant(now);
    RunPreservesInvariant(Genesis(now), ops);
  }

  /** No call decreases the forfeited pool; it grows only by a forfeiting check-in, by exactly one stake. */
  lemma PoolOnlyGrowsByForfeit(s: Ledger, op: Op)
    requires Invariant(s) && Admissible(s, op)
    ensures Next(s, op).forfeitedPool >= s.forfeitedPool
    ensures Next(s, op).forfeitedPool != s.forfeitedPool ==>
      && op.CheckInOp?
      && Classify(s.activeChallenges[op.user].lastCheckInTime, s.now) == Forfeit
      && Next(s, op).forfeitedPool == s.forfeitedPool + STAKE_AMOUNT
  {
    if op.CheckInOp? {
      assert WellFormed(s.activeChallenges[op.user], s.now);
    }
  }

  /** Over any sequence of calls the pool never shrinks. */
  lemma {:induction false} RunPoolMonotone(s: Ledger, ops: seq<Op>)
    requires Invariant(s) && RunAdmissible(s, ops)
    ensures Run(s, ops).forfeitedPool >= s.forfeitedPool
    decreases |ops|
  {
    if ops != [] {
      PoolOnlyGrowsByForfeit(s, ops[0]);
      StepPreservesInvariant(s, ops[0]);
      RunPoolMonotone(Next(s, ops[0]), ops[1..]);
    }
  }

  /**
    Records are never deleted; a streak changes only by one on an on-time check-in
    of its owner, or back to zero when its owner opens a new challenge.
   */
  lemma StreakChangesOnlyOnTime(s: Ledger, op: Op, a: Address)
    requires Admissible(s, op) && a in s.activeChallenges
    ensures a in Next(s, op).activeChallenges
    ensures var before, after := s.activeChallenges[a].streak, Next(s, op).activeChallenges[a].streak;
      after != before ==>
        (&& op == CheckInOp(a)
         && Classify(s.activeChallenges[a].lastCheckInTime, s.now) == OnTime
         && after == before + 1)
        || (op.StakeOp? && op.user == a && after == 0)
  {
  }

  /** A closed record stays exactly as it was until its owner opens a new challenge. */
  lemma ClosedRecordFrozen(s: Ledger, op: Op, a: Address)
    requires Admissible(s, op) && a in s.activeChallenges && !s.activeChallenges[a].isActive
    requires !(op.StakeOp? && op.user == a)
    ensures a in Next(s, op).activeChallenges && Next(s, op).activeChallenges[a] == s.activeChallenges[a]
  {
  }

  /** No call takes a credential back or hands it to another owner. */
  lemma CredentialsOnlyGrow(s: Ledger, op: Op)
    requires Admissible(s, op)
    ensures forall id | id in s.credentials :: id in Next(s, op).credentials && Next(s, op).credentials[id] == s.credentials[id]
  {
  }

  /** Over any sequence of calls, a minted credential stays minted, with its first owner. */
  lemma {:induction false} RunKeepsCredential(s: Ledger, ops: seq<Op>, id: nat)
    requires RunAdmissible(s, ops) && id in s.credentials
    ensures id in Run(s, ops).credentials && Run(s, ops).credentials[id] == s.credentials[id]
    decreases |ops|
  {
    if ops != [] {
      CredentialsOnlyGrow(s, ops[0]);
      RunKeepsCredential(Next(s, ops[0]), ops[1..], id);
    }
  }

  /**
    Credential identifiers belong to the participant, not to one challenge: once a
    streak of `user` has reached the first milestone, `user + MILESTONE_INTERVAL`
    is taken for good. Whatever calls follow (a claim, a new stake, fresh
    check-ins), the on-time check-in that brings a later streak of `user` to the
    first milestone again mints nothing: it emits IssuanceFailed, and the
    credential stays with its first owner.
   */
  lemma LaterMilestoneAlreadyIssued(s: Ledger, ops: seq<Op>, user: Address)
    requires Invariant(s) && user in s.activeChallenges && s.activeChallenges[user].streak >= MILESTONE_INTERVAL
    requires RunAdmissible(s, ops)
    requires var t := Run(s, ops);
      && HasActive(t, user) && t.activeChallenges[user].streak + 1 == MILESTONE_INTERVAL
      && Classify(t.activeChallenges[user].lastCheckInTime, t.now) == OnTime
    ensures var t, id := Run(s, ops), MilestoneId(user, MILESTONE_INTERVAL);
      var r := CheckIn(t, user);
      && id in s.credentials
      && r.events == [IssuanceFailed(user, id), CheckedIn(user, MILESTONE_INTERVAL)]
      && r.next.credentials == t.credentials
      && r.next.credentials[id] == s.credentials[id]
  {
    var id := MilestoneId(user, MILESTONE_INTERVAL);
    assert IsMilestone(MILESTONE_INTERVAL);
    assert id in s.credentials;
    RunKeepsCredential(s, ops, id);
  }

  /**
    The three outcomes of a check-in. Too early reverts with the tested message;
    on time adds one to the streak and re-anchors the window at the call's time;
    too late closes the challenge with its streak frozen and moves exactly one stake
    into the pool, leaving custody and balances alone.
   */
  lemma CheckInOutcomes(s: Ledger, user: Address)
    requires Invariant(s) && HasActive(s, user)
    ensures var c, r := s.activeChallenges[user], CheckIn(s, user);
      match Classify(c.lastCheckInTime, s.now)
      case TooEarly => r == Reverted(TOO_EARLY)
      case OnTime =>
        && r.Success?
        && r.next.activeChallenges == s.activeChallenges[user := c.(streak := c.streak + 1, lastCheckInTime := s.now)]
        && r.next.forfeitedPool == s.forfeitedPool && r.next.custody == s.custody
        && r.next.balanceOf == s.balanceOf
        && r.events[|r.events| - 1] == CheckedIn(user, c.streak + 1)
      case Forfeit =>
        && r == Success(s.(activeChallenges := s.activeChallenges[user := c.(isActive := false)],
                           forfeitedPool := s.forfeitedPool + STAKE_AMOUNT),
                        [ChallengeFailed(user, c.habitHash)])
  {
    assert WellFormed(s.activeChallenges[user], s.now);
  }

  /**
    Credentials on an on-time check-in: reaching a milestone streak k leaves the
    identifier `user + k` minted, to the user when it was free; any other
    check-in mints nothing.
   */
  lemma CheckInIssuesMilestone(s: Ledger, user: Address)
    requires HasActive(s, user)
    requires Classify(s.activeChallenges[user].lastCheckInTime, s.now) == OnTime
    ensures var k, n := s.activeChallenges[user].streak + 1, CheckIn(s, user).next;
      && (IsMilestone(k) ==> MilestoneId(user, k) in n.credentials)
      && (IsMilestone(k) && MilestoneId(user, k) !in s.credentials ==>
            n.credentials == s.credentials[MilestoneId(user, k) := user]
            && Transfer(ZERO_ADDRESS, user, MilestoneId(user, k)) in CheckIn(s, user).events)
      && (!IsMilestone(k) ==> n.credentials == s.credentials)
  {
  }

  /**
    A due claim on a consistent ledger never fails: the user gets back exactly one
    stake, custody gives it up, and the challenge is closed, whatever its streak.
   */
  lemma ClaimPaysBack(s: Ledger, user: Address)
    requires Invariant(s) && HasActive(s, user) && ClaimDue(s, user)
    ensures var r := ClaimReward(s, user);
      && r.Success?
      && r.events == [RewardClaimed(user, STAKE_AMOUNT)]
      && AmountOf(r.next.balanceOf, user) == AmountOf(s.balanceOf, user) + STAKE_AMOUNT
      && r.next.custody + STAKE_AMOUNT == s.custody
      && !r.next.activeChallenges[user].isActive
      && r.next.activeChallenges[user].streak == s.activeChallenges[user].streak
      && r.next.forfeitedPool == s.forfeitedPool
  {
    assert user in ActiveSet(s.activeChallenges);
    assert |ActiveSet(s.activeChallenges)| >= 1;
    assert WellFormed(s.activeChallenges[user], s.now);
  }

  /**
    Opening a challenge, when the user has approved and holds at least one stake,
    moves exactly one stake from the user into custody and stores an open record
    with a zero streak, anchored at the call's time.
   */
  lemma StakeOpens(s: Ledger, user: Address, h: HabitHash, days: nat)
    requires !HasActive(s, user)
    requires AmountOf(s.allowance, user) >= STAKE_AMOUNT && AmountOf(s.balanceOf, user) >= STAKE_AMOUNT
    ensures var r := Stake(s, user, h, days);
      && r.Success?
      && r.events == [ChallengeStarted(user, h, days, STAKE_AMOUNT)]
      && r.next.activeChallenges[user] == Challenge(true, 0, STAKE_AMOUNT, h, s.now, days, s.now)
      && AmountOf(r.next.balanceOf, user) + STAKE_AMOUNT == AmountOf(s.balanceOf, user)
      && r.next.custody == s.custody + STAKE_AMOUNT
      && r.next.forfeitedPool == s.forfeitedPool
      && HasActive(r.next, user)
  {
  }

  /**
    One day of the milestone test: wait 25 hours after the last check-in and check
    in again. The check-in is on time, the streak grows by one, the window is
    re-anchored at the new time, and the credential for the new streak is minted
    to the user exactly when the streak is a milestone whose identifier is free.
   */
  lemma DailyCheckIn(s: Ledger, user: Address)
    requires HasActive(s, user) && s.activeChallenges[user].lastCheckInTime == s.now
    ensures var waited := IncreaseTime(s, 25 * HOUR);
      var c, k := s.activeChallenges[user], s.activeChallenges[user].streak + 1;
      var id := MilestoneId(user, k);
      && HasActive(waited, user)
      && Classify(c.lastCheckInTime, waited.now) == OnTime
      && var r := CheckIn(waited, user);
      && r.Success?
      && r.next == Next(waited, CheckInOp(user))
      && r.next == s.(now := s.now + 25 * HOUR,
                      activeChallenges := s.activeChallenges[user := c.(streak := k, lastCheckInTime := s.now + 25 * HOUR)],
                      credentials := if IsMilestone(k) && id !in s.credentials then s.credentials[id := user] else s.credentials)
      && r.events == (if !IsMilestone(k) then [CheckedIn(user, k)]
                      else if id in s.credentials then [IssuanceFailed(user, id), CheckedIn(user, k)]
                      else [Transfer(ZERO_ADDRESS, user, id), CheckedIn(user, k)])
  {
    ClassifyTestedGaps(s.now);
  }
}

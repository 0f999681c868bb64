# Habify ledger in Dafny

Habify lets a participant lock collateral against a self-declared habit. The
participant then checks in once per day, builds a streak, and earns a collectible
credential every third consecutive check-in. A missed window forfeits the collateral
to a pool. Once the declared number of days has passed, the participant can claim
the collateral back.

This project models the `HabitManager` ledger and the friends list of the web client.

The ledger is modelled from the behaviour its test suite
(`habify-contracts/test/HabitManager.ts`) pins down, and from the record layout the
client reads (`src/hooks/useHabitContract.ts`). The Solidity source of
`HabitManager`, `HabitStreakNFT` and `MockUSDC` is not part of this model.

The ledger is modelled on two levels:

- `HabitLedger` (ledger.dfy) is a state machine over values: one `Challenge` record per
  address, the `forfeitedPool`, the collateral token (external balances, allowances to
  the ledger, and the ledger's own balance `custody`) and the credentials minted so far.
  Each entry point (`Stake`, `CheckIn`, `ClaimReward`) is a function from a state to an
  `Outcome`: either a revert, which changes nothing, or a new state with its events.
- `HabitManagerContract.HabitManager` (manager.dfy) is the contract as an object whose
  fields the entry points update in place. Each method's postcondition is the
  corresponding `HabitLedger` transition, and each method preserves the ledger invariant.

The properties are proved about the value model (ledger_properties.dfy). The test
cases themselves are client methods (manager_tests.dfy). Each one deploys a fresh
manager with the fixture, makes the test's calls and proves the test's expectations.

The window policy and the credential identifier are in policy.dfy. The tests use
gaps of 25 h (on time), 5 min (too early) and 49 h (forfeit), and a comment names a
48-hour window. The model takes a check-in to be too early below `MIN_WINDOW` (24 h)
after the last anchor, on time in the closed interval [24 h, 48 h], and to forfeit
the challenge past `MAX_WINDOW` (48 h); the lower bound and the closed ends are a
modelling choice (see "## Left out"). The credential for streak k has the identifier
`address + k`.

Token conservation is stated with `TokenBalances.Total`, the sum of a balance map
(tokens.dfy). The ledger invariant `HabitLedger.Invariant` has four parts:

- external balances plus custody equal the token supply;
- custody equals the locked stakes plus the pool, where the locked stakes are one
  `STAKE_AMOUNT` per address with an open challenge;
- every record holds `STAKE_AMOUNT` and has `startTime <= lastCheckInTime <= now`;
- every milestone a streak has passed has its credential minted.

The record map has one entry per address, and `stake` requires that there is no open
challenge. So an address never has more than one open challenge. The invariant also
charges exactly one locked stake for each open challenge.

The friends list (friends.dfy) models `src/pages/Friends.tsx`. The list transforms
are the functions `AddFriend` and `Without`. The page state and its two handlers are
the class `FriendsPage`.

## Model

| member | source | states |
|---|---|---|
| ChallengePolicy.ClassifyBoundaries | habify-contracts/test/HabitManager.ts:90-91 | in the model, the on-time window is the closed interval [MIN_WINDOW, MAX_WINDOW] (24 h and 48 h, a modelling choice consistent with the tested gaps): one second before it is too early, one second after it forfeits |
| ChallengePolicy.ClassifyTestedGaps | habify-contracts/test/HabitManager.ts:58-102 | a gap of 25 h is on time, 5 min is too early, 49 h forfeits |
| ChallengePolicy.ClassifyMonotone | habify-contracts/test/HabitManager.ts:73-102 | waiting longer never moves the verdict back from forfeit towards too early |
| ChallengePolicy.MilestoneIdsCollideAcrossParticipants | habify-contracts/test/HabitManager.ts:111 | the id `address + streak` is not unique across addresses: addresses three apart collide at streaks 6 and 3 |
| HabitLedger.RecordOf | src/hooks/useHabitContract.ts:8-16 | the getter returns the stored record as stored, or the all-zero record for an address that never staked; it reports an open challenge exactly when the address has one |
| LedgerProperties.GenesisInvariant | habify-contracts/test/HabitManager.ts:9-30 | a fresh deployment satisfies the ledger invariant |
| LedgerProperties.StakeConservesTokens | habify-contracts/test/HabitManager.ts:34-38 | after a successful stake, external balances plus custody still equal the token supply |
| LedgerProperties.ClaimConservesTokens | habify-contracts/test/HabitManager.ts:148-150 | after a successful claim, external balances plus custody still equal the token supply |
| LedgerProperties.MintConservesTokens | habify-contracts/test/HabitManager.ts:34-35 | after a mint, external balances plus custody still equal the token supply |
| LedgerProperties.StakePreservesInvariant | habify-contracts/test/HabitManager.ts:45-56 | a successful stake keeps the full ledger invariant |
| LedgerProperties.CheckInPreservesInvariant | habify-contracts/test/HabitManager.ts:58-131 | an on-time or forfeiting check-in keeps the invariant, including "every milestone passed has its credential" |
| LedgerProperties.OnTimeCheckInPreservesInvariant | habify-contracts/test/HabitManager.ts:58-71 | a check-in inside the window keeps the invariant |
| LedgerProperties.OnTimeKeepsCustodyBacked | habify-contracts/test/HabitManager.ts:58-71 | after an on-time check-in, custody still equals the locked stakes plus the pool |
| LedgerProperties.OnTimeKeepsRecordsWellFormed | habify-contracts/test/HabitManager.ts:58-71 | after an on-time check-in every record is still well formed (one stake, start not after the anchor, anchor not after now) |
| LedgerProperties.OnTimeKeepsMilestonesIssued | habify-contracts/test/HabitManager.ts:104-131 | after an on-time check-in every milestone the streak has passed still has its credential |
| LedgerProperties.ForfeitPreservesInvariant | habify-contracts/test/HabitManager.ts:85-102 | a check-in after the window keeps the full ledger invariant |
| LedgerProperties.ClaimPreservesInvariant | habify-contracts/test/HabitManager.ts:133-155 | a successful claim keeps the invariant |
| LedgerProperties.MintPreservesInvariant | habify-contracts/test/HabitManager.ts:34-35 | minting collateral keeps the invariant |
| LedgerProperties.IncreaseTimePreservesInvariant | habify-contracts/test/HabitManager.ts:64 | advancing the clock keeps the invariant |
| LedgerProperties.StepPreservesInvariant | habify-contracts/test/HabitManager.ts:44-155 | every admissible call keeps the invariant, whether it succeeds or reverts |
| LedgerProperties.RunPreservesInvariant | habify-contracts/test/HabitManager.ts:44-155 | any admissible sequence of calls keeps the invariant |
| LedgerProperties.CollateralConserved | habify-contracts/test/HabitManager.ts:139-150 | after any admissible sequence of calls from deployment, user balances plus locked stakes plus the forfeited pool equal all tokens minted |
| LedgerProperties.PoolOnlyGrowsByForfeit | habify-contracts/test/HabitManager.ts:100-101 | no call lowers the pool; it changes only on a forfeiting check-in, and then by exactly STAKE_AMOUNT |
| LedgerProperties.RunPoolMonotone | habify-contracts/test/HabitManager.ts:100-101 | over any sequence of calls the pool never decreases |
| LedgerProperties.StreakChangesOnlyOnTime | habify-contracts/test/HabitManager.ts:66-70 | records are never deleted; a streak changes only by +1 on its owner's on-time check-in, or to 0 when its owner stakes anew |
| LedgerProperties.ClosedRecordFrozen | habify-contracts/test/HabitManager.ts:97-98 | a closed record does not change until its owner stakes again |
| LedgerProperties.CredentialsOnlyGrow | habify-contracts/test/HabitManager.ts:109-123 | no call removes a minted credential or changes its owner |
| LedgerProperties.RunKeepsCredential | habify-contracts/test/HabitManager.ts:109-123 | over any admissible sequence of calls a minted credential stays minted with its first owner |
| LedgerProperties.LaterMilestoneAlreadyIssued | habify-contracts/test/HabitManager.ts:109-123 | once a streak of `user` has reached 3, id `user + 3` is minted; whatever calls follow, the on-time check-in that brings a later streak of `user` to 3 emits IssuanceFailed(user, user + 3) then CheckedIn(user, 3), mints nothing and leaves the credential with its first owner |
| LedgerProperties.CheckInOutcomes | habify-contracts/test/HabitManager.ts:58-102 | too early reverts with "Too early to check in"; on time adds 1 to the streak, re-anchors at now and emits CheckedIn, leaving pool and tokens alone; too late closes the record with its streak frozen, adds exactly STAKE_AMOUNT to the pool and emits ChallengeFailed(user, habitHash) |
| LedgerProperties.CheckInIssuesMilestone | habify-contracts/test/HabitManager.ts:109-123 | an on-time check-in reaching a milestone streak k leaves id `user + k` minted, to the user with a Transfer from the zero address when it was free; other check-ins mint nothing |
| LedgerProperties.ClaimPaysBack | habify-contracts/test/HabitManager.ts:142-154 | a due claim on a consistent ledger succeeds whatever the streak, returns exactly STAKE_AMOUNT to the user, emits RewardClaimed and closes the record |
| LedgerProperties.StakeOpens | habify-contracts/test/HabitManager.ts:45-55 | with allowance and balance of one stake, staking emits ChallengeStarted(user, h, days, STAKE_AMOUNT), stores an open zero-streak record anchored at now and moves exactly one stake into custody |
| LedgerProperties.DailyCheckIn | habify-contracts/test/HabitManager.ts:114-117 | 25 h after the last anchor, a check-in is on time; the new state differs from the old only in the clock, the user's record (streak plus one, re-anchored) and the milestone credential, minted exactly when due and free; the events follow the same cases |
| HabitManagerContract.HabitManager.constructor | habify-contracts/test/HabitManager.ts:22-30 | deployment yields the empty ledger, which satisfies the invariant |
| HabitManagerContract.HabitManager.ChallengeOf | src/hooks/useHabitContract.ts:8-16 | the object's getter answers exactly as `RecordOf` on the object's state: the stored record or the all-zero record |
| HabitManagerContract.HabitManager.Stake | habify-contracts/test/HabitManager.ts:49-51 | updates the fields exactly as the Stake transition does and keeps the invariant |
| HabitManagerContract.HabitManager.CheckIn | habify-contracts/test/HabitManager.ts:66-67 | updates the fields exactly as the CheckIn transition does and keeps the invariant |
| HabitManagerContract.HabitManager.ClaimReward | habify-contracts/test/HabitManager.ts:145-146 | updates the fields exactly as the ClaimReward transition does and keeps the invariant |
| HabitManagerContract.HabitManager.Mint | habify-contracts/test/HabitManager.ts:34-35 | the token's mint, keeping the invariant |
| HabitManagerContract.HabitManager.Approve | habify-contracts/test/HabitManager.ts:37-38 | the token's approve, keeping the invariant |
| HabitManagerContract.HabitManager.IncreaseTime | habify-contracts/test/HabitManager.ts:64 | advancing the clock, keeping the invariant |
| HabitManagerTests.DeployFixture | habify-contracts/test/HabitManager.ts:9-42 | after the fixture each user holds and has approved exactly STAKE_AMOUNT, with no challenge, pool or credential |
| HabitManagerTests.StakeStartsHabit | habify-contracts/test/HabitManager.ts:45-56 | stake(h, 7) emits ChallengeStarted(user1, h, 7, STAKE_AMOUNT), the record is active with hash h, and user1's balance is 0 |
| HabitManagerTests.CheckInWithinWindow | habify-contracts/test/HabitManager.ts:58-71 | a check-in 25 h after staking emits CheckedIn and the streak is 1 |
| HabitManagerTests.CheckInTooEarly | habify-contracts/test/HabitManager.ts:73-83 | a check-in 5 min after staking reverts with "Too early to check in", and the record, pool and balance are unchanged |
| HabitManagerTests.CheckInTooLate | habify-contracts/test/HabitManager.ts:85-102 | a check-in 49 h after staking emits ChallengeFailed(user1, h), closes the challenge and brings the pool from 0 to STAKE_AMOUNT; balance, locked stakes and pool still add up to STAKE_AMOUNT |
| HabitManagerTests.WaitAndCheckIn | habify-contracts/test/HabitManager.ts:114-117 | one loop round: advance 25 h and check in, adding one to the streak, re-anchoring the window and minting a due, free milestone credential; tokens, custody and pool are untouched |
| HabitManagerTests.CheckInToFirstMilestone | habify-contracts/test/HabitManager.ts:113-127 | the test's loop of three rounds from a fresh challenge: the streak reaches 3, and the third check-in mints `user + 3` to the user when it is free and emits IssuanceFailed when it is taken; only the clock, the record and that credential change |
| HabitManagerTests.MilestoneAwardsCredential | habify-contracts/test/HabitManager.ts:104-131 | three check-ins 25 h apart leave streak 3; the third emits Transfer(0, user1, user1 + 3) and user1 owns credential user1 + 3 |
| HabitManagerTests.RestakeFindsMilestoneTaken | habify-contracts/test/HabitManager.ts:104-155 | the milestone test followed by a claim, a new approve and stake, and three more check-ins: the second streak of 3 emits IssuanceFailed(user1, user1 + 3) and CheckedIn(user1, 3), and user1 still owns credential user1 + 3 |
| HabitManagerTests.ClaimAfterCompletion | habify-contracts/test/HabitManager.ts:133-155 | with no check-in, a claim 7 days after staking emits RewardClaimed; user1's balance goes from 0 to STAKE_AMOUNT and the challenge closes |
| FriendsList.WithoutMembership | src/pages/Friends.tsx:17 | after removal an address is present exactly when it was present before and is not the removed one |
| FriendsList.WithoutConcat | src/pages/Friends.tsx:17 | removal distributes over concatenation, so the remaining entries keep their relative order |
| FriendsList.WithoutAbsent | src/pages/Friends.tsx:17 | removing an address that is not listed leaves the list unchanged |
| FriendsList.WithoutKeepsNoDuplicates | src/pages/Friends.tsx:17 | removal preserves "no duplicates" |
| FriendsList.AddKeepsNoDuplicates | src/pages/Friends.tsx:9-11 | adding preserves "no duplicates" |
| FriendsList.AddIdempotent | src/pages/Friends.tsx:9-11 | adding the same address twice is the same as adding it once |
| FriendsList.AddThenRemove | src/pages/Friends.tsx:11-17 | adding a fresh non-empty address and then removing it gives back the original list |
| FriendsList.FriendsPage.constructor | src/pages/Friends.tsx:5-6 | the page starts with an empty list and an empty address field |
| FriendsList.FriendsPage.SetNewFriendAddress | src/pages/Friends.tsx:31 | typing sets the address field and leaves the list alone |
| FriendsList.FriendsPage.HandleAddFriend | src/pages/Friends.tsx:8-14 | an empty or already listed address leaves list and field unchanged; otherwise the address is appended after the existing entries and the field is cleared; no duplicates is kept |
| FriendsList.FriendsPage.HandleRemoveFriend | src/pages/Friends.tsx:16-18 | every occurrence of the address is removed, the rest keep their order, the field is unchanged and no duplicates is kept |

## Left out

- ChallengePolicy.ClassifyBoundaries: the 24 h lower bound of the window and the inclusiveness of both ends are modelling choices. The tests show only that 5 min is too early, 25 h is on time and 49 h forfeits, and a comment names a 48-hour window; any lower bound in (5 min, 25 h] and either kind of end agree with them.
- HabitLedger.ClaimDue: a claim is due from `startTime + duration * DAY` on, inclusive (`>=`). This is a modelling choice; the test claims only after the full seven days, which cannot tell `>=` from `>`.
- Event lists (`Outcome.events`, `Receipt`) hold the ledger's events and the credential contract's mint `Transfer`. They leave out the collateral token's own ERC-20 `Transfer` and `Approval` events on stake, claim, mint and approve.

- The Solidity contracts `HabitManager`, `HabitStreakNFT` and `MockUSDC` are not part of this model. The ledger follows what the tests assert, plus the record layout the client reads.
- Rejections the tests never exercise are caller obligations (`requires`), not modelled reverts, because the tests pin neither their conditions nor their revert messages: staking while a challenge is open, checking in or claiming without an open challenge, and claiming before `duration` days have passed.
- `durationDays` is not required to be positive, because nothing in the code shows such a check.
- Token-level failures (allowance or balance too small on `stake`, custody too small on `claimReward`) are reverts. Their reasons are named after OpenZeppelin's ERC-20 errors, an assumption about `MockUSDC`. `LedgerProperties.ClaimPaysBack` proves that the custody failure cannot happen on a consistent ledger.
- Minting a credential whose id is already taken does not undo the check-in. It emits `IssuanceFailed` instead of `Transfer`, so that the collateral accounting never depends on the credential contract. This choice decides an ordinary case, not only a rare collision between two addresses: identifiers are `address + streak` whatever the challenge, so every later challenge of the same address that reaches streak 3 finds `address + 3` taken (`LedgerProperties.LaterMilestoneAlreadyIssued`, `HabitManagerTests.RestakeFindsMilestoneTaken`). If the contract mints with a reverting call, that check-in would revert instead and the later streak could not pass 2. The tests never reach this case.
- The order of `Transfer` and `CheckedIn` within a milestone check-in is an assumption; the tests only check that both are emitted.
- Integer widths: amounts, streaks and times are unbounded integers. Overflow of the amounts and times (uint256) is not modelled, nor that of the streak, whose width is narrower (the client reads it as a JavaScript `number`, so at most 48 bits). Addresses are below 2^160 and habit hashes below 2^256.
- The hash is opaque. `keccak256` and all wallet and contract I/O in `useHabitContract.ts` are foreign calls and are left out.
- The client stakes native ETH, while the tests stake a token. Collateral is one abstract unit, with `STAKE_AMOUNT` set to the client's 0.005 × 10^18.
- The trusted forwarder (meta-transactions) is left out. The sender is an explicit `user` parameter.
- The one-time transfer of NFT ownership to the ledger is assumed to have happened: the ledger mints credentials directly.
- Hardhat mines each transaction in a new block, one second after the previous one. The model's clock advances only by `IncreaseTime`.
- Token transfers between users and burns are not modelled, because the tests do not use them.
- `FriendRow.tsx` (display and floating-point progress), the other UI pages, and the `useLocalStorage` persistence of the friends list are left out. The list is an in-memory sequence that starts empty.
- The friends list does not validate address format. The source only notes that such a check could be added.

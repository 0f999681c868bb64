/**
  Fungible-token balances as a map from account to amount, an absent account
  holding nothing, and the total of all balances, which conservation is stated in.
 */
module TokenBalances {
  import opened ChallengePolicy

  /** The amount `m` records for `a` (a balance or an allowance); an account the map does not mention has zero. */
  function AmountOf(m: map<Address, nat>, a: Address): nat
  {
    if a in m then m[a] else 0
  }

  /** Some account of a non-empty set; used to take a map apart one key at a time. */
  ghost function Pick(s: set<Address>): (a: Address)
    requires s != {}
    ensures a in s
  {
    var a :| a in s; a
  }

  /** The sum of all balances in `m`. */
  ghost function Total(m: map<Address, nat>): nat
    decreases |m.Keys|
  {
    if m.Keys == {} then 0
    else
      var a := Pick(m.Keys);
      assert (m - {a}).Keys == m.Keys - {a};
      m[a] + Total(m - {a})
  }

  /** The total does not depend on which account is taken out first. */
  lemma {:induction false} TotalRemove(m: map<Address, nat>, a: Address)
    requires a in m
    ensures Total(m) == m[a] + Total(m - {a})
    decreases |m.Keys|
  {
    var b := Pick(m.Keys);
    if b != a {
      assert (m - {b}).Keys == m.Keys - {b};
      assert (m - {a}).Keys == m.Keys - {a};
      TotalRemove(m - {b}, a);
      TotalRemove(m - {a}, b);
      assert m - {b} - {a} == m - {a} - {b};
    }
  }

  /** Setting one balance changes the total by exactly the difference. */
  lemma TotalUpdate(m: map<Address, nat>, a: Address, v: nat)
    ensures Total(m[a := v]) + AmountOf(m, a) == Total(m) + v
  {
    TotalRemove(m[a := v], a);
    assert m[a := v] - {a} == m - {a};
    if a in m {
      TotalRemove(m, a);
    } else {
      assert m - {a} == m;
    }
  }

  /** Adding `amount` to one balance adds it to the total. */
  lemma TotalCredit(m: map<Address, nat>, a: Address, amount: nat)
    ensures Total(m[a := AmountOf(m, a) + amount]) == Total(m) + amount
  {
    TotalUpdate(m, a, AmountOf(m, a) + amount);
  }

  /** Taking `amount` from a balance that covers it takes it from the total. */
  lemma TotalDebit(m: map<Address, nat>, a: Address, amount: nat)
    requires amount <= AmountOf(m, a)
    ensures Total(m[a := AmountOf(m, a) - amount]) + amount == Total(m)
  {
    TotalUpdate(m, a, AmountOf(m, a) - amount);
  }
}

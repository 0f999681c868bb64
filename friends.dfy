/**
  The friends page's list of addresses: adding the typed address when it is
  non-empty and new, and removing an address wherever it occurs. The list
  transforms are functions; the page's state and its two handlers are a class.
 */
module FriendsList {

  /** No address occurs twice. */
  predicate NoDuplicates(s: seq<string>)
  {
    forall i, j | 0 <= i < j < |s| :: s[i] != s[j]
  }

  /** The list with every occurrence of `x` filtered out, the others kept in order. */
  function Without(friends: seq<string>, x: string): seq<string>
  {
    if friends == [] then []
    else (if friends[0] == x then [] else [friends[0]]) + Without(friends[1..], x)
  }

  /** The list after adding `candidate`: appended when it is non-empty and not yet present. */
  function AddFriend(friends: seq<string>, candidate: string): seq<string>
  {
    if candidate != "" && candidate !in friends then friends + [candidate] else friends
  }

  /** Removing keeps exactly the other addresses: `x` is gone, everything else is still there. */
  lemma {:induction false} WithoutMembership(friends: seq<string>, x: string, y: string)
    ensures y in Without(friends, x) <==> y in friends && y != x
  {
    if friends != [] {
      WithoutMembership(friends[1..], x, y);
      assert friends == [friends[0]] + friends[1..];
    }
  }

  /** Removing distributes over concatenation, so the relative order of the kept entries is unchanged. */
  lemma {:induction false} WithoutConcat(a: seq<string>, b: seq<string>, x: string)
    ensures Without(a + b, x) == Without(a, x) + Without(b, x)
  {
    if a == [] {
      assert a + b == b;
    } else {
      assert (a + b)[1..] == a[1..] + b;
      WithoutConcat(a[1..], b, x);
    }
  }

  /** Removing an address that is not listed changes nothing. */
  lemma {:induction false} WithoutAbsent(friends: seq<string>, x: string)
    requires x !in friends
    ensures Without(friends, x) == friends
  {
    if friends != [] {
      WithoutAbsent(friends[1..], x);
      assert friends == [friends[0]] + friends[1..];
    }
  }

  /** Removing preserves "no duplicates". */
  lemma {:induction false} WithoutKeepsNoDuplicates(friends: seq<string>, x: string)
    requires NoDuplicates(friends)
    ensures NoDuplicates(Without(friends, x))
  {
    if friends != [] {
      var rest := friends[1..];
      assert NoDuplicates(rest);
      WithoutKeepsNoDuplicates(rest, x);
      WithoutMembership(rest, x, friends[0]);
      assert friends[0] !in rest by {
        forall j | 0 <= j < |rest| ensures rest[j] != friends[0] {
          assert friends[j + 1] == rest[j];
        }
      }
    }
  }

  /** Adding preserves "no duplicates". */
  lemma AddKeepsNoDuplicates(friends: seq<string>, candidate: string)
    requires NoDuplicates(friends)
    ensures NoDuplicates(AddFriend(friends, candidate))
  {
  }

  /** Adding is idempotent: adding the same address twice is the same as adding it once. */
  lemma AddIdempotent(friends: seq<string>, candidate: string)
    ensures AddFriend(AddFriend(friends, candidate), candidate) == AddFriend(friends, candidate)
  {
  }

  /** Adding a fresh non-empty address and then removing it gives back the original list. */
  lemma AddThenRemove(friends: seq<string>, candidate: string)
    requires candidate != "" && candidate !in friends
    ensures Without(AddFriend(friends, candidate), candidate) == friends
  {
    WithoutConcat(friends, [candidate], candidate);
    WithoutAbsent(friends, candidate);
    assert Without([candidate], candidate) == [];
  }

  /** The page's state: the stored list and the text of the address field. */
  class FriendsPage {
    var friends: seq<string>
    var newFriendAddress: string

    ghost predicate Valid()
      reads this
    {
      NoDuplicates(friends)
    }

    /** An empty list and an empty field. */
    constructor ()
      ensures Valid() && friends == [] && newFriendAddress == ""
    {
      friends := [];
      newFriendAddress := "";
    }

    /** Typing into the address field. */
    method SetNewFriendAddress(value: string)
      modifies this
      ensures newFriendAddress == value && friends == old(friends)
    {
      newFriendAddress := value;
    }

    /**
      `handleAddFriend`: a non-empty new address is appended after the existing
      entries and the field is cleared; otherwise list and field stay as they were.
     */
    method HandleAddFriend()
      requires Valid()
      modifies this
      ensures Valid()
      ensures friends == AddFriend(old(friends), old(newFriendAddress))
      ensures var a := old(newFriendAddress);
        if a != "" && a !in old(friends) then
          friends == old(friends) + [a] && newFriendAddress == ""
        else
          friends == old(friends) && newFriendAddress == a
    {
      if newFriendAddress != "" && newFriendAddress !in friends {
        friends := friends + [newFriendAddress];
        newFriendAddress := "";
      }
    }

    /** `handleRemoveFriend(addressToRemove)`: every occurrence goes; the field is untouched. */
    method HandleRemoveFriend(addressToRemove: string)
      requires Valid()
      modifies this
      ensures Valid()
      ensures friends == Without(old(friends), addressToRemove)
      ensures addressToRemove !in friends
      ensures newFriendAddress == old(newFriendAddress)
    {
      WithoutKeepsNoDuplicates(friends, addressToRemove);
      WithoutMembership(friends, addressToRemove, addressToRemove);
      friends := Without(friends, addressToRemove);
    }
  }
}

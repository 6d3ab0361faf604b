/** client_t of src/chat/client.h and the functions of src/chat/client.c on one client. */
module Clients {
  import opened Wire
  import opened Options
  import opened Sessions

  /** 0, or 16 times a power of two. */
  predicate IsCapacity(n: nat)
  {
    n == 0 || n == 16 || (n > 16 && n % 2 == 0 && IsCapacity(n / 2))
  }

  class Client {
    const fd: nat
    const addr: Address
    const seed: u32
    var uin: u32
    var status: u32
    var descr: Option<Octets>
    var statusPrivate: bool
    var version: u32
    var imageSize: u32
    var state: LoginState
    var remove: bool
    var friends: array<Friend> // its length is friend_capacity
    var friendCount: nat
    ghost var adds: nat   // calls of AddFriend so far
    ghost var copied: nat // entries moved by growing the array so far

    ghost predicate Valid()
      reads this
    {
      && friendCount <= friends.Length && friendCount <= adds
      && IsCapacity(friends.Length)
      && (friends.Length == 0 ==> copied == 0)
      && (friends.Length > 0 ==> copied + 16 == friends.Length)
      && (friends.Length > 16 ==> friends.Length < 2 * adds)
    }

    /** The contact list as a sequence. */
    ghost function Friends(): seq<Friend>
      requires Valid()
      reads this, friends
    {
      friends[..friendCount]
    }

    ghost function View(): Session
      requires Valid()
      reads this, friends
    {
      Session(fd, addr, seed, state, uin, status, descr, statusPrivate, version, imageSize, remove, Friends())
    }

    constructor (fd: nat, addr: Address, seed: u32)
      ensures Valid() && fresh(friends)
      ensures View() == NewSession(fd, addr, seed)
      ensures adds == 0
    {
      this.fd, this.addr, this.seed := fd, addr, seed;
      uin, status, descr, statusPrivate := 0, STATUS_NOT_AVAIL, None, false;
      version, imageSize, state, remove := 0, 0, Login, false;
      friends := new Friend[0];
      friendCount, adds, copied := 0, 0, 0;
    }

    /** The fields a login sets. */
    method SetLogin(uin: u32, version: Option<u32>, imageSize: Option<u8>)
      requires Valid()
      modifies this`uin, this`state, this`status, this`version, this`imageSize
      ensures Valid() && View() == WithLogin(old(View()), uin, version, imageSize)
    {
      hide IsCapacity;
      this.uin := uin;
      state := LoginOk;
      status := STATUS_AVAIL;
      if version.Some? {
        this.version := version.value;
      }
      if imageSize.Some? {
        this.imageSize := imageSize.value;
      }
    }

    /** The fields a status packet sets. */
    method SetStatus(b: Octets)
      requires Valid() && |b| >= 4
      modifies this`status, this`statusPrivate, this`descr
      ensures Valid() && View() == WithStatus(old(View()), b)
    {
      hide WordAt, IsCapacity;
      var status := WordAt(b, 0);
      if status / STATUS_FRIENDS_MASK % 2 == 1 {
        status := status - STATUS_FRIENDS_MASK;
        statusPrivate := true;
      } else {
        statusPrivate := false;
      }
      this.status := status;
      descr := None;
      if |b| > 4 {
        descr := Some(b[4..]);
      }
    }

    /** realloc to twice the size, or to 16. */
    method Grow()
      requires Valid() && friendCount == friends.Length
      modifies this`friends, this`copied
      ensures fresh(friends) && friends.Length == if friendCount == 0 then 16 else 2 * friendCount
      ensures friends[..friendCount] == old(friends[..friendCount])
      ensures copied == old(copied) + friendCount
    {
      var bigger := new Friend[if friends.Length == 0 then 16 else friends.Length * 2];
      for i := 0 to friendCount
        invariant unchanged(this) && unchanged(friends)
        invariant bigger[..i] == friends[..i]
      {
        bigger[i] := friends[i];
      }
      friends := bigger;
      copied := copied + friendCount;
    }

    method AddFriend(uin: u32, flags: u8)
      requires Valid()
      modifies this`friends, this`friendCount, this`adds, this`copied, friends
      ensures Valid()
      ensures friends == old(friends) || fresh(friends)
      ensures Friends() == old(Friends()) + [Friend(uin, flags)]
      ensures adds == old(adds) + 1
    {
      if friendCount >= friends.Length {
        Grow();
      }
      friends[friendCount] := Friend(uin, flags);
      friendCount := friendCount + 1;
      adds := adds + 1;
    }

    /** Amortized growth: with any removals in between, n additions move fewer than 2n
        entries. */
    lemma FewCopies()
      requires Valid() && adds >= 1
      ensures copied < 2 * adds
    {}

    method FindFriend(uin: u32) returns (at: Option<nat>)
      requires Valid()
      ensures at == FriendAt(Friends(), uin)
    {
      for i := 0 to friendCount
        invariant forall k :: 0 <= k < i ==> friends[k].uin != uin
      {
        if friends[i].uin == uin {
          return Some(i);
        }
      }
      return None;
    }

    /** memmove of everything behind entry i. */
    method CloseGap(i: nat)
      requires i < friendCount <= friends.Length
      modifies friends
      ensures forall k :: 0 <= k < i ==> friends[k] == old(friends[k])
      ensures forall k :: i <= k < friendCount - 1 ==> friends[k] == old(friends[k + 1])
    {
      forall k | i <= k < friendCount - 1 {
        friends[k] := friends[k + 1];
      }
    }

    /** The first entry with this number goes. */
    method RemoveFriend(uin: u32)
      requires Valid()
      modifies this`friendCount, friends
      ensures Valid()
      ensures Friends() == Without(old(Friends()), uin)
    {
      hide IsCapacity, FriendAt, Without;
      var at := FindFriend(uin);
      if at.None? {
        WithoutNone(Friends(), uin);
      } else {
        ghost var before, i := Friends(), at.value;
        CloseGap(at.value);
        friendCount := friendCount - 1;
        GapClosed(before, Friends(), i);
        WithoutAt(before, uin, i);
      }
    }
  }

  lemma GapClosed(before: seq<Friend>, after: seq<Friend>, i: nat)
    requires i < |before| == |after| + 1
    requires forall k :: 0 <= k < i ==> after[k] == before[k]
    requires forall k :: i <= k < |after| ==> after[k] == before[k + 1]
    ensures after == before[..i] + before[i + 1..]
  {}

  lemma WithoutNone(friends: seq<Friend>, uin: u32)
    requires FriendAt(friends, uin) == None
    ensures Without(friends, uin) == friends
  {
    hide FriendAt;
  }

  lemma WithoutAt(friends: seq<Friend>, uin: u32, i: nat)
    requires FriendAt(friends, uin) == Some(i)
    ensures Without(friends, uin) == friends[..i] + friends[i + 1..]
  {
    hide FriendAt;
  }

  /** Removing an entry does what it says: the first occurrence goes, order stays, and
      entries with other numbers keep their multiplicity. */
  lemma WithoutRemovesOne(friends: seq<Friend>, uin: u32)
    ensures match FriendAt(friends, uin)
            case None => Without(friends, uin) == friends
            case Some(i) =>
              multiset(friends) == multiset(Without(friends, uin)) + multiset{friends[i]}
  {
    hide FriendAt;
    var at := FriendAt(friends, uin);
    if at.Some? {
      var i, f := at.value, friends[at.value];
      calc {
        multiset(friends);
        { assert friends == friends[..i] + ([f] + friends[i + 1..]); }
        multiset(friends[..i]) + (multiset{f} + multiset(friends[i + 1..]));
        multiset(friends[..i] + friends[i + 1..]) + multiset{f};
      }
    }
  }
}

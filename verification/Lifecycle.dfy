/** What holds of every session and of the slot table in every reachable state, under any
    schedule. */
module Lifecycle {
  import opened Wire
  import opened Options
  import opened Users
  import opened Sessions

  /** Before login a session has nothing; after it, a fixed registered number. */
  ghost predicate Healthy(users: Table, s: Session)
  {
    && (s.state == Login ==>
         s.uin == 0 && s.status == STATUS_NOT_AVAIL && s.descr == None && s.friends == [])
    && (s.state == LoginOk ==> Taken(users, s.uin) && UIN_MIN <= s.uin <= UIN_MAX)
    && (s.state == LoginOk && !s.remove ==> !Leaving(s))
    && s.status / STATUS_FRIENDS_MASK % 2 == 0
  }

  /** What no step may do to a session: log it out, change its number, unmark it, or
      change anything once it is marked for removal. */
  ghost predicate Evolves(s: Session, s': Session)
  {
    && s'.fd == s.fd && s'.addr == s.addr && s'.seed == s.seed
    && (s.state == LoginOk ==> s'.state == LoginOk && s'.uin == s.uin)
    && (s.remove ==> s' == s)
  }

  ghost predicate AllHealthy(users: Table, slots: Slots)
  {
    forall i :: 0 <= i < MAX_CLIENTS && slots[i].Some? ==> Healthy(users, slots[i].value)
  }

  ghost predicate AllEvolve(slots: Slots, slots': Slots)
  {
    forall i :: 0 <= i < MAX_CLIENTS && slots[i].Some? && slots'[i].Some? ==> Evolves(slots[i].value, slots'[i].value)
  }

  /** No two sessions share a connection. */
  ghost predicate FdsDistinct(slots: Slots)
  {
    forall i, j :: 0 <= i < j < MAX_CLIENTS && slots[i].Some? && slots[j].Some? ==>
        slots[i].value.fd != slots[j].value.fd
  }

  ghost function Occupied(slots: Slots): set<nat>
  {
    set i | 0 <= i < MAX_CLIENTS && slots[i].Some?
  }

  ghost predicate Inv(s: Server)
  {
    && InRange(s.users)
    && AllHealthy(s.users, s.slots)
    && FdsDistinct(s.slots)
    && s.count == |Occupied(s.slots)|
  }

  /** What a handler of slot c does to the table: it neither fills nor empties a slot, it
      changes c as allowed, and other sessions at most get marked. */
  ghost predicate Tame(users: Table, slots: Slots, c: nat, after: Slots)
    requires c < MAX_CLIENTS
  {
    && (forall i :: 0 <= i < MAX_CLIENTS ==> slots[i].Some? == after[i].Some?)
    && (forall i :: 0 <= i < MAX_CLIENTS && i != c && slots[i].Some? ==>
         after[i] == slots[i] || after[i].value == slots[i].value.(remove := true))
    && (slots[c].Some? ==> Evolves(slots[c].value, after[c].value) && Healthy(users, after[c].value))
  }

  lemma FailedIsTame(users: Table, slots: Slots, c: nat)
    requires Live(slots, c) && Healthy(users, slots[c].value) && !slots[c].value.remove
    ensures Tame(users, slots, c, LoginFailed(slots, c).slots)
  {}

  lemma SupersedeMarks(slots: Slots, c: nat, uin: u32)
    requires Live(slots, c) && slots[c].value.uin != uin
    ensures var after := Supersede(slots, uin).slots;
            && after[c] == slots[c]
            && (forall i :: 0 <= i < MAX_CLIENTS ==> slots[i].Some? == after[i].Some?)
            && (forall i :: 0 <= i < MAX_CLIENTS && slots[i].Some? ==>
                 after[i] == slots[i] || after[i].value == slots[i].value.(remove := true))
  {
    hide Find;
  }

  lemma LoggedInIsTame(users: Table, slots: Slots, c: nat, uin: u32, version: Option<u32>, imageSize: Option<u8>)
    requires Live(slots, c) && Healthy(users, slots[c].value) && !slots[c].value.remove
    requires slots[c].value.state == Login && Taken(users, uin) && InRange(users)
    ensures Tame(users, slots, c, LoggedIn(slots, c, uin, version, imageSize).slots)
  {
    hide ChangedStatus, Supersede;
    SupersedeMarks(slots, c, uin);
  }

  lemma AcceptedIsTaken(users: Table, uin: u32, seed: u32, hash: u32)
    requires HashAccepted(users, uin, seed, hash)
    ensures Taken(users, uin)
  {
    hide Protocol.LoginHash;
  }

  lemma DigestIsTaken(users: Table, uin: u32, seed: u32, response: Octets)
    requires DigestAccepted(users, uin, seed, response)
    ensures Taken(users, uin)
  {
    hide Protocol.LoginDigest;
  }

  lemma LoginIsTame(users: Table, slots: Slots, c: nat, b: Octets, size: nat, version: Option<u32>,
                    imageSize: Option<u8>)
    requires Live(slots, c) && size >= 8
    requires Healthy(users, slots[c].value) && !slots[c].value.remove && InRange(users)
    ensures Tame(users, slots, c, HandleLogin(users, slots, c, b, size, version, imageSize).slots)
  {
    hide HashAccepted, LoginFailed, LoggedIn, WordAt;
    if size <= |b| && slots[c].value.state == Login {
      if HashAccepted(users, WordAt(b, 0), slots[c].value.seed, WordAt(b, 4)) {
        AcceptedIsTaken(users, WordAt(b, 0), slots[c].value.seed, WordAt(b, 4));
        LoggedInIsTame(users, slots, c, WordAt(b, 0), version, imageSize);
      } else {
        FailedIsTame(users, slots, c);
      }
    }
  }

  lemma Login70IsTame(users: Table, slots: Slots, c: nat, b: Octets, env: Env)
    requires Live(slots, c)
    requires Healthy(users, slots[c].value) && !slots[c].value.remove && InRange(users)
    ensures Tame(users, slots, c, Login70(users, slots, c, b, env).slots)
  {
    hide HashAccepted, DigestAccepted, LoginFailed, LoggedIn, WordAt;
    if |b| >= 92 && slots[c].value.state == Login {
      var uin, seed := WordAt(b, 0), slots[c].value.seed;
      FailedIsTame(users, slots, c);
      if b[4] == HASH_GG32 && HashAccepted(users, uin, seed, env.hashAddress) {
        AcceptedIsTaken(users, uin, seed, env.hashAddress);
        LoggedInIsTame(users, slots, c, uin, Some(WordAt(b, 73)), Some(b[90]));
      } else if b[4] == HASH_SHA1 && DigestAccepted(users, uin, seed, b[5..69]) {
        DigestIsTaken(users, uin, seed, b[5..69]);
        LoggedInIsTame(users, slots, c, uin, Some(WordAt(b, 73)), Some(b[90]));
      }
    }
  }

  lemma NewStatusIsTame(users: Table, slots: Slots, c: nat, b: Octets)
    requires Live(slots, c) && Healthy(users, slots[c].value) && !slots[c].value.remove
    ensures Tame(users, slots, c, NewStatus(slots, c, b).slots)
  {
    hide WordAt, DescrRound, ChangedStatus;
    if slots[c].value.state == LoginOk && |b| >= 4 {
      MaskCleared(WordAt(b, 0));
    }
  }

  lemma MaskCleared(status: u32)
    ensures WithoutMask(status) / STATUS_FRIENDS_MASK % 2 == 0
  {}

  lemma NewListIsTame(users: Table, slots: Slots, c: nat, friends: seq<Friend>)
    requires Live(slots, c) && Healthy(users, slots[c].value) && !slots[c].value.remove
             && slots[c].value.state == LoginOk
    ensures Tame(users, slots, c, Put(slots, c, slots[c].value.(friends := friends)))
  {}

  lemma ListsAreTame(users: Table, slots: Slots, c: nat, b: Octets)
    requires Live(slots, c) && Healthy(users, slots[c].value) && !slots[c].value.remove
    ensures Tame(users, slots, c, NotifyFirst(slots, c, b).slots)
    ensures Tame(users, slots, c, NotifyLast(slots, c, b).slots)
    ensures Tame(users, slots, c, AddNotify(slots, c, b).slots)
    ensures Tame(users, slots, c, RemoveNotify(slots, c, b).slots)
  {
    hide WordAt, Contacts, Replies, Announce, ChangedStatus, Without, FindSession, Tame, Healthy;
    NoChangeIsTame(users, slots, c);
    var s := slots[c].value;
    if s.state == LoginOk {
      NewListIsTame(users, slots, c, s.friends + Contacts(b));
      if |b| >= 5 {
        NewListIsTame(users, slots, c, s.friends + [Friend(WordAt(b, 0), b[4])]);
        NewListIsTame(users, slots, c, Without(s.friends, WordAt(b, 0)));
      }
    }
  }

  lemma NoChangeIsTame(users: Table, slots: Slots, c: nat)
    requires Live(slots, c) && Healthy(users, slots[c].value)
    ensures Tame(users, slots, c, slots)
  {}

  lemma HandleIsTame(users: Table, slots: Slots, c: nat, p: Packet, env: Env)
    requires Live(slots, c) && Healthy(users, slots[c].value) && InRange(users)
    ensures Tame(users, slots, c, Handle(users, slots, c, p, env).slots)
  {
    hide Login31, Login50, Login60, Login70, NewStatus, NotifyFirst, NotifyLast, AddNotify, RemoveNotify,
         WordAt, FindSession, Tame, Healthy;
    var b := p.body;
    NoChangeIsTame(users, slots, c);
    if !slots[c].value.remove {
      ListsAreTame(users, slots, c, b);
      if p.kind == LOGIN31 || p.kind == LOGIN50 || p.kind == LOGIN60 {
        LoginsAreTame(users, slots, c, b);
      } else if p.kind == LOGIN70 {
        Login70IsTame(users, slots, c, b, env);
      } else if p.kind == NEW_STATUS {
        NewStatusIsTame(users, slots, c, b);
      }
    }
  }

  lemma LoginsAreTame(users: Table, slots: Slots, c: nat, b: Octets)
    requires Live(slots, c)
    requires Healthy(users, slots[c].value) && !slots[c].value.remove && InRange(users)
    ensures Tame(users, slots, c, Login31(users, slots, c, b).slots)
    ensures Tame(users, slots, c, Login50(users, slots, c, b).slots)
    ensures Tame(users, slots, c, Login60(users, slots, c, b).slots)
  {
    hide HandleLogin, WordAt;
    LoginIsTame(users, slots, c, b, 12, None, None);
    LoginIsTame(users, slots, c, b, 22, if |b| < 22 then None else Some(WordAt(b, 12)), None);
    LoginIsTame(users, slots, c, b, 31, if |b| < 31 then None else Some(WordAt(b, 12)),
                if |b| < 31 then None else Some(b[29]));
  }

  // ---- one step ----

  lemma DeliverKeepsInv(s: Server, e: Event)
    requires Inv(s) && e.Deliver? && Live(s.slots, e.c)
    ensures Inv(Next(s, e)) && AllEvolve(s.slots, Next(s, e).slots)
  {
    hide Handle;
    HandleIsTame(s.users, s.slots, e.c, e.packet, e.env);
    assert Occupied(Next(s, e).slots) == Occupied(s.slots);
  }

  /** The insert loop never loses a session: while the counter is below the maximum there
      is a free slot, and the counter refuses only when there is none. */
  lemma FreeSlotIffRoom(s: Server)
    requires Inv(s)
    ensures FreeSlot(s.slots, 0).Some? <==> s.count < MAX_CLIENTS
    ensures s.count <= MAX_CLIENTS
  {
    hide AllHealthy, FdsDistinct, FreeSlot;
    var free := FreeSlot(s.slots, 0);
    if free.Some? {
      RoomLeft(s.slots, free.value);
    } else {
      Full(s.slots);
    }
  }

  lemma RoomLeft(slots: Slots, i: nat)
    requires i < MAX_CLIENTS && slots[i].None?
    ensures |Occupied(slots)| < MAX_CLIENTS
  {
    var all, taken := UpTo(MAX_CLIENTS), Occupied(slots);
    assert i !in taken && taken + {i} <= all by { hide UpTo; }
    hide *;
    Subset(taken + {i}, all);
  }

  lemma Full(slots: Slots)
    requires forall i :: 0 <= i < MAX_CLIENTS ==> slots[i].Some?
    ensures |Occupied(slots)| == MAX_CLIENTS
  {
    hide UpTo;
    assert Occupied(slots) == UpTo(MAX_CLIENTS);
  }

  ghost function UpTo(n: nat): (r: set<nat>)
    ensures |r| == n
    ensures forall i: nat :: i in r <==> i < n
  {
    if n == 0 then {} else UpTo(n - 1) + {n - 1}
  }

  lemma {:induction false} Subset(a: set<nat>, b: set<nat>)
    requires a <= b
    ensures |a| <= |b|
    decreases a
  {
    if a != {} {
      var x :| x in a;
      Subset(a - {x}, b - {x});
    }
  }

  lemma AcceptKeepsInv(s: Server, e: Event)
    requires Inv(s) && e.Accept? && Enabled(s, e)
    ensures Inv(Next(s, e)) && AllEvolve(s.slots, Next(s, e).slots)
  {
    hide FreeSlot, AllHealthy, FdsDistinct, AllEvolve, Occupied, Healthy, InRange, NewSession;
    FreeSlotIffRoom(s);
    if s.count < MAX_CLIENTS {
      NewIsHealthy(s.users, e.fd, e.addr, e.seed);
      FillSlot(s, FreeSlot(s.slots, 0).value, NewSession(e.fd, e.addr, e.seed));
    } else {
      NothingEvolves(s.slots);
    }
  }

  lemma NewIsHealthy(users: Table, fd: nat, addr: Address, seed: u32)
    ensures Healthy(users, NewSession(fd, addr, seed)) && NewSession(fd, addr, seed).fd == fd
  {}

  lemma NothingEvolves(slots: Slots)
    ensures AllEvolve(slots, slots)
  {}

  lemma FillSlot(s: Server, i: nat, n: Session)
    requires Inv(s) && i < MAX_CLIENTS && s.slots[i].None? && Healthy(s.users, n)
    requires forall j :: 0 <= j < MAX_CLIENTS && s.slots[j].Some? ==> s.slots[j].value.fd != n.fd
    ensures var after := s.slots[i := Some(n)];
            AllHealthy(s.users, after) && FdsDistinct(after) && AllEvolve(s.slots, after) &&
            |Occupied(after)| == s.count + 1
  {
    hide Healthy;
    assert Occupied(s.slots[i := Some(n)]) == Occupied(s.slots) + {i};
  }

  lemma CloseKeepsInv(s: Server, e: Event)
    requires Inv(s) && e.Close? && Enabled(s, e)
    ensures Inv(Next(s, e)) && AllEvolve(s.slots, Next(s, e).slots)
  {
    EmptySlot(s.users, s.slots, e.c);
    hide Occupied, AllHealthy, FdsDistinct, AllEvolve;
  }

  lemma EmptySlot(users: Table, slots: Slots, i: nat)
    requires AllHealthy(users, slots) && FdsDistinct(slots) && Live(slots, i)
    ensures var after := slots[i := None];
            AllHealthy(users, after) && FdsDistinct(after) && AllEvolve(slots, after) &&
            |Occupied(slots)| == |Occupied(after)| + 1
  {
    hide Healthy;
    assert Occupied(slots) == Occupied(slots[i := None]) + {i};
  }

  lemma SignUpKeepsInv(s: Server, e: Event)
    requires Inv(s) && e.SignUp? && Enabled(s, e)
    ensures Inv(Next(s, e)) && AllEvolve(s.slots, Next(s, e).slots)
  {
    var r :| Registered(s.users, e.request, r, e.users);
    RegisteredKeeps(s.users, e.request, r, e.users);
  }

  lemma StepKeepsInv(s: Server, e: Event)
    requires Inv(s) && Enabled(s, e)
    ensures Inv(Next(s, e)) && AllEvolve(s.slots, Next(s, e).slots)
  {
    hide Inv, Next, AllEvolve;
    match e
    case Accept(_, _, _) => AcceptKeepsInv(s, e);
    case Deliver(_, _, _) => DeliverKeepsInv(s, e);
    case Close(_) => CloseKeepsInv(s, e);
    case SignUp(_, _) => SignUpKeepsInv(s, e);
  }

  // ---- every run ----

  lemma InitialInv(s: Server)
    requires Initial(s)
    ensures Inv(s)
  {
    assert Occupied(s.slots) == {};
  }

  /** Every reachable state, under any schedule: every session is healthy, no two share a
      connection, and the counter is the number of occupied slots. */
  lemma {:induction false} Reachable(ss: seq<Server>, es: seq<Event>, k: nat)
    requires Run(ss, es) && k < |ss|
    ensures Inv(ss[k])
  {
    hide Inv, Next;
    if k == 0 {
      InitialInv(ss[0]);
    } else {
      Reachable(ss, es, k - 1);
      assert Steps(ss[k - 1], es[k - 1], ss[k]);
      StepKeepsInv(ss[k - 1], es[k - 1]);
    }
  }

  /** While a session stays in its slot: it keeps its number once logged in, a mark for
      removal is never taken back, and a marked session does not change any more. */
  lemma {:induction false} MarkIsFinal(ss: seq<Server>, es: seq<Event>, i: nat, j: nat, k: nat)
    requires Run(ss, es) && j <= k < |ss| && i < MAX_CLIENTS
    requires forall n :: j <= n <= k ==> ss[n].slots[i].Some?
    ensures Evolves(ss[j].slots[i].value, ss[k].slots[i].value)
    decreases k
  {
    hide Inv, Next;
    if j < k {
      MarkIsFinal(ss, es, i, j, k - 1);
      Reachable(ss, es, k - 1);
      assert Steps(ss[k - 1], es[k - 1], ss[k]);
      StepKeepsInv(ss[k - 1], es[k - 1]);
    }
  }

  /** client_create gets a session into the table iff fewer than the maximum are there. */
  lemma CreationSucceeds(ss: seq<Server>, es: seq<Event>, k: nat, fd: nat, addr: Address, seed: u32)
    requires Run(ss, es) && k < |ss|
    ensures (exists i :: 0 <= i < MAX_CLIENTS && ss[k].slots[i].None? &&
              Next(ss[k], Accept(fd, addr, seed)).slots[i] == Some(NewSession(fd, addr, seed)))
       <==> |Occupied(ss[k].slots)| < MAX_CLIENTS
  {
    Reachable(ss, es, k);
    FreeSlotIffRoom(ss[k]);
  }
}

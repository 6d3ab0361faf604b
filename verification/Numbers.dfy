/** One session per number: exactly when it holds, for every event and every run. */
module Numbers {
  import opened Wire
  import opened Options
  import opened Users
  import opened Sessions
  import opened Lifecycle

  predicate Unmarked(slots: Slots, i: nat)
  {
    Live(slots, i) && !slots[i].value.remove
  }

  /** Session u is logged in and stays: its number and status are what others should know. */
  predicate Known(slots: Slots, u: nat)
  {
    Unmarked(slots, u) && slots[u].value.state == LoginOk
  }

  /** Among the sessions not marked for removal, a nonzero number occurs once. */
  ghost predicate OnePerUin(slots: Slots)
  {
    forall i, j :: 0 <= i < j < MAX_CLIENTS && Unmarked(slots, i) && Unmarked(slots, j) && slots[i].value.uin != 0
      ==> slots[i].value.uin != slots[j].value.uin
  }

  /** client_find returns the unmarked session of this number, if there is one. */
  ghost predicate FindsUnmarked(slots: Slots, uin: u32)
  {
    forall i :: 0 <= i < MAX_CLIENTS && Unmarked(slots, i) && slots[i].value.uin == uin ==> Find(slots, uin) == Some(i)
  }

  // ---- what a packet does to the numbers ----

  /** This packet logs the session in; its first word is the number. */
  predicate LoginAccepted(users: Table, s: Session, p: Packet, env: Env)
  {
    && !s.remove && s.state == Login
    && ((p.kind == LOGIN31 && |p.body| >= 12 && HashAccepted(users, WordAt(p.body, 0), s.seed, WordAt(p.body, 4)))
        || (p.kind == LOGIN50 && |p.body| >= 22 && HashAccepted(users, WordAt(p.body, 0), s.seed, WordAt(p.body, 4)))
        || (p.kind == LOGIN60 && |p.body| >= 31 && HashAccepted(users, WordAt(p.body, 0), s.seed, WordAt(p.body, 4)))
        || (p.kind == LOGIN70 && |p.body| >= 92 && p.body[4] == HASH_GG32
            && HashAccepted(users, WordAt(p.body, 0), s.seed, env.hashAddress))
        || (p.kind == LOGIN70 && |p.body| >= 92 && p.body[4] == HASH_SHA1
            && DigestAccepted(users, WordAt(p.body, 0), s.seed, p.body[5..69])))
  }

  /** A login as uin: the session client_find returns gets marked, c has the number. */
  ghost predicate Enters(slots: Slots, c: nat, uin: u32, after: Slots)
    requires Live(slots, c)
  {
    && Unmarked(after, c) && after[c].value.uin == uin
    && forall i :: 0 <= i < MAX_CLIENTS && i != c ==>
         after[i] == if Find(slots, uin) == Some(i) then Some(slots[i].value.(remove := true)) else slots[i]
  }

  /** Any other packet: no session but c changes, and c keeps its number. */
  ghost predicate Stays(slots: Slots, c: nat, after: Slots)
    requires Live(slots, c)
  {
    && Live(after, c) && after[c].value.uin == slots[c].value.uin
    && (slots[c].value.remove ==> after[c].value.remove)
    && forall i :: 0 <= i < MAX_CLIENTS && i != c ==> after[i] == slots[i]
  }

  lemma LoggedInEnters(slots: Slots, c: nat, uin: u32, version: Option<u32>, imageSize: Option<u8>)
    requires Unmarked(slots, c) && slots[c].value.uin == 0 && uin != 0
    ensures Enters(slots, c, uin, LoggedIn(slots, c, uin, version, imageSize).slots)
  {
    hide ChangedStatus, FindFrom;
  }

  lemma HashLoginSplits(users: Table, slots: Slots, c: nat, b: Octets, size: nat,
                        version: Option<u32>, imageSize: Option<u8>)
    requires Live(slots, c) && size >= 8 && Healthy(users, slots[c].value) && !slots[c].value.remove && InRange(users)
    ensures var after := HandleLogin(users, slots, c, b, size, version, imageSize).slots;
            if slots[c].value.state == Login && |b| >= size
               && HashAccepted(users, WordAt(b, 0), slots[c].value.seed, WordAt(b, 4))
            then WordAt(b, 0) != 0 && Enters(slots, c, WordAt(b, 0), after)
            else Stays(slots, c, after)
  {
    hide HashAccepted, LoggedIn, WordAt, Enters;
    if slots[c].value.state == Login && |b| >= size {
      if HashAccepted(users, WordAt(b, 0), slots[c].value.seed, WordAt(b, 4)) {
        AcceptedIsTaken(users, WordAt(b, 0), slots[c].value.seed, WordAt(b, 4));
        LoggedInEnters(slots, c, WordAt(b, 0), version, imageSize);
      }
    }
  }

  lemma Login70Splits(users: Table, slots: Slots, c: nat, b: Octets, env: Env)
    requires Live(slots, c) && Healthy(users, slots[c].value) && !slots[c].value.remove && InRange(users)
    ensures var after := Login70(users, slots, c, b, env).slots;
            if LoginAccepted(users, slots[c].value, Packet(LOGIN70, b), env)
            then WordAt(b, 0) != 0 && Enters(slots, c, WordAt(b, 0), after)
            else Stays(slots, c, after)
  {
    hide HashAccepted, DigestAccepted, LoggedIn, WordAt, Enters;
    if slots[c].value.state == Login && |b| >= 92 {
      var uin, seed := WordAt(b, 0), slots[c].value.seed;
      if HashAccepted(users, uin, seed, env.hashAddress) {
        AcceptedIsTaken(users, uin, seed, env.hashAddress);
        LoggedInEnters(slots, c, uin, Some(WordAt(b, 73)), Some(b[90]));
      }
      if DigestAccepted(users, uin, seed, b[5..69]) {
        DigestIsTaken(users, uin, seed, b[5..69]);
        LoggedInEnters(slots, c, uin, Some(WordAt(b, 73)), Some(b[90]));
      }
    }
  }

  lemma OthersStay(users: Table, slots: Slots, c: nat, p: Packet, env: Env)
    requires Live(slots, c) && !slots[c].value.remove
    requires p.kind != LOGIN31 && p.kind != LOGIN50 && p.kind != LOGIN60 && p.kind != LOGIN70
    ensures Stays(slots, c, Handle(users, slots, c, p, env).slots)
  {
    hide WordAt, Contacts, Without, FindSession, Replies, Announce, ChangedStatus, DescrRound, HandleLogin, Login70;
  }

  /** Every packet is one or the other. */
  lemma HandleSplits(users: Table, slots: Slots, c: nat, p: Packet, env: Env)
    requires Live(slots, c) && Healthy(users, slots[c].value) && InRange(users)
    ensures var after := Handle(users, slots, c, p, env).slots;
            if LoginAccepted(users, slots[c].value, p, env)
            then |p.body| >= 12 && WordAt(p.body, 0) != 0 && slots[c].value.uin == 0
                && Enters(slots, c, WordAt(p.body, 0), after)
            else Stays(slots, c, after)
  {
    var b := p.body;
    hide HandleLogin, Login70, WordAt, HashAccepted, DigestAccepted, NotifyFirst, NotifyLast, UserlistRequest,
        NewStatus,
         AddNotify, RemoveNotify, SendMessage, Enters, Find;
    if !slots[c].value.remove {
      if p.kind == LOGIN31 {
        HashLoginSplits(users, slots, c, b, 12, None, None);
      } else if p.kind == LOGIN50 {
        HashLoginSplits(users, slots, c, b, 22, if |b| < 22 then None else Some(WordAt(b, 12)), None);
      } else if p.kind == LOGIN60 {
        HashLoginSplits(users, slots, c, b, 31, if |b| < 31 then None else Some(WordAt(b, 12)),
                        if |b| < 31 then None else Some(b[29]));
      } else if p.kind == LOGIN70 {
        Login70Splits(users, slots, c, b, env);
        assert p == Packet(LOGIN70, b);
      } else {
        OthersStay(users, slots, c, p, env);
      }
    }
  }

  // ---- exactly when numbers stay apart ----

  lemma EntersUniqueIff(slots: Slots, c: nat, uin: u32, after: Slots)
    requires Unmarked(slots, c) && slots[c].value.uin == 0 && uin != 0 && Enters(slots, c, uin, after)
             && OnePerUin(slots)
    ensures OnePerUin(after) <==> FindsUnmarked(slots, uin)
  {
    hide Find;
    forall i | 0 <= i < MAX_CLIENTS && Unmarked(slots, i) && slots[i].value.uin == uin && Find(slots, uin) != Some(i)
      ensures !OnePerUin(after)
    {
      assert Unmarked(after, i) && after[i].value.uin == uin && i != c;
    }
  }

  lemma LoginKeepsUniqueIff(slots: Slots, c: nat, uin: u32, version: Option<u32>, imageSize: Option<u8>)
    requires Unmarked(slots, c) && OnePerUin(slots) && slots[c].value.uin == 0 && uin != 0
    ensures OnePerUin(LoggedIn(slots, c, uin, version, imageSize).slots) <==> FindsUnmarked(slots, uin)
  {
    LoggedInEnters(slots, c, uin, version, imageSize);
    hide *;
    EntersUniqueIff(slots, c, uin, LoggedIn(slots, c, uin, version, imageSize).slots);
  }

  lemma StaysUnique(slots: Slots, c: nat, after: Slots)
    requires Live(slots, c) && Stays(slots, c, after) && OnePerUin(slots)
    ensures OnePerUin(after)
  {
    assert forall i :: 0 <= i < MAX_CLIENTS && Unmarked(after, i) ==>
      Unmarked(slots, i) && after[i].value.uin == slots[i].value.uin;
  }

  /** If this event is a login, client_find returns the unmarked session of its number
      whenever there is one. */
  ghost predicate SafeLogin(s: Server, e: Event)
    requires Enabled(s, e)
  {
    e.Deliver? && LoginAccepted(s.users, s.slots[e.c].value, e.packet, e.env) ==>
      FindsUnmarked(s.slots, WordAt(e.packet.body, 0))
  }

  /** Every event keeps the numbers apart iff it is a safe login or no login. */
  lemma StepUniqueIff(s: Server, e: Event)
    requires Inv(s) && Enabled(s, e) && OnePerUin(s.slots)
    ensures OnePerUin(Next(s, e).slots) <==> SafeLogin(s, e)
  {
    match e
    case Accept(fd, addr, seed) => AcceptUnique(s, e);
    case Deliver(c, p, env) =>
      HandleSplits(s.users, s.slots, c, p, env);
      hide Handle, LoginAccepted, Enters, Stays, OnePerUin, FindsUnmarked, WordAt;
      if LoginAccepted(s.users, s.slots[c].value, p, env) {
        AcceptedIsUnmarked(s.users, s.slots[c].value, p, env);
        EntersUniqueIff(s.slots, c, WordAt(p.body, 0), Next(s, e).slots);
      } else {
        StaysUnique(s.slots, c, Next(s, e).slots);
      }
    case Close(_) => CloseUnique(s, e);
    case SignUp(_, _) =>
  }

  lemma AcceptedIsUnmarked(users: Table, s: Session, p: Packet, env: Env)
    requires LoginAccepted(users, s, p, env)
    ensures !s.remove
  {}

  lemma AcceptUnique(s: Server, e: Event)
    requires OnePerUin(s.slots) && e.Accept?
    ensures OnePerUin(Next(s, e).slots)
  {
    assert NewSession(e.fd, e.addr, e.seed).uin == 0;
  }

  lemma CloseUnique(s: Server, e: Event)
    requires OnePerUin(s.slots) && e.Close? && Live(s.slots, e.c)
    ensures OnePerUin(Next(s, e).slots)
  {
    assert forall i :: 0 <= i < MAX_CLIENTS && Unmarked(Next(s, e).slots, i) ==>
      Unmarked(s.slots, i) && Next(s, e).slots[i] == s.slots[i];
  }

  ghost predicate SafeLogins(ss: seq<Server>, es: seq<Event>, k: nat)
    requires Run(ss, es) && k <= |es|
  {
    forall n :: 0 <= n < k ==> Steps(ss[n], es[n], ss[n + 1]) && SafeLogin(ss[n], es[n])
  }

  /** Over a run: the numbers are apart in every state iff every login of the run is safe. */
  lemma {:induction false} RunUniqueIff(ss: seq<Server>, es: seq<Event>, k: nat)
    requires Run(ss, es) && k <= |es|
    ensures (forall n :: 0 <= n <= k ==> OnePerUin(ss[n].slots)) <==> SafeLogins(ss, es, k)
  {
    hide SafeLogin, OnePerUin, Next, Inv, Enabled;
    if k == 0 {
      EmptyIsUnique(ss[0]);
    } else {
      RunUniqueIff(ss, es, k - 1);
      assert Steps(ss[k - 1], es[k - 1], ss[k]);
      Reachable(ss, es, k - 1);
      if OnePerUin(ss[k - 1].slots) {
        StepUniqueIff(ss[k - 1], es[k - 1]);
      }
    }
  }

  lemma EmptyIsUnique(s: Server)
    requires Initial(s)
    ensures OnePerUin(s.slots)
  {}

  // ---- reap-first schedules ----

  ghost predicate NoneMarked(slots: Slots)
  {
    forall i :: 0 <= i < MAX_CLIENTS && slots[i].Some? ==> !slots[i].value.remove
  }

  ghost predicate OneMarked(slots: Slots)
  {
    forall i, j :: 0 <= i < j < MAX_CLIENTS && Live(slots, i) && Live(slots, j) ==>
      !slots[i].value.remove || !slots[j].value.remove
  }

  lemma NoneMarkedFinds(slots: Slots, uin: u32)
    requires NoneMarked(slots) && OnePerUin(slots) && uin != 0
    ensures FindsUnmarked(slots, uin)
  {
    hide FindFrom;
    var f := Find(slots, uin);
    assert f.Some? ==> Unmarked(slots, f.value);
  }

  lemma ReapFirstIsSafe(s: Server, e: Event)
    requires Inv(s) && Enabled(s, e) && ReapFirst(s, e) && OnePerUin(s.slots)
    ensures SafeLogin(s, e)
  {
    if e.Deliver? && LoginAccepted(s.users, s.slots[e.c].value, e.packet, e.env) {
      HandleSplits(s.users, s.slots, e.c, e.packet, e.env);
      NoneMarkedFinds(s.slots, WordAt(e.packet.body, 0));
      hide *;
    }
  }

  lemma EntersMarksOne(slots: Slots, c: nat, uin: u32, after: Slots)
    requires Live(slots, c) && NoneMarked(slots) && Enters(slots, c, uin, after)
    ensures OneMarked(after)
  {
    hide Find;
  }

  lemma StaysMarksOne(slots: Slots, c: nat, after: Slots)
    requires Live(slots, c) && NoneMarked(slots) && Stays(slots, c, after)
    ensures OneMarked(after)
  {}

  lemma DeliverMarksOne(s: Server, e: Event)
    requires Inv(s) && Enabled(s, e) && e.Deliver? && NoneMarked(s.slots)
    ensures OneMarked(Next(s, e).slots)
  {
    HandleSplits(s.users, s.slots, e.c, e.packet, e.env);
    hide Handle, LoginAccepted, WordAt, Inv, Enters, Stays, OneMarked, NoneMarked;
    if LoginAccepted(s.users, s.slots[e.c].value, e.packet, e.env) {
      EntersMarksOne(s.slots, e.c, WordAt(e.packet.body, 0), Next(s, e).slots);
    } else {
      StaysMarksOne(s.slots, e.c, Next(s, e).slots);
    }
  }

  lemma StepMarksOne(s: Server, e: Event)
    requires Inv(s) && Enabled(s, e) && ReapFirst(s, e) && OneMarked(s.slots)
    ensures OneMarked(Next(s, e).slots)
  {
    if e.Deliver? {
      DeliverMarksOne(s, e);
    } else {
      hide Inv, FreeSlot;
    }
  }

  /** On these runs every login is safe, and at most one session is marked at a time. */
  lemma {:induction false} ReapFirstUnique(ss: seq<Server>, es: seq<Event>, k: nat)
    requires ReapFirstRun(ss, es) && k < |ss|
    ensures OnePerUin(ss[k].slots) && OneMarked(ss[k].slots)
  {
    hide SafeLogin, OnePerUin, OneMarked, Next, Inv, Enabled;
    if k == 0 {
      EmptyIsUnique(ss[0]);
      EmptyIsUnmarked(ss[0]);
    } else {
      ReapFirstUnique(ss, es, k - 1);
      assert Steps(ss[k - 1], es[k - 1], ss[k]);
      Reachable(ss, es, k - 1);
      ReapFirstIsSafe(ss[k - 1], es[k - 1]);
      StepUniqueIff(ss[k - 1], es[k - 1]);
      StepMarksOne(ss[k - 1], es[k - 1]);
    }
  }

  lemma EmptyIsUnmarked(s: Server)
    requires Initial(s)
    ensures OneMarked(s.slots)
  {}

  /** On every reap-first run a nonzero number belongs to at most one session that is not
      marked, and to at most two sessions in the table, one of them marked. */
  lemma OneSessionPerUin(ss: seq<Server>, es: seq<Event>, k: nat, i: nat, j: nat)
    requires ReapFirstRun(ss, es) && k < |ss|
    requires i < j && Live(ss[k].slots, i) && Live(ss[k].slots, j)
    requires ss[k].slots[i].value.uin == ss[k].slots[j].value.uin != 0
    ensures ss[k].slots[i].value.remove != ss[k].slots[j].value.remove
    ensures forall h :: 0 <= h < MAX_CLIENTS && h != i && h != j && ss[k].slots[h].Some? ==>
              ss[k].slots[h].value.uin != ss[k].slots[i].value.uin
  {
    ReapFirstUnique(ss, es, k);
    hide ReapFirstRun;
    assert Unmarked(ss[k].slots, i) != Unmarked(ss[k].slots, j);
  }
}

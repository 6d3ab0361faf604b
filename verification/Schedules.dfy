/** Runs that fail: when a superseded session is not reaped before the next packet, and when a
    connection drops. */
module Schedules {
  import opened Wire
  import opened Options
  import opened Users
  import opened Sessions
  import opened Lifecycle
  import opened Numbers
  import opened Presence
  import opened Absence

  /** A GG 6.0 login packet with the right hash. */
  function LoginPacket(users: Table, uin: u32, seed: u32): (p: Packet)
    requires Protocol.HasPassword(users, uin)
    ensures |p.body| == 31
  {
    Packet(LOGIN60, LE32(uin) + LE32(Protocol.LoginHash(StoredPassword(users[uin]), seed as bv32) as int)
                    + seq(23, _ => 0))
  }

  lemma LoginPacketAccepted(users: Table, uin: u32, seed: u32)
    requires Protocol.HasPassword(users, uin)
    ensures var b := LoginPacket(users, uin, seed).body;
            WordAt(b, 0) == uin && HashAccepted(users, uin, seed, WordAt(b, 4))
  {
    hide Protocol.LoginHash, LE32, WordAt;
    var hash := Protocol.LoginHash(StoredPassword(users[uin]), seed as bv32);
    BackAndForth(hash);
    var b := LoginPacket(users, uin, seed).body;
    assert b[0..4] == LE32(uin) && b[4..8] == LE32(hash as int);
    WordOfLE32(b, 0, uin);
    WordOfLE32(b, 4, hash as int);
  }

  lemma BackAndForth(w: bv32)
    ensures (w as int) as bv32 == w
  {}

  ghost predicate RightLogin(users: Table, uin: u32, p: Packet)
  {
    p.kind == LOGIN60 && |p.body| == 31 && WordAt(p.body, 0) == uin != 0
        && HashAccepted(users, uin, 0, WordAt(p.body, 4))
  }

  /** What a right login does to the server. */
  lemma LoginStep(s: Server, c: nat, uin: u32, p: Packet, env: Env)
    requires Live(s.slots, c) && s.slots[c].value == NewSession(s.slots[c].value.fd, s.slots[c].value.addr, 0)
    requires RightLogin(s.users, uin, p)
    ensures var e := Deliver(c, p, env);
            && Enabled(s, e) && TellsRightAt(s, e)
            && (FindsUnmarked(s.slots, uin) ==> SafeLogin(s, e))
    ensures var t := Next(s, Deliver(c, p, env));
            && t.users == s.users && Enters(s.slots, c, uin, t.slots)
            && Known(t.slots, c) && t.slots[c].value.status == STATUS_AVAIL && t.slots[c].value.friends == []
  {
    hide HashAccepted, WordAt, LoggedIn, Find;
    LoggedInEnters(s.slots, c, uin, Some(WordAt(p.body, 12)), Some(p.body[29]));
    LoggedInIs(s.slots, c, uin, Some(WordAt(p.body, 12)), Some(p.body[29]));
  }

  lemma LoggedInIs(slots: Slots, c: nat, uin: u32, version: Option<u32>, imageSize: Option<u8>)
    requires Live(slots, c)
    ensures var after := LoggedIn(slots, c, uin, version, imageSize).slots;
            && Live(after, c) && after[c].value.state == LoginOk && after[c].value.status == STATUS_AVAIL
            && after[c].value.friends == slots[c].value.friends
  {
    hide ChangedStatus, Find;
  }

  function Connect(fd: nat): Event
  {
    Accept(fd, Address(0, 0), 0)
  }

  ghost predicate Waiting(s: Server)
  {
    && (forall i :: 0 <= i < 3 ==> s.slots[i] == Some(NewSession(i, Address(0, 0), 0)))
    && (forall i :: 3 <= i < MAX_CLIENTS ==> s.slots[i].None?)
  }

  /** The event can happen, is no unsafe login, and tells right. */
  ghost predicate Fine(s: Server, e: Event)
  {
    Enabled(s, e) && SafeLogin(s, e) && TellsRightAt(s, e)
  }

  /** A run whose logins are safe and whose answers are right goes on being one. */
  lemma GoesOn(ss: seq<Server>, es: seq<Event>, e: Event) returns (ss': seq<Server>, es': seq<Event>)
    requires Run(ss, es) && RightUpTo(ss, es, |es|)
    requires Fine(ss[|es|], e)
    ensures es' == es + [e] && ss' == ss + [Next(ss[|es|], e)]
    ensures Run(ss', es') && RightUpTo(ss', es', |es'|) && |ss'| == |es'| + 1
  {
    hide Next, Enabled, SafeLogin, TellsRightAt, Initial;
    ss', es' := Extended(ss, es, e);
    forall n | 0 <= n < |es'|
      ensures Steps(ss'[n], es'[n], ss'[n + 1]) && SafeLogin(ss'[n], es'[n]) && TellsRightAt(ss'[n], es'[n])
    {
      if n < |es| {
        assert ss'[n] == ss[n] && ss'[n + 1] == ss[n + 1] && es'[n] == es[n];
      }
    }
  }

  lemma Extended(ss: seq<Server>, es: seq<Event>, e: Event) returns (ss': seq<Server>, es': seq<Event>)
    requires Run(ss, es) && Enabled(ss[|es|], e)
    ensures es' == es + [e] && ss' == ss + [Next(ss[|es|], e)]
    ensures Run(ss', es') && |ss'| == |es'| + 1
  {
    assert Enabled(ss[|es|], e);
    var next := Next(ss[|es|], e);
    hide Next, Enabled, Initial;
    ss', es' := ss + [next], es + [e];
    forall n | 0 <= n < |es'| ensures Steps(ss'[n], es'[n], ss'[n + 1]) {
      if n < |es| {
        assert ss'[n] == ss[n] && ss'[n + 1] == ss[n + 1] && es'[n] == es[n];
      }
    }
  }

  /** Three connections, on which nothing has been said. */
  lemma ThreeWaiting(users: Table) returns (ss: seq<Server>, es: seq<Event>)
    requires InRange(users)
    ensures |ss| == 4 && |es| == 3 && Run(ss, es) && RightUpTo(ss, es, 3) && Waiting(ss[3]) && ss[3].users == users
  {
    hide *;
    var s0 := Starts(users);
    ThreeAccepted(s0);
    ss, es := [s0], [];
    ss, es := GoesOn(ss, es, Connect(0));
    ss, es := GoesOn(ss, es, Connect(1));
    ss, es := GoesOn(ss, es, Connect(2));
  }

  lemma Starts(users: Table) returns (s0: Server)
    requires InRange(users)
    ensures Initial(s0) && s0.users == users && Run([s0], []) && RightUpTo([s0], [], 0)
  {
    s0 := Server(seq(MAX_CLIENTS, _ => None), 0, users, []);
  }

  lemma ThreeAccepted(s0: Server)
    requires Initial(s0)
    ensures var s1 := Next(s0, Connect(0));
            var s2 := Next(s1, Connect(1));
            && Fine(s0, Connect(0)) && Fine(s1, Connect(1)) && Fine(s2, Connect(2))
            && Waiting(Next(s2, Connect(2))) && Next(s2, Connect(2)).users == s0.users
  {}

  // ---- logins and a status on these connections ----

  const BUSY: u32 := 3

  lemma StatusStep(s: Server, c: nat, env: Env)
    requires Known(s.slots, c)
    ensures var e := Deliver(c, Packet(NEW_STATUS, LE32(BUSY)), env);
            Enabled(s, e) && SafeLogin(s, e) && TellsRightAt(s, e)
    ensures var t := Next(s, Deliver(c, Packet(NEW_STATUS, LE32(BUSY)), env));
            && t.users == s.users && Known(t.slots, c) && t.slots[c].value.status == BUSY
            && t.slots[c].value.uin == s.slots[c].value.uin
            && (forall i :: 0 <= i < MAX_CLIENTS && i != c ==> t.slots[i] == s.slots[i])
  {
    WordOfLE32(LE32(BUSY), 0, BUSY);
    hide LE32, WordAt, DescrRound, ChangedStatus;
  }

  /** The question about x. */
  lemma AskIsSafe(s: Server, c: nat, x: u32, env: Env)
    requires Known(s.slots, c) && x != 0
    ensures var e := Deliver(c, Packet(ADD_NOTIFY, LE32(x) + [0]), env);
            Enabled(s, e) && SafeLogin(s, e) && AsksAbout(s, e, c, x)
  {
    var p := Packet(ADD_NOTIFY, LE32(x) + [0]);
    assert p.body[0..4] == LE32(x);
    WordOfLE32(p.body, 0, x);
    hide WordAt, LE32, Find;
  }

  /** And its answer. */
  lemma AskStep(s: Server, c: nat, x: u32, env: Env)
    requires Known(s.slots, c) && x != 0
    ensures Enabled(s, Deliver(c, Packet(ADD_NOTIFY, LE32(x) + [0]), env))
    ensures var t := Next(s, Deliver(c, Packet(ADD_NOTIFY, LE32(x) + [0]), env));
            && OnList(t.slots, c, x) && t.slots[c].value.fd == s.slots[c].value.fd
            && (forall i :: 0 <= i < MAX_CLIENTS && i != c ==> t.slots[i] == s.slots[i])
            && LastTold(t.wire, s.slots[c].value.fd, x) == Some(StatusOf(FindSession(t.slots, x)))
  {
    var p := Packet(ADD_NOTIFY, LE32(x) + [0]);
    assert p.body[0..4] == LE32(x);
    WordOfLE32(p.body, 0, x);
    hide WordAt, LE32, Find;
    var t := Next(s, Deliver(c, p, env));
    AppendedOnList(s.slots[c].value.friends, Friend(x, 0));
    var reply := Packet(NOTIFY_REPLY, LE32(x) + LE32(StatusOf(FindSession(t.slots, x))));
    TellsWords(reply, x, StatusOf(FindSession(t.slots, x)));
    assert t.wire == s.wire + [Sent(s.slots[c].value.fd, reply)];
  }

  /** Slot 0 is logged in as x, and slots 1 and 2 are waiting. */
  ghost predicate FirstIn(slots: Slots, x: u32, status: u32)
  {
    && x != 0 && Known(slots, 0) && slots[0].value.uin == x && slots[0].value.status == status
    && (forall i :: 1 <= i < 3 ==> slots[i] == Some(NewSession(i, Address(0, 0), 0)))
    && (forall i :: 3 <= i < MAX_CLIENTS ==> slots[i].None?)
  }

  /** Slot 0 is superseded by slot 1, and slot 2 is waiting. */
  ghost predicate SecondIn(slots: Slots, x: u32, status: u32)
  {
    && x != 0 && Live(slots, 0) && slots[0].value.uin == x && slots[0].value.status == status
    && Known(slots, 1) && slots[1].value.uin == x && slots[1].value.status == STATUS_AVAIL
    && slots[2] == Some(NewSession(2, Address(0, 0), 0))
    && (forall i :: 3 <= i < MAX_CLIENTS ==> slots[i].None?)
  }

  /** And slot 2 is someone else. */
  ghost predicate OldAndNew(slots: Slots, x: u32)
  {
    && x != 0 && Live(slots, 0) && slots[0].value.uin == x && slots[0].value.status == BUSY
    && Known(slots, 1) && slots[1].value.uin == x && slots[1].value.status == STATUS_AVAIL
    && Known(slots, 2) && slots[2].value.uin != x
  }

  lemma FirstLogin(s: Server, x: u32, p: Packet, env: Env)
    requires Waiting(s) && RightLogin(s.users, x, p)
    ensures var e := Deliver(0, p, env);
            Fine(s, e) && Next(s, e).users == s.users && FirstIn(Next(s, e).slots, x, STATUS_AVAIL)
  {
    NotZero(s.users, x, p);
    NobodyIsIn(s, x);
    hide Next, Enabled, RightLogin, Find, SafeLogin, TellsRightAt;
    LoginStep(s, 0, x, p, env);
  }

  lemma NobodyIsIn(s: Server, x: u32)
    requires Waiting(s) && x != 0
    ensures Find(s.slots, x) == None && FindsUnmarked(s.slots, x)
  {
    hide FindFrom;
    assert forall i :: 0 <= i < MAX_CLIENTS && s.slots[i].Some? ==> s.slots[i].value.uin == 0;
  }

  lemma NotZero(users: Table, x: u32, p: Packet)
    requires RightLogin(users, x, p)
    ensures x != 0
  {}

  lemma FirstIsBusy(s: Server, x: u32, env: Env)
    requires FirstIn(s.slots, x, STATUS_AVAIL)
    ensures var e := Deliver(0, Packet(NEW_STATUS, LE32(BUSY)), env);
            Fine(s, e) && Next(s, e).users == s.users && FirstIn(Next(s, e).slots, x, BUSY)
  {
    hide Next, Enabled, SafeLogin, TellsRightAt, LE32;
    StatusStep(s, 0, env);
  }

  lemma SecondLogin(s: Server, x: u32, status: u32, p: Packet, env: Env)
    requires FirstIn(s.slots, x, status) && RightLogin(s.users, x, p)
    ensures var e := Deliver(1, p, env);
            Fine(s, e) && Next(s, e).users == s.users && SecondIn(Next(s, e).slots, x, status)
  {
    hide Next, Enabled, RightLogin, FindFrom, SafeLogin, TellsRightAt;
    assert Find(s.slots, x) == Some(0);
    LoginStep(s, 1, x, p, env);
  }

  lemma OtherLogin(s: Server, x: u32, y: u32, p: Packet, env: Env)
    requires SecondIn(s.slots, x, BUSY) && RightLogin(s.users, y, p) && x != y
    ensures var e := Deliver(2, p, env);
            Fine(s, e) && OldAndNew(Next(s, e).slots, x)
  {
    NotZero(s.users, y, p);
    hide Next, Enabled, RightLogin, FindFrom, SafeLogin, TellsRightAt;
    assert Find(s.slots, y) == None;
    LoginStep(s, 2, y, p, env);
  }

  /** The third login as x marks slot 0 once more. */
  lemma ThirdLogin(s: Server, x: u32, status: u32, p: Packet, env: Env)
    requires SecondIn(s.slots, x, status) && RightLogin(s.users, x, p)
    ensures Enabled(s, Deliver(2, p, env)) && !OnePerUin(Next(s, Deliver(2, p, env)).slots)
  {
    hide Next, Enabled, RightLogin, FindFrom, SafeLogin, TellsRightAt, OnePerUin;
    assert Find(s.slots, x) == Some(0);
    LoginStep(s, 2, x, p, env);
    TwoUnmarked(Next(s, Deliver(2, p, env)).slots, 1, 2);
  }

  lemma TwoUnmarked(slots: Slots, i: nat, j: nat)
    requires i < j && Unmarked(slots, i) && Unmarked(slots, j) && slots[i].value.uin == slots[j].value.uin != 0
    ensures !OnePerUin(slots)
  {}

  // ---- uniqueness fails ----

  /** Three logins with the same number, none reaped in between: the third supersedes the
      first once more, and the second stays as well. */
  lemma ThreeLogins(users: Table, uin: u32, env: Env) returns (ss: seq<Server>, es: seq<Event>)
    requires InRange(users) && Protocol.HasPassword(users, uin)
    ensures |ss| == 7 && |es| == 6 && Run(ss, es) && !OnePerUin(ss[6].slots)
  {
    hide *;
    ss, es := ThreeWaiting(users);
    var login := RightPacket(users, uin);
    ss, es := ThreeTimes(ss, es, uin, login, env);
  }

  lemma ThreeTimes(ss: seq<Server>, es: seq<Event>, uin: u32, login: Packet, env: Env)
    returns (ss': seq<Server>, es': seq<Event>)
    requires |ss| == 4 && |es| == 3 && Run(ss, es) && RightUpTo(ss, es, 3) && Waiting(ss[3])
    requires RightLogin(ss[3].users, uin, login)
    ensures |ss'| == 7 && |es'| == 6 && Run(ss', es') && !OnePerUin(ss'[6].slots)
  {
    hide *;
    FirstLogin(ss[3], uin, login, env);
    ss', es' := GoesOn(ss, es, Deliver(0, login, env));
    SecondLogin(ss'[4], uin, STATUS_AVAIL, login, env);
    ss', es' := GoesOn(ss', es', Deliver(1, login, env));
    ThirdLogin(ss'[5], uin, STATUS_AVAIL, login, env);
    ss', es' := Extended(ss', es', Deliver(2, login, env));
  }

  lemma RightPacket(users: Table, uin: u32) returns (p: Packet)
    requires InRange(users) && Protocol.HasPassword(users, uin)
    ensures RightLogin(users, uin, p)
  {
    LoginPacketAccepted(users, uin, 0);
    p := LoginPacket(users, uin, 0);
    hide LoginPacket, HashAccepted, WordAt;
    AcceptedIsTaken(users, uin, 0, WordAt(p.body, 4));
  }

  // ---- presence fails ----

  lemma Superseded(ss: seq<Server>, es: seq<Event>, x: u32, loginX: Packet, y: u32, loginY: Packet, env: Env)
    returns (ss': seq<Server>, es': seq<Event>)
    requires |ss| == 4 && |es| == 3 && Run(ss, es) && RightUpTo(ss, es, 3) && Waiting(ss[3]) && x != y
    requires RightLogin(ss[3].users, x, loginX) && RightLogin(ss[3].users, y, loginY)
    ensures |ss'| == 8 && |es'| == 7 && Run(ss', es') && RightUpTo(ss', es', 7) && OldAndNew(ss'[7].slots, x)
  {
    hide *;
    FirstLogin(ss[3], x, loginX, env);
    ss', es' := GoesOn(ss, es, Deliver(0, loginX, env));
    FirstIsBusy(ss'[4], x, env);
    ss', es' := GoesOn(ss', es', Deliver(0, Packet(NEW_STATUS, LE32(BUSY)), env));
    SecondLogin(ss'[5], x, BUSY, loginX, env);
    ss', es' := GoesOn(ss', es', Deliver(1, loginX, env));
    OtherLogin(ss'[6], x, y, loginY, env);
    ss', es' := GoesOn(ss', es', Deliver(2, loginY, env));
  }

  /** For any two registered numbers with passwords: x logs in, sets a status, and logs in again
      on another connection; then y logs in and adds x, before the first session of x is reaped.
      Every login is safe and all went right before, but y is told the status of the superseded
      session. */
  lemma WrongAnswer(users: Table, x: u32, y: u32, env: Env) returns (ss: seq<Server>, es: seq<Event>)
    requires InRange(users) && Protocol.HasPassword(users, x) && Protocol.HasPassword(users, y) && x != y
    ensures Run(ss, es) && |es| == 8 && RightUpTo(ss, es, 7)
    ensures Steps(ss[7], es[7], ss[8]) && SafeLogin(ss[7], es[7]) && !TellsRightAt(ss[7], es[7])
    ensures AsksAbout(ss[7], es[7], 2, x) && OnList(ss[8].slots, 2, x)
    ensures Known(ss[8].slots, 1) && ss[8].slots[1].value.uin == x && ss[8].slots[1].value.status == STATUS_AVAIL
    ensures LastTold(ss[8].wire, ss[8].slots[2].value.fd, x) == Some(BUSY)
  {
    hide *;
    ss, es := ThreeWaiting(users);
    var loginX := RightPacket(users, x);
    var loginY := RightPacket(users, y);
    ss, es := Superseded(ss, es, x, loginX, y, loginY, env);
    ss, es := AsksForX(ss, es, x, env);
  }

  lemma AsksForX(ss: seq<Server>, es: seq<Event>, x: u32, env: Env) returns (ss': seq<Server>, es': seq<Event>)
    requires |ss| == 8 && |es| == 7 && Run(ss, es) && RightUpTo(ss, es, 7) && OldAndNew(ss[7].slots, x)
    ensures Run(ss', es') && |es'| == 8 && RightUpTo(ss', es', 7)
    ensures Steps(ss'[7], es'[7], ss'[8]) && SafeLogin(ss'[7], es'[7]) && !TellsRightAt(ss'[7], es'[7])
    ensures AsksAbout(ss'[7], es'[7], 2, x) && OnList(ss'[8].slots, 2, x)
    ensures Known(ss'[8].slots, 1) && ss'[8].slots[1].value.uin == x && ss'[8].slots[1].value.status == STATUS_AVAIL
    ensures LastTold(ss'[8].wire, ss'[8].slots[2].value.fd, x) == Some(BUSY)
  {
    var e := Deliver(2, Packet(ADD_NOTIFY, LE32(x) + [0]), env);
    AskIsSafe(ss[7], 2, x, env);
    AskStep(ss[7], 2, x, env);
    AskedIs(ss[7], e, x);
    hide Next, Enabled, FindFrom, Run, SafeLogin, AsksAbout, LastTold, OnList, Asked, LE32;
    ss', es' := Extended(ss, es, e);
    StaysRight(ss, es, e, ss', es');
    assert Find(ss[7].slots, x) == Some(0) == Find(ss'[8].slots, x);
    assert ss'[7] == ss[7] && Known(ss[7].slots, 1);
  }

  lemma AskedIs(s: Server, e: Event, x: u32)
    requires e.Deliver? && e.packet.kind == ADD_NOTIFY && AsksAbout(s, e, e.c, x)
    ensures Asked(s.slots[e.c].value, e.packet) == {x}
  {
    hide WordAt;
  }

  lemma StaysRight(ss: seq<Server>, es: seq<Event>, e: Event, ss': seq<Server>, es': seq<Event>)
    requires Run(ss, es) && RightUpTo(ss, es, |es|) && Run(ss', es') && |es'| == |es| + 1
    requires ss <= ss' && es <= es'
    ensures RightUpTo(ss', es', |es|)
  {
    hide Next, Enabled, SafeLogin, TellsRightAt, Initial;
    forall n | 0 <= n < |es|
      ensures Steps(ss'[n], es'[n], ss'[n + 1]) && SafeLogin(ss'[n], es'[n]) && TellsRightAt(ss'[n], es'[n])
    {
      assert ss'[n] == ss[n] && ss'[n + 1] == ss[n + 1] && es'[n] == es[n];
      assert Steps(ss[n], es[n], ss[n + 1]);
    }
  }

  // ---- a connection drops ----

  /** Slots 0 and 1 are logged in, slot 0 as x, and nobody else is. */
  ghost predicate TwoIn(slots: Slots, x: u32)
  {
    && x != 0 && Known(slots, 0) && slots[0].value.uin == x && slots[0].value.status == STATUS_AVAIL
    && Known(slots, 1) && slots[1].value.uin != x
    && (forall i :: 2 <= i < MAX_CLIENTS ==> !Known(slots, i))
  }

  lemma OtherJoins(s: Server, x: u32, y: u32, p: Packet, env: Env)
    requires FirstIn(s.slots, x, STATUS_AVAIL) && RightLogin(s.users, y, p) && x != y
    ensures var e := Deliver(1, p, env);
            Fine(s, e) && TwoIn(Next(s, e).slots, x)
  {
    NotZero(s.users, y, p);
    hide Next, Enabled, RightLogin, FindFrom, SafeLogin, TellsRightAt;
    assert Find(s.slots, y) == None;
    LoginStep(s, 1, y, p, env);
  }

  /** x is there and available, and slot 1 is told so. */
  lemma AsksRight(s: Server, x: u32, env: Env)
    requires TwoIn(s.slots, x)
    ensures var e := Deliver(1, Packet(ADD_NOTIFY, LE32(x) + [0]), env);
            && Fine(s, e) && AsksAbout(s, e, 1, x) && TwoIn(Next(s, e).slots, x) && OnList(Next(s, e).slots, 1, x)
            && LastTold(Next(s, e).wire, Next(s, e).slots[1].value.fd, x) == Some(STATUS_AVAIL)
  {
    var e := Deliver(1, Packet(ADD_NOTIFY, LE32(x) + [0]), env);
    AskIsSafe(s, 1, x, env);
    AskStep(s, 1, x, env);
    AskedIs(s, e, x);
    AsksOnly(s, x, env);
    hide Next, Find, LastTold, OnList, Asked, LE32, AsksAbout, SafeLogin, TwoIn;
    FirstIsFound(s.slots, x);
    TwoStay(s.slots, Next(s, e).slots, x);
    FirstIsFound(Next(s, e).slots, x);
  }

  lemma FirstIsFound(slots: Slots, x: u32)
    requires TwoIn(slots, x)
    ensures Find(slots, x) == Some(0) && Live(slots, 0)
    ensures slots[0].value.status == STATUS_AVAIL && slots[0].value.uin == x
    ensures forall u :: 0 <= u < MAX_CLIENTS && u != 1 && Known(slots, u) ==> u == 0
  {
    hide FindFrom;
  }

  lemma TwoStay(slots: Slots, after: Slots, x: u32)
    requires TwoIn(slots, x) && Known(after, 1) && after[1].value.uin == slots[1].value.uin
    requires forall i :: 0 <= i < MAX_CLIENTS && i != 1 ==> after[i] == slots[i]
    ensures TwoIn(after, x)
  {
    assert after[0] == slots[0];
    forall i | 2 <= i < MAX_CLIENTS ensures !Known(after, i) {
      assert after[i] == slots[i] && !Known(slots, i);
    }
  }

  lemma AsksOnly(s: Server, x: u32, env: Env)
    requires Known(s.slots, 1)
    ensures var t := Next(s, Deliver(1, Packet(ADD_NOTIFY, LE32(x) + [0]), env)).slots;
            Known(t, 1) && t[1].value.uin == s.slots[1].value.uin
  {
    hide LE32, WordAt, FindSession;
  }

  lemma Drops(s: Server, x: u32)
    requires TwoIn(s.slots, x)
    ensures var t := Next(s, Close(0));
            && Fine(s, Close(0)) && t.wire == s.wire && t.slots[1] == s.slots[1] && Gone(t.slots, x)
            && (OnList(s.slots, 1, x) ==> OnList(t.slots, 1, x))
  {
    hide Uins;
    var t := Next(s, Close(0)).slots;
    forall u | 0 <= u < MAX_CLIENTS && Known(t, u) ensures t[u].value.uin != x {
      assert Known(s.slots, u) && u == 1;
    }
  }

  /** For any two registered numbers with passwords: x and y log in, y adds x, and the connection
      of x is lost. Every login is safe and every answer right, but y still believes that x is
      available. */
  lemma DroppedContact(users: Table, x: u32, y: u32, env: Env) returns (ss: seq<Server>, es: seq<Event>)
    requires InRange(users) && Protocol.HasPassword(users, x) && Protocol.HasPassword(users, y) && x != y
    ensures Run(ss, es) && |es| == 7 && RightUpTo(ss, es, 7)
    ensures AsksAbout(ss[5], es[5], 1, x) && OnList(ss[7].slots, 1, x)
    ensures Gone(ss[7].slots, x) && LastTold(ss[7].wire, ss[7].slots[1].value.fd, x) == Some(STATUS_AVAIL)
  {
    hide *;
    ss, es := ThreeWaiting(users);
    var loginX := RightPacket(users, x);
    var loginY := RightPacket(users, y);
    FirstLogin(ss[3], x, loginX, env);
    ss, es := GoesOn(ss, es, Deliver(0, loginX, env));
    OtherJoins(ss[4], x, y, loginY, env);
    ss, es := GoesOn(ss, es, Deliver(1, loginY, env));
    AsksRight(ss[5], x, env);
    ss, es := GoesOn(ss, es, Deliver(1, Packet(ADD_NOTIFY, LE32(x) + [0]), env));
    Drops(ss[6], x);
    ss, es := GoesOn(ss, es, Close(0));
  }
}

/** Who gets in, and what follows: the greeting, the four login packets, and the way from a
    registration to a login. */
module Logins {
  import opened Wire
  import opened Options
  import opened Users
  import opened Sessions
  import opened Lifecycle
  import opened Numbers
  import opened Network
  import opened Deliveries
  import Sha1Spec
  import Messages

  // ---- who knows the password ----

  /** The account exists and is active, and this is the hash of the first 63 bytes of its password,
      which is not empty. */
  ghost predicate RightHash(users: Table, uin: u32, seed: u32, hash: u32)
  {
    && uin in users && users[uin].active && users[uin].password != []
    && Protocol.LoginHash(Kept(users[uin].password), seed as bv32) == hash as bv32
  }

  /** The same for a response that begins with the SHA-1 digest of the password and the seed. */
  ghost predicate RightDigest(users: Table, uin: u32, seed: u32, response: Octets)
  {
    && uin in users && users[uin].active && users[uin].password != [] && |response| >= 20
    && forall i :: 0 <= i < 20 ==>
         Sha1Spec.Digest(Kept(users[uin].password) + Bytes.LE32(seed as bv32))[i] == response[i] as bv8
  }

  function Kept(password: CStr): CStr
  {
    if |password| <= 63 then password else password[..63]
  }

  lemma HashDecides(users: Table, uin: u32, seed: u32, hash: u32)
    ensures HashAccepted(users, uin, seed, hash) <==> RightHash(users, uin, seed, hash)
  {
    hide Protocol.LoginHash;
  }

  lemma DigestDecides(users: Table, uin: u32, seed: u32, response: Octets)
    requires |response| >= 20
    ensures DigestAccepted(users, uin, seed, response) <==> RightDigest(users, uin, seed, response)
  {
    hide Sha1Spec.Digest, Bytes.LE32;
  }

  // ---- what follows ----

  /** The table after a login as uin: client_find's session of this number is marked; c has the
      number and is available. */
  ghost predicate Seated(slots: Slots, c: nat, uin: u32, version: u32, imageSize: u32, after: Slots)
    requires Live(slots, c)
  {
    && after[c] == Some(slots[c].value.(uin := uin, state := LoginOk, status := 0x2, version := version,
                                        imageSize := imageSize))
    && forall i :: 0 <= i < MAX_CLIENTS && i != c ==>
         after[i] == if Find(slots, uin) == Some(i) then Some(slots[i].value.(remove := true)) else slots[i]
  }

  /** What w gets of it: client_find's session is told to go, c that it is in, and everyone who
      hears of c the number and the status. */
  ghost predicate Announced(slots: Slots, c: nat, uin: u32, after: Slots, w: nat, got: seq<Packet>)
    requires Live(slots, w) && Live(after, c) && Live(after, w)
  {
    var n := if Find(slots, uin) == Some(w) then 1 else 0;
    var m := if w == c then n + 1 else n;
    && |got| == m + (if Hears(after, c, w) then 1 else 0)
    && (n == 1 ==> got[0] == Packet(DISCONNECTING, []))
    && (w == c ==> got[n] == Packet(LOGIN_OK, []))
    && (Hears(after, c, w) ==> Bare(got[m], NEW_STATUS, uin, 0x2))
  }

  ghost predicate Entered(slots: Slots, c: nat, uin: u32, version: u32, imageSize: u32, h: Effect, w: nat)
    requires Live(slots, c) && Live(slots, w)
  {
    && Seated(slots, c, uin, version, imageSize, h.slots)
    && Announced(slots, c, uin, h.slots, w, PacketsTo(h.sent, slots[w].value.fd))
  }

  /** A refused login: the session is told and marked, and nothing else happens. */
  ghost predicate TurnedAway(slots: Slots, c: nat, h: Effect)
    requires Live(slots, c)
  {
    h == Effect(slots[c := Some(slots[c].value.(remove := true))],
                [Sent(slots[c].value.fd, Packet(LOGIN_FAILED, []))])
  }

  lemma SupersedeTo(slots: Slots, uin: u32, w: nat)
    requires Live(slots, w) && FdsDistinct(slots)
    ensures PacketsTo(Supersede(slots, uin).sent, slots[w].value.fd)
         == if Find(slots, uin) == Some(w) then [Packet(DISCONNECTING, [])] else []
  {
    hide Find, PacketsTo;
    PacketsToNobody(slots[w].value.fd);
    var f := Find(slots, uin);
    if f.Some? {
      PacketsToOne(Sent(slots[f.value].value.fd, Packet(DISCONNECTING, [])), slots[w].value.fd);
    }
  }

  lemma LoginSeats(slots: Slots, c: nat, uin: u32, version: Option<u32>, imageSize: Option<u8>)
    requires Unmarked(slots, c) && FdsDistinct(slots) && slots[c].value.uin == 0 && uin != 0
    ensures var after, s := LoggedIn(slots, c, uin, version, imageSize).slots, slots[c].value;
            && FdsDistinct(after)
            && Seated(slots, c, uin, if version.Some? then version.value else s.version,
                      if imageSize.Some? then imageSize.value else s.imageSize, after)
  {
    hide ChangedStatus, FindFrom;
  }

  lemma LoginAnnounces(slots: Slots, c: nat, uin: u32, after: Slots, w: nat)
    requires Live(slots, c) && FdsDistinct(slots) && Live(slots, w)
    requires Live(after, c) && FdsDistinct(after) && Live(after, w)
    requires after[c].value.uin == uin && after[c].value.status == 0x2 && after[c].value.descr == None
    requires after[w].value.fd == slots[w].value.fd
    ensures Announced(slots, c, uin, after, w, PacketsTo(
                Supersede(slots, uin).sent + [Sent(slots[c].value.fd, Packet(LOGIN_OK, []))] + ChangedStatus(after, c),
                slots[w].value.fd))
  {
    SupersedeTo(slots, uin, w);
    var ok, fd := [Sent(slots[c].value.fd, Packet(LOGIN_OK, []))], slots[w].value.fd;
    StatusPacketShows(after[c], uin, 0, NEW_STATUS);
    hide Supersede, PacketsTo, FdsDistinct, Hears, ChangedStatus, StatusPacket, Find, Bare, Announced;
    SameConnection(slots, c, w);
    ChangedStatusTo(after, c, w);
    PacketsToOne(ok[0], fd);
    PacketsToBoth(Supersede(slots, uin).sent, ok, fd);
    PacketsToBoth(Supersede(slots, uin).sent + ok, ChangedStatus(after, c), fd);
    AnnouncedParts(slots, c, uin, after, w, PacketsTo(Supersede(slots, uin).sent, fd), PacketsTo(ok, fd),
                   PacketsTo(ChangedStatus(after, c), fd));
  }

  lemma AnnouncedParts(slots: Slots, c: nat, uin: u32, after: Slots, w: nat, x: seq<Packet>, y: seq<Packet>,
                       z: seq<Packet>)
    requires Live(slots, w) && Live(after, c) && Live(after, w)
    requires x == if Find(slots, uin) == Some(w) then [Packet(DISCONNECTING, [])] else []
    requires y == if w == c then [Packet(LOGIN_OK, [])] else []
    requires |z| == (if Hears(after, c, w) then 1 else 0) && (z != [] ==> Bare(z[0], NEW_STATUS, uin, 0x2))
    ensures Announced(slots, c, uin, after, w, x + y + z)
  {
    hide Find, Hears, Bare;
  }

  lemma LoggedInSent(slots: Slots, c: nat, uin: u32, version: Option<u32>, imageSize: Option<u8>)
    requires Live(slots, c)
    ensures var h := LoggedIn(slots, c, uin, version, imageSize);
            && Live(h.slots, c)
            && h.sent == Supersede(slots, uin).sent + [Sent(slots[c].value.fd, Packet(LOGIN_OK, []))]
                         + ChangedStatus(h.slots, c)
  {
    hide ChangedStatus, FindFrom;
  }

  lemma SeatedKeeps(slots: Slots, c: nat, uin: u32, version: u32, imageSize: u32, after: Slots, w: nat)
    requires Live(slots, c) && Live(slots, w) && Seated(slots, c, uin, version, imageSize, after)
    ensures Live(after, w) && after[w].value.fd == slots[w].value.fd
    ensures Live(after, c) && after[c].value.uin == uin && after[c].value.status == 0x2
            && after[c].value.descr == slots[c].value.descr
  {
    hide Find;
  }

  lemma LoginEnters(slots: Slots, c: nat, uin: u32, version: Option<u32>, imageSize: Option<u8>, w: nat)
    requires Unmarked(slots, c) && FdsDistinct(slots) && slots[c].value.uin == 0 && uin != 0
    requires slots[c].value.descr == None && Live(slots, w)
    ensures var h, s := LoggedIn(slots, c, uin, version, imageSize), slots[c].value;
            Entered(slots, c, uin, if version.Some? then version.value else s.version,
                    if imageSize.Some? then imageSize.value else s.imageSize, h, w)
  {
    hide FdsDistinct, LoggedIn, Supersede, PacketsTo, ChangedStatus, Seated, Announced;
    var h, s := LoggedIn(slots, c, uin, version, imageSize), slots[c].value;
    LoginSeats(slots, c, uin, version, imageSize);
    SeatedKeeps(slots, c, uin, if version.Some? then version.value else s.version,
                if imageSize.Some? then imageSize.value else s.imageSize, h.slots, w);
    LoggedInSent(slots, c, uin, version, imageSize);
    LoginAnnounces(slots, c, uin, h.slots, w);
  }

  // ---- the login packets ----

  /** A session that has not logged in yet, in a reachable state. */
  ghost predicate Waits(users: Table, slots: Slots, c: nat)
  {
    && InRange(users) && AllHealthy(users, slots) && FdsDistinct(slots)
    && Unmarked(slots, c) && slots[c].value.state == Login
  }

  lemma RightIsInRange(users: Table, uin: u32, seed: u32, hash: u32, response: Octets)
    requires InRange(users) && (RightHash(users, uin, seed, hash) || RightDigest(users, uin, seed, response))
    ensures uin != 0
  {
    hide Protocol.LoginHash, Sha1Spec.Digest, Bytes.LE32;
  }

  lemma HashLogin(users: Table, slots: Slots, c: nat, b: Octets, size: nat, version: Option<u32>, imageSize: Option<u8>,
                  w: nat)
    requires Waits(users, slots, c) && |b| >= size >= 8 && Live(slots, w)
    ensures var h, s := HandleLogin(users, slots, c, b, size, version, imageSize), slots[c].value;
            if RightHash(users, WordAt(b, 0), s.seed, WordAt(b, 4)) then
              Entered(slots, c, WordAt(b, 0), if version.Some? then version.value else s.version,
                      if imageSize.Some? then imageSize.value else s.imageSize, h, w)
            else TurnedAway(slots, c, h)
  {
    var uin, seed, hash := WordAt(b, 0), slots[c].value.seed, WordAt(b, 4);
    HashDecides(users, uin, seed, hash);
    hide RightHash, HashAccepted, Entered, LoggedIn, WordAt;
    if RightHash(users, uin, seed, hash) {
      RightEnters(users, slots, c, uin, hash, [], version, imageSize, w);
    }
  }

  /** The 3.1, 5.0 and 6.0 logins: the packet is long enough, and the hash in its second word
      decides. The version is in the 5.0 and 6.0 packets, the image size in the 6.0 packet. */
  lemma LoginOutcome(users: Table, slots: Slots, c: nat, p: Packet, env: Env, w: nat)
    requires Waits(users, slots, c) && Live(slots, w)
    requires (p.kind == LOGIN31 && |p.body| >= 12) || (p.kind == LOGIN50 && |p.body| >= 22)
             || (p.kind == LOGIN60 && |p.body| >= 31)
    ensures var h, s, b := Handle(users, slots, c, p, env), slots[c].value, p.body;
            if RightHash(users, WordAt(b, 0), s.seed, WordAt(b, 4)) then
              Entered(slots, c, WordAt(b, 0), if p.kind == LOGIN31 then s.version else WordAt(b, 12),
                      if p.kind == LOGIN60 then b[29] else s.imageSize, h, w)
            else TurnedAway(slots, c, h)
  {
    var b := p.body;
    hide HandleLogin, RightHash, Entered, WordAt, PacketsTo, Waits, TurnedAway;
    assert Unmarked(slots, c) by { WaitsUnmarked(users, slots, c); }
    if p.kind == LOGIN31 {
      HashLogin(users, slots, c, b, 12, None, None, w);
    } else if p.kind == LOGIN50 {
      HashLogin(users, slots, c, b, 22, Some(WordAt(b, 12)), None, w);
    } else {
      HashLogin(users, slots, c, b, 31, Some(WordAt(b, 12)), Some(b[29]), w);
    }
  }

  lemma WaitsUnmarked(users: Table, slots: Slots, c: nat)
    requires Waits(users, slots, c)
    ensures Unmarked(slots, c)
  {}

  /** The 7.0 login: the byte behind the number says which hash is checked; any other value and
      nothing happens. */
  lemma Login70Outcome(users: Table, slots: Slots, c: nat, b: Octets, env: Env, w: nat)
    requires Waits(users, slots, c) && Live(slots, w) && |b| >= 92
    ensures var h, s := Handle(users, slots, c, Packet(LOGIN70, b), env), slots[c].value;
            if b[4] != 1 && b[4] != 2 then h == Effect(slots, [])
            else if (b[4] == 1 && RightHash(users, WordAt(b, 0), s.seed, env.hashAddress))
                    || (b[4] == 2 && RightDigest(users, WordAt(b, 0), s.seed, b[5..69])) then
              Entered(slots, c, WordAt(b, 0), WordAt(b, 73), b[90], h, w)
            else TurnedAway(slots, c, h)
  {
    var s := slots[c].value;
    HashDecides(users, WordAt(b, 0), s.seed, env.hashAddress);
    DigestDecides(users, WordAt(b, 0), s.seed, b[5..69]);
    WaitsUnmarked(users, slots, c);
    Login70Is(users, slots, c, b, env);
    hide Handle, RightHash, HashAccepted, RightDigest, DigestAccepted, Entered, LoggedIn, WordAt, Waits;
    if RightHash(users, WordAt(b, 0), s.seed, env.hashAddress) || RightDigest(users, WordAt(b, 0), s.seed, b[5..69]) {
      RightEnters(users, slots, c, WordAt(b, 0), env.hashAddress, b[5..69], Some(WordAt(b, 73)), Some(b[90]), w);
    }
  }

  /** The three ways through the handler. */
  lemma Login70Is(users: Table, slots: Slots, c: nat, b: Octets, env: Env)
    requires Unmarked(slots, c) && slots[c].value.state == Login && |b| >= 92
    ensures var h, uin, seed := Handle(users, slots, c, Packet(LOGIN70, b), env), WordAt(b, 0), slots[c].value.seed;
            if b[4] != 1 && b[4] != 2 then h == Effect(slots, [])
            else if (b[4] == 1 && HashAccepted(users, uin, seed, env.hashAddress))
                    || (b[4] == 2 && DigestAccepted(users, uin, seed, b[5..69])) then
              h == LoggedIn(slots, c, uin, Some(WordAt(b, 73)), Some(b[90]))
            else h == LoginFailed(slots, c)
  {
    hide HashAccepted, DigestAccepted, LoggedIn, LoginFailed, WordAt;
  }

  lemma RightEnters(users: Table, slots: Slots, c: nat, uin: u32, hash: u32, response: Octets,
                    version: Option<u32>, imageSize: Option<u8>, w: nat)
    requires Waits(users, slots, c) && Live(slots, w)
    requires RightHash(users, uin, slots[c].value.seed, hash) || RightDigest(users, uin, slots[c].value.seed, response)
    ensures var h, s := LoggedIn(slots, c, uin, version, imageSize), slots[c].value;
            Entered(slots, c, uin, if version.Some? then version.value else s.version,
                    if imageSize.Some? then imageSize.value else s.imageSize, h, w)
  {
    hide RightHash, RightDigest, Entered, LoggedIn, FdsDistinct;
    RightIsInRange(users, uin, slots[c].value.seed, hash, response);
    LoginEnters(slots, c, uin, version, imageSize, w);
  }

  /** In short: after a login packet the session is logged in iff its sender knows the password. */
  lemma LoggedInIff(users: Table, slots: Slots, c: nat, p: Packet, env: Env)
    requires Waits(users, slots, c)
    requires (p.kind == LOGIN31 && |p.body| >= 12) || (p.kind == LOGIN50 && |p.body| >= 22)
             || (p.kind == LOGIN60 && |p.body| >= 31)
    ensures var h := Handle(users, slots, c, p, env);
            && Live(h.slots, c)
            && (h.slots[c].value.state == LoginOk <==>
                  RightHash(users, WordAt(p.body, 0), slots[c].value.seed, WordAt(p.body, 4)))
  {
    WaitsUnmarked(users, slots, c);
    LoginOutcome(users, slots, c, p, env, c);
    hide Handle, WordAt, PacketsTo, RightHash, Seated, Announced, TurnedAway, Waits;
    var h, uin := Handle(users, slots, c, p, env), WordAt(p.body, 0);
    if RightHash(users, uin, slots[c].value.seed, WordAt(p.body, 4)) {
      SeatedIsIn(slots, c, uin, if p.kind == LOGIN31 then slots[c].value.version else WordAt(p.body, 12),
                 if p.kind == LOGIN60 then p.body[29] else slots[c].value.imageSize, h.slots);
    } else {
      TurnedAwayIsOut(users, slots, c, h);
    }
  }

  lemma SeatedIsIn(slots: Slots, c: nat, uin: u32, version: u32, imageSize: u32, after: Slots)
    requires Live(slots, c) && Seated(slots, c, uin, version, imageSize, after)
    ensures Live(after, c) && after[c].value.state == LoginOk
  {
    hide Find;
  }

  lemma TurnedAwayIsOut(users: Table, slots: Slots, c: nat, h: Effect)
    requires Waits(users, slots, c) && TurnedAway(slots, c, h)
    ensures Live(h.slots, c) && h.slots[c].value.state == Login
  {}

  // ---- the greeting ----

  /** accept: while there is room, the new session is in the table, waits for a login, and has the
      seed that the four bytes of the one new packet, its greeting, carry. */
  lemma Greets(s: Server, fd: nat, addr: Address, seed: u32)
    requires Inv(s) && Enabled(s, Accept(fd, addr, seed))
    ensures var t, at := Next(s, Accept(fd, addr, seed)), FreeSlot(s.slots, 0);
            if |Occupied(s.slots)| == 1024 then t == s
            else
              && at.Some?
              && t.slots == s.slots[at.value :=
                   Some(Session(fd, addr, seed, Login, 0, 0x1, None, false, 0, 0, false, []))]
              && t.count == s.count + 1 && t.users == s.users
              && |t.wire| == |s.wire| + 1 && s.wire <= t.wire
              && var x := t.wire[|s.wire|];
                 && x.fd == fd && x.packet.kind == WELCOME && |x.packet.body| == 4
                 && WordAt(x.packet.body, 0) == t.slots[at.value].value.seed
  {
    FreeSlotIffRoom(s);
    GreetingWord(seed);
    hide Inv, FreeSlot, LE32, WordAt, Occupied;
  }

  lemma GreetingWord(seed: u32)
    ensures WordAt(LE32(seed), 0) == seed
  {
    hide LE32, WordAt;
    assert LE32(seed)[0..4] == LE32(seed);
    WordOfLE32(LE32(seed), 0, seed);
  }

  /** The word of the last greeting among these packets. */
  function Greeting(ps: seq<Packet>): Option<u32>
  {
    if ps == [] then None
    else
      var last := ps[|ps| - 1];
      if last.kind == WELCOME && |last.body| == 4 then Some(WordAt(last.body, 0)) else Greeting(ps[..|ps| - 1])
  }

  lemma {:induction false} NoGreeting(a: seq<Packet>, b: seq<Packet>)
    requires forall k :: 0 <= k < |b| ==> b[k].kind != WELCOME
    ensures Greeting(a + b) == Greeting(a)
    decreases |b|
  {
    hide WordAt;
    if b == [] {
      assert a + b == a;
    } else {
      assert (a + b)[..|a + b| - 1] == a + b[..|b| - 1];
      NoGreeting(a, b[..|b| - 1]);
    }
  }

  lemma {:induction false} KindsTo(sent: seq<Sent>, fd: nat)
    requires forall k :: 0 <= k < |sent| ==> sent[k].packet.kind != WELCOME
    ensures forall k :: 0 <= k < |PacketsTo(sent, fd)| ==> PacketsTo(sent, fd)[k].kind != WELCOME
  {
    if sent != [] {
      KindsTo(sent[..|sent| - 1], fd);
    }
  }

  /** No handler greets anyone. */
  lemma HandlersGreetNobody(users: Table, slots: Slots, c: nat, p: Packet, env: Env)
    requires Live(slots, c)
    ensures var sent := Handle(users, slots, c, p, env).sent;
            forall k :: 0 <= k < |sent| ==> sent[k].packet.kind != WELCOME
  {
    hide Handle, FindSession, WordAt;
    if p.kind != SEND_MSG {
      Messages.HandlersAreOther(users, slots, c, p, env);
    } else if slots[c].value.remove {
      MarkedIsIgnored(users, slots, c, p, env);
    } else {
      Messages.RequestOutcome(users, slots, c, p, env);
    }
  }

  /** Every session was greeted with the seed that its login is checked with. */
  ghost predicate Greeted(s: Server)
  {
    forall i :: 0 <= i < MAX_CLIENTS && s.slots[i].Some? ==>
      Greeting(PacketsTo(s.wire, s.slots[i].value.fd)) == Some(s.slots[i].value.seed)
  }

  lemma DeliverGreeted(s: Server, e: Event)
    requires Inv(s) && Enabled(s, e) && e.Deliver? && Greeted(s)
    ensures Greeted(Next(s, e))
  {
    HandlersGreetNobody(s.users, s.slots, e.c, e.packet, e.env);
    HandleIsTame(s.users, s.slots, e.c, e.packet, e.env);
    hide Handle, PacketsTo, Greeting, Healthy;
    var t := Next(s, e);
    var sent := Handle(s.users, s.slots, e.c, e.packet, e.env).sent;
    forall i | 0 <= i < MAX_CLIENTS && t.slots[i].Some?
      ensures Greeting(PacketsTo(t.wire, t.slots[i].value.fd)) == Some(t.slots[i].value.seed)
    {
      var fd := t.slots[i].value.fd;
      assert s.slots[i].Some? && s.slots[i].value.fd == fd && s.slots[i].value.seed == t.slots[i].value.seed;
      PacketsToBoth(s.wire, sent, fd);
      KindsTo(sent, fd);
      NoGreeting(PacketsTo(s.wire, fd), PacketsTo(sent, fd));
    }
  }

  lemma AcceptGreeted(s: Server, e: Event)
    requires Inv(s) && Enabled(s, e) && e.Accept? && Greeted(s)
    ensures Greeted(Next(s, e))
  {
    FreeSlotIffRoom(s);
    GreetingWord(e.seed);
    hide Inv, PacketsTo, Greeting, FreeSlot, LE32, WordAt;
    if s.count < MAX_CLIENTS {
      var t, p := Next(s, e), Packet(WELCOME, LE32(e.seed));
      forall i | 0 <= i < MAX_CLIENTS && t.slots[i].Some?
        ensures Greeting(PacketsTo(t.wire, t.slots[i].value.fd)) == Some(t.slots[i].value.seed)
      {
        GreetingAdded(s.wire, e.fd, p, t.slots[i].value.fd);
      }
    }
  }

  lemma GreetingAdded(wire: seq<Sent>, to: nat, p: Packet, fd: nat)
    requires p.kind == WELCOME && |p.body| == 4
    ensures Greeting(PacketsTo(wire + [Sent(to, p)], fd))
         == if fd == to then Some(WordAt(p.body, 0)) else Greeting(PacketsTo(wire, fd))
  {
    hide PacketsTo, Greeting, WordAt;
    PacketsToBoth(wire, [Sent(to, p)], fd);
    PacketsToOne(Sent(to, p), fd);
    GreetingLast(PacketsTo(wire, fd), p);
  }

  lemma GreetingLast(ps: seq<Packet>, p: Packet)
    requires p.kind == WELCOME && |p.body| == 4
    ensures Greeting(ps + [p]) == Some(WordAt(p.body, 0))
    ensures ps + [] == ps
  {
    hide WordAt;
  }

  lemma StepGreeted(s: Server, e: Event)
    requires Inv(s) && Enabled(s, e) && Greeted(s)
    ensures Greeted(Next(s, e))
  {
    match e
    case Accept(_, _, _) => AcceptGreeted(s, e);
    case Deliver(_, _, _) => DeliverGreeted(s, e);
    case Close(_) => hide PacketsTo, Greeting;
    case SignUp(_, _) =>
  }

  lemma {:induction false} RunGreeted(ss: seq<Server>, es: seq<Event>, k: nat)
    requires Run(ss, es) && k < |ss|
    ensures Greeted(ss[k])
  {
    hide Greeted, Next, Inv, Enabled;
    if k == 0 {
      NobodyGreeted(ss[0]);
    } else {
      RunGreeted(ss, es, k - 1);
      Reachable(ss, es, k - 1);
      assert Steps(ss[k - 1], es[k - 1], ss[k]);
      StepGreeted(ss[k - 1], es[k - 1]);
    }
  }

  lemma NobodyGreeted(s: Server)
    requires Initial(s)
    ensures Greeted(s)
  {}

  /** From the outside, over every run: a session that answers the greeting it was sent with a 3.1,
      5.0 or 6.0 login is logged in iff the hash is that of the password and the word of the
      greeting. */
  lemma GreetingAnswered(ss: seq<Server>, es: seq<Event>, k: nat)
    requires Run(ss, es) && k < |es| && es[k].Deliver? && Unmarked(ss[k].slots, es[k].c)
    requires ss[k].slots[es[k].c].value.state == Login
    requires var p := es[k].packet;
             (p.kind == LOGIN31 && |p.body| >= 12) || (p.kind == LOGIN50 && |p.body| >= 22)
             || (p.kind == LOGIN60 && |p.body| >= 31)
    ensures var c, p := es[k].c, es[k].packet;
            var seed := Greeting(PacketsTo(ss[k].wire, ss[k].slots[c].value.fd));
            && seed.Some? && Live(ss[k + 1].slots, c)
            && (ss[k + 1].slots[c].value.state == LoginOk <==>
                  RightHash(ss[k].users, WordAt(p.body, 0), seed.value, WordAt(p.body, 4)))
  {
    var s, e := ss[k], es[k];
    assert Steps(s, e, ss[k + 1]);
    Reachable(ss, es, k);
    RunGreeted(ss, es, k);
    hide Run, Handle, WordAt, PacketsTo, Greeting, RightHash, AllHealthy, FdsDistinct, InRange;
    LoggedInIff(s.users, s.slots, e.c, e.packet, e.env);
  }

  // ---- from the registration to the login ----

  /** Accounts stay as they are over a run. */
  lemma {:induction false} RunKeepsUsers(ss: seq<Server>, es: seq<Event>, j: nat, k: nat)
    requires Run(ss, es) && j <= k < |ss|
    ensures forall uin :: uin in ss[j].users ==> uin in ss[k].users && ss[k].users[uin] == ss[j].users[uin]
    decreases k
  {
    hide Registered, Handle, Initial;
    if j < k {
      RunKeepsUsers(ss, es, j, k - 1);
      var s, e := ss[k - 1], es[k - 1];
      assert Steps(s, e, ss[k]);
      if e.SignUp? {
        var r :| Registered(s.users, e.request, r, e.users);
        RegisteredKeeps(s.users, e.request, r, e.users);
      }
    }
  }

  /** Whoever registered a password at any point of a run, got the number r, and later answers a
      greeting as r, is logged in iff the answer is the hash of that password (its first 63 bytes)
      and the word of the greeting, and the password is not empty. */
  lemma RegisteredLogsIn(ss: seq<Server>, es: seq<Event>, j: nat, r: u32, k: nat)
    requires Run(ss, es) && j < k < |es| && es[j].SignUp?
    requires Registered(ss[j].users, es[j].request, r, es[j].users) && r > 0
    requires es[k].Deliver? && Unmarked(ss[k].slots, es[k].c) && ss[k].slots[es[k].c].value.state == Login
    requires es[k].packet.kind == LOGIN60 && |es[k].packet.body| >= 31 && WordAt(es[k].packet.body, 0) == r
    ensures es[j].request.password.Some?
    ensures var c, password := es[k].c, es[j].request.password.value;
            var seed := Greeting(PacketsTo(ss[k].wire, ss[k].slots[c].value.fd));
            && seed.Some? && Live(ss[k + 1].slots, c)
            && (ss[k + 1].slots[c].value.state == LoginOk <==>
                  && password != []
                  && Protocol.LoginHash(Kept(password), seed.value as bv32) == WordAt(es[k].packet.body, 4) as bv32)
  {
    assert Steps(ss[j], es[j], ss[j + 1]) && ss[j + 1].users == es[j].users;
    RegisteredKeeps(ss[j].users, es[j].request, r, es[j].users);
    RunKeepsUsers(ss, es, j + 1, k);
    hide Run, Registered, WordAt, PacketsTo, Greeting, Kept, Protocol.LoginHash;
    GreetingAnswered(ss, es, k);
  }
}

/** The session server as a state machine on values: what each handler of
    src/chat/handlers.c and src/chat/messaging.c, and each operation of src/chat/client.c,
    does to the slot table and what it sends. */
module Sessions {
  import opened Wire
  import opened Options
  import opened Strings
  import opened Users
  import Protocol

  const MAX_CLIENTS: nat := 1024

  datatype LoginState = Login | LoginOk

  datatype Friend = Friend(uin: u32, flags: u8)

  datatype Address = Address(ip: u32, port: u16)

  /** client_t; the descriptor fd identifies the connection. */
  datatype Session = Session(
    fd: nat, addr: Address, seed: u32, state: LoginState, uin: u32,
    status: u32, descr: Option<Octets>, statusPrivate: bool,
    version: u32, imageSize: u32, remove: bool, friends: seq<Friend>)

  type Slots = s: seq<Option<Session>> | |s| == MAX_CLIENTS witness seq(MAX_CLIENTS, _ => None)

  /** One write_full_packet: to whom and what. */
  datatype Sent = Sent(fd: nat, packet: Packet)

  /** What a handler does: the new table and the packets it sends, in order. */
  datatype Effect = Effect(slots: Slots, sent: seq<Sent>)

  /** What a handler reads besides its arguments: two calls of time(), and the address
      that the GG32 branch of the 7.0 login passes where a hash is expected. */
  datatype Env = Env(seqTime: u32, time: u32, hashAddress: u32)

  predicate Live(slots: Slots, i: nat)
  {
    i < MAX_CLIENTS && slots[i].Some?
  }

  // ---- client.c ----

  function NewSession(fd: nat, addr: Address, seed: u32): Session
  {
    Session(fd, addr, seed, Login, 0, STATUS_NOT_AVAIL, None, false, 0, 0, false, [])
  }

  /** client_find: the lowest slot whose session has this uin, removed or not. */
  function Find(slots: Slots, uin: u32): (r: Option<nat>)
    ensures r.Some? ==> Live(slots, r.value) && slots[r.value].value.uin == uin
    ensures r.Some? ==> forall i :: 0 <= i < r.value && slots[i].Some? ==> slots[i].value.uin != uin
    ensures r.None? ==> forall i :: 0 <= i < MAX_CLIENTS && slots[i].Some? ==> slots[i].value.uin != uin
  {
    FindFrom(slots, uin, 0)
  }

  function FindFrom(slots: Slots, uin: u32, i: nat): (r: Option<nat>)
    requires i <= MAX_CLIENTS
    ensures r.Some? ==> Live(slots, r.value) && slots[r.value].value.uin == uin
    ensures r.Some? ==> forall j :: i <= j < r.value && slots[j].Some? ==> slots[j].value.uin != uin
    ensures r.None? ==> forall j :: i <= j < MAX_CLIENTS && slots[j].Some? ==> slots[j].value.uin != uin
    decreases MAX_CLIENTS - i
  {
    if i == MAX_CLIENTS then None
    else if slots[i].Some? && slots[i].value.uin == uin then Some(i)
    else FindFrom(slots, uin, i + 1)
  }

  function FindSession(slots: Slots, uin: u32): Option<Session>
  {
    var i := Find(slots, uin);
    if i.Some? then slots[i.value] else None
  }

  /** client_find_friend: the first entry with this uin. */
  function FriendAt(friends: seq<Friend>, uin: u32): (r: Option<nat>)
    ensures r.Some? ==> r.value < |friends| && friends[r.value].uin == uin
    ensures r.Some? ==> forall i :: 0 <= i < r.value ==> friends[i].uin != uin
    ensures r.None? ==> forall i :: 0 <= i < |friends| ==> friends[i].uin != uin
  {
    if friends == [] then None
    else if friends[0].uin == uin then Some(0)
    else match FriendAt(friends[1..], uin)
      case None => None
      case Some(i) => Some(i + 1)
  }

  /** client_remove_friend: without the first entry with this uin. */
  function Without(friends: seq<Friend>, uin: u32): seq<Friend>
  {
    match FriendAt(friends, uin)
    case None => friends
    case Some(i) => friends[..i] + friends[i + 1..]
  }

  /** The slot client_create's loop takes. */
  function FreeSlot(slots: Slots, i: nat): (r: Option<nat>)
    requires i <= MAX_CLIENTS
    ensures r.Some? ==> i <= r.value < MAX_CLIENTS && slots[r.value].None?
    ensures r.Some? ==> forall j :: i <= j < r.value ==> slots[j].Some?
    ensures r.None? ==> forall j :: i <= j < MAX_CLIENTS ==> slots[j].Some?
    decreases MAX_CLIENTS - i
  {
    if i == MAX_CLIENTS then None
    else if slots[i].None? then Some(i)
    else FreeSlot(slots, i + 1)
  }

  // ---- handlers.c ----

  function Descr(s: Option<Session>): Octets
  {
    if s.Some? && s.value.descr.Some? then Before(s.value.descr.value, 0) else []
  }

  /** The packet of send_status_with_descr: 8 bytes, or 20 and the description. */
  function StatusPacket(from: Option<Session>, uin: u32, fallback: u32, kind: u32): (p: Packet)
    ensures |p.body| >= 8
  {
    var status := if from.Some? then from.value.status else fallback;
    var short := LE32(uin) + LE32(status);
    if Descr(from) == [] then Packet(kind, short)
    else
      var f := from.value;
      Packet(kind, short + LE32(f.addr.ip) + LE16(f.addr.port) + LE32(f.version)
                   + [Octet(f.imageSize), 0] + Descr(from))
  }

  /** Whom changed_status(c) writes to. */
  predicate Watches(slots: Slots, c: nat, uin: u32, i: nat)
  {
    Live(slots, i) && i != c && slots[i].value.state == LoginOk && FriendAt(slots[i].value.friends, uin).Some?
  }

  /** The loop over the table that sends p to every watcher of slot c, from slot i on. */
  function Broadcast(slots: Slots, c: nat, uin: u32, p: Packet, i: nat): seq<Sent>
    requires i <= MAX_CLIENTS
    decreases MAX_CLIENTS - i
  {
    if i == MAX_CLIENTS then []
    else
      (if Watches(slots, c, uin, i) then [Sent(slots[i].value.fd, p)] else [])
      + Broadcast(slots, c, uin, p, i + 1)
  }

  function ChangedStatus(slots: Slots, c: nat): seq<Sent>
    requires Live(slots, c)
  {
    var s := slots[c].value;
    Broadcast(slots, c, s.uin, StatusPacket(Some(s), s.uin, 0, NEW_STATUS), 0)
  }

  function Put(slots: Slots, c: nat, s: Session): Slots
    requires c < MAX_CLIENTS
  {
    slots[c := Some(s)]
  }

  function Marking(slots: Slots, c: nat): Effect
    requires Live(slots, c)
  {
    Effect(Put(slots, c, slots[c].value.(remove := true)), [])
  }

  function LoginFailed(slots: Slots, c: nat): Effect
    requires Live(slots, c)
  {
    var s := slots[c].value;
    Effect(Put(slots, c, s.(remove := true)), [Sent(s.fd, Packet(LOGIN_FAILED, []))])
  }

  /** The old session of this uin is told to go and marked. */
  function Supersede(slots: Slots, uin: u32): Effect
  {
    match Find(slots, uin)
    case None => Effect(slots, [])
    case Some(o) =>
      var before := slots[o].value;
      Effect(Put(slots, o, before.(remove := true)), [Sent(before.fd, Packet(DISCONNECTING, []))])
  }

  /** What all four login handlers do once the hash is accepted; version and imageSize
      stay as they are when the packet has no such field. */
  function LoggedIn(slots: Slots, c: nat, uin: u32, version: Option<u32>, imageSize: Option<u8>): Effect
    requires Live(slots, c)
  {
    var e := Supersede(slots, uin);
    var after := Put(e.slots, c, WithLogin(e.slots[c].value, uin, version, imageSize));
    Effect(after, e.sent + [Sent(after[c].value.fd, Packet(LOGIN_OK, []))] + ChangedStatus(after, c))
  }

  function WithLogin(s: Session, uin: u32, version: Option<u32>, imageSize: Option<u8>): Session
  {
    s.(uin := uin, state := LoginOk, status := STATUS_AVAIL,
       version := if version.Some? then version.value else s.version,
       imageSize := if imageSize.Some? then imageSize.value else s.imageSize)
  }

  /** The GG 3.1, 5.0 and 6.0 logins: hash check, and a packet of at least size bytes. */
  function HandleLogin(users: Table, slots: Slots, c: nat, b: Octets, size: nat,
                       version: Option<u32>, imageSize: Option<u8>): Effect
    requires Live(slots, c) && size >= 8
  {
    if |b| < size then Effect(slots, [])
    else if slots[c].value.state != Login then Effect(slots, [])
    else if !HashAccepted(users, WordAt(b, 0), slots[c].value.seed, WordAt(b, 4)) then LoginFailed(slots, c)
    else LoggedIn(slots, c, WordAt(b, 0), version, imageSize)
  }

  predicate HashAccepted(users: Table, uin: u32, seed: u32, hash: u32)
  {
    Protocol.Authorized(users, uin, seed as bv32, hash as bv32)
  }

  predicate DigestAccepted(users: Table, uin: u32, seed: u32, response: Octets)
  {
    Protocol.Authorized70(users, uin, seed as bv32, Bits(response))
  }

  function Bits(b: Octets): (r: seq<bv8>)
    ensures |r| == |b|
  {
    seq(|b|, i requires 0 <= i < |b| => b[i] as bv8)
  }

  function Login31(users: Table, slots: Slots, c: nat, b: Octets): Effect
    requires Live(slots, c)
  {
    HandleLogin(users, slots, c, b, 12, None, None)
  }

  function Login50(users: Table, slots: Slots, c: nat, b: Octets): Effect
    requires Live(slots, c)
  {
    HandleLogin(users, slots, c, b, 22, if |b| < 22 then None else Some(WordAt(b, 12)), None)
  }

  function Login60(users: Table, slots: Slots, c: nat, b: Octets): Effect
    requires Live(slots, c)
  {
    HandleLogin(users, slots, c, b, 31, if |b| < 31 then None else Some(WordAt(b, 12)),
                if |b| < 31 then None else Some(b[29]))
  }

  function Login70(users: Table, slots: Slots, c: nat, b: Octets, env: Env): Effect
    requires Live(slots, c)
  {
    if |b| < 92 then Effect(slots, [])
    else if slots[c].value.state != Login then Effect(slots, [])
    else
      var uin, seed := WordAt(b, 0), slots[c].value.seed;
      if b[4] != HASH_GG32 && b[4] != HASH_SHA1 then Effect(slots, [])
      else if (b[4] == HASH_GG32 && !HashAccepted(users, uin, seed, env.hashAddress))
           || (b[4] == HASH_SHA1 && !DigestAccepted(users, uin, seed, b[5..69])) then LoginFailed(slots, c)
      else LoggedIn(slots, c, uin, Some(WordAt(b, 73)), Some(b[90]))
  }

  /** The packed five-byte records of gg_notify_handler's loop. */
  function Contacts(b: Octets): seq<Friend>
  {
    if |b| < 5 then [] else [Friend(WordAt(b, 0), b[4])] + Contacts(b[5..])
  }

  function AddContacts(s: Session, b: Octets): Session
  {
    s.(friends := s.friends + Contacts(b))
  }

  function WithContact(slots: Slots, c: nat, f: Friend): Effect
    requires Live(slots, c)
  {
    var s := slots[c].value;
    Effect(Put(slots, c, s.(friends := s.friends + [f])), [])
  }

  function NotifyFirst(slots: Slots, c: nat, b: Octets): Effect
    requires Live(slots, c)
  {
    var s := slots[c].value;
    if s.state != LoginOk then Effect(slots, [])
    else Effect(Put(slots, c, AddContacts(s, b)), [])
  }

  /** First loop of gg_notify_end_handler: c is told about each of its contacts. */
  function Replies(slots: Slots, fd: nat, friends: seq<Friend>): (r: seq<Sent>)
    ensures |r| == |friends|
  {
    if friends == [] then []
    else
      var uin := friends[0].uin;
      [Sent(fd, StatusPacket(FindSession(slots, uin), uin, STATUS_NOT_AVAIL, NOTIFY_REPLY))]
      + Replies(slots, fd, friends[1..])
  }

  /** Second loop: each contact that has a session is told about c. */
  function Announce(slots: Slots, s: Session, friends: seq<Friend>): seq<Sent>
  {
    if friends == [] then []
    else
      var f := FindSession(slots, friends[0].uin);
      (if f.Some? then [Sent(f.value.fd, StatusPacket(Some(s), s.uin, 0, NEW_STATUS))] else [])
      + Announce(slots, s, friends[1..])
  }

  function NotifyLast(slots: Slots, c: nat, b: Octets): Effect
    requires Live(slots, c)
  {
    if slots[c].value.state != LoginOk then Effect(slots, [])
    else
      var s := AddContacts(slots[c].value, b);
      var after := Put(slots, c, s);
      Effect(after, Replies(after, s.fd, s.friends) + Announce(after, s, s.friends) + ChangedStatus(after, c))
  }

  function WithoutMask(status: u32): u32
  {
    if status / STATUS_FRIENDS_MASK % 2 == 1 then status - STATUS_FRIENDS_MASK else status
  }

  /** The fields gg_new_status_handler sets before it sends anything. */
  function WithStatus(s: Session, b: Octets): Session
    requires |b| >= 4
  {
    s.(statusPrivate := WordAt(b, 0) / STATUS_FRIENDS_MASK % 2 == 1,
       status := WithoutMask(WordAt(b, 0)),
       descr := if |b| > 4 then Some(b[4..]) else None)
  }

  /** A non-empty description makes the handler send the plain status once more. */
  function DescrRound(slots: Slots, c: nat): seq<Sent>
    requires Live(slots, c)
  {
    var s := slots[c].value;
    if Descr(Some(s)) == [] then []
    else Broadcast(slots, c, s.uin, Packet(NEW_STATUS, LE32(s.uin) + LE32(s.status)), 0)
  }

  predicate Leaving(s: Session)
  {
    s.status == STATUS_NOT_AVAIL || s.status == STATUS_NOT_AVAIL_DESCR
  }

  function NewStatus(slots: Slots, c: nat, b: Octets): Effect
    requires Live(slots, c)
  {
    if slots[c].value.state != LoginOk || |b| < 4 then Effect(slots, [])
    else
      var s := WithStatus(slots[c].value, b);
      var after := Put(slots, c, s);
      var told := DescrRound(after, c) + ChangedStatus(after, c);
      if Leaving(s) then
        Effect(Put(after, c, s.(remove := true)), told + [Sent(s.fd, Packet(DISCONNECTING, []))])
      else Effect(after, told)
  }

  function AddNotify(slots: Slots, c: nat, b: Octets): Effect
    requires Live(slots, c)
  {
    if slots[c].value.state != LoginOk || |b| < 5 || WordAt(b, 0) == 0 then Effect(slots, [])
    else
      var s := slots[c].value.(friends := slots[c].value.friends + [Friend(WordAt(b, 0), b[4])]);
      var after := Put(slots, c, s);
      var f := FindSession(after, WordAt(b, 0));
      var status := if f.Some? then f.value.status else STATUS_NOT_AVAIL;
      Effect(after, [Sent(s.fd, Packet(NOTIFY_REPLY, LE32(WordAt(b, 0)) + LE32(status)))])
  }

  function RemoveNotify(slots: Slots, c: nat, b: Octets): Effect
    requires Live(slots, c)
  {
    var s := slots[c].value;
    if s.state != LoginOk || |b| < 5 then Effect(slots, [])
    else Effect(Put(slots, c, s.(friends := Without(s.friends, WordAt(b, 0)))), [])
  }

  function UserlistRequest(slots: Slots, c: nat, b: Octets): Effect
    requires Live(slots, c)
  {
    var s := slots[c].value;
    if s.state != LoginOk || |b| < 1 then Effect(slots, [])
    else if b[0] == USERLIST_GET then Effect(slots, [Sent(s.fd, Packet(USERLIST_REPLY, [USERLIST_GET_REPLY]))])
    else if b[0] == USERLIST_PUT || b[0] == USERLIST_PUT_MORE then
      Effect(slots, [Sent(s.fd, Packet(USERLIST_REPLY, [USERLIST_PUT_REPLY]))])
    else Effect(slots, [])
  }

  // ---- messaging.c ----

  function Ack(fd: nat, status: u32, recipient: u32, seqNo: u32): Sent
  {
    Sent(fd, Packet(SEND_MSG_ACK, LE32(status) + LE32(recipient) + LE32(seqNo)))
  }

  predicate WellFormedMessage(b: Octets)
  {
    |b| >= 13 && 0 in b[12..]
  }

  function MessagePacket(sender: u32, env: Env, msgclass: u32, text: Octets): Packet
  {
    Packet(RECV_MSG, LE32(sender) + LE32(env.seqTime) + LE32(env.time) + LE32(msgclass) + text)
  }

  function SendMessage(slots: Slots, c: nat, b: Octets, env: Env): Effect
    requires Live(slots, c)
  {
    if !WellFormedMessage(b) then Effect(slots, [])
    else
      var s := slots[c].value;
      var to, seqNo, msgclass := WordAt(b, 0), WordAt(b, 4), WordAt(b, 8);
      var r := FindSession(slots, to);
      if r.None? || r.value.state != LoginOk then Effect(slots, [Ack(s.fd, ACK_QUEUED, to, seqNo)])
      else Effect(slots, [Sent(r.value.fd, MessagePacket(s.uin, env, msgclass, b[12..])),
                          Ack(s.fd, ACK_DELIVERED, to, seqNo)])
  }

  /** handle_input_packet */
  function Handle(users: Table, slots: Slots, c: nat, p: Packet, env: Env): Effect
    requires Live(slots, c)
  {
    if slots[c].value.remove then Effect(slots, [])
    else if p.kind == LOGIN31 then Login31(users, slots, c, p.body)
    else if p.kind == LOGIN50 then Login50(users, slots, c, p.body)
    else if p.kind == LOGIN60 then Login60(users, slots, c, p.body)
    else if p.kind == LOGIN70 then Login70(users, slots, c, p.body, env)
    else if p.kind == NOTIFY_FIRST then NotifyFirst(slots, c, p.body)
    else if p.kind == NOTIFY_LAST then NotifyLast(slots, c, p.body)
    else if p.kind == USERLIST_REQUEST then UserlistRequest(slots, c, p.body)
    else if p.kind == NEW_STATUS then NewStatus(slots, c, p.body)
    else if p.kind == ADD_NOTIFY then AddNotify(slots, c, p.body)
    else if p.kind == REMOVE_NOTIFY then RemoveNotify(slots, c, p.body)
    else if p.kind == SEND_MSG then SendMessage(slots, c, p.body, env)
    else Effect(slots, []) // an empty contact list, a ping, or an unknown packet
  }

  /** A session marked for removal is not heard any more. */
  lemma MarkedIsIgnored(users: Table, slots: Slots, c: nat, p: Packet, env: Env)
    requires Live(slots, c)
    ensures slots[c].value.remove ==> Handle(users, slots, c, p, env) == Effect(slots, [])
  {}

  // ---- the whole server ----

  datatype Server = Server(slots: Slots, count: int, users: Table, wire: seq<Sent>)

  datatype Event =
    | Accept(fd: nat, addr: Address, seed: u32)   // accept, client_create, GG_WELCOME
    | Deliver(c: nat, packet: Packet, env: Env)   // the thread of slot c handles a packet
    | Close(c: nat)                               // it sees remove or a closed socket
    | SignUp(request: Request, users: Table)      // db_register, with the table it leaves

  /** When an event can happen. The server closes no descriptor of a session it accepted,
      so accept returns one that no session has. */
  ghost predicate Enabled(s: Server, e: Event)
  {
    match e
    case Accept(fd, _, _) => forall i :: 0 <= i < MAX_CLIENTS && s.slots[i].Some? ==> s.slots[i].value.fd != fd
    case Deliver(c, _, _) => Live(s.slots, c)
    case Close(c) => Live(s.slots, c)
    case SignUp(q, users) => Follows(s.users, q, users)
  }

  function Accepted(s: Server, fd: nat, addr: Address, seed: u32): Server
  {
    if s.count >= MAX_CLIENTS then s
    else
      var free := FreeSlot(s.slots, 0);
      s.(slots := if free.None? then s.slots else s.slots[free.value := Some(NewSession(fd, addr, seed))],
         count := if free.None? then s.count else s.count + 1,
         wire := s.wire + [Sent(fd, Packet(WELCOME, LE32(seed)))])
  }

  function Next(s: Server, e: Event): Server
    requires e.Deliver? ==> Live(s.slots, e.c)
    requires e.Close? ==> e.c < MAX_CLIENTS
  {
    match e
    case Accept(fd, addr, seed) => Accepted(s, fd, addr, seed)
    case Deliver(c, p, env) =>
      var h := Handle(s.users, s.slots, c, p, env);
      s.(slots := h.slots, wire := s.wire + h.sent)
    case Close(c) => s.(slots := s.slots[c := None], count := s.count - 1)
    case SignUp(_, users) => s.(users := users)
  }

  /** A run: states and the events between them, from an empty table. */
  ghost predicate Run(ss: seq<Server>, es: seq<Event>)
  {
    && |ss| == |es| + 1
    && Initial(ss[0])
    && forall k :: 0 <= k < |es| ==> Steps(ss[k], es[k], ss[k + 1])
  }

  ghost predicate Initial(s: Server)
  {
    && (forall i :: 0 <= i < MAX_CLIENTS ==> s.slots[i].None?)
    && s.count == 0 && s.wire == [] && InRange(s.users)
  }

  ghost predicate Steps(s: Server, e: Event, s': Server)
  {
    Enabled(s, e) && s' == Next(s, e)
  }

  /** Schedules in which a session marked for removal is gone before the next packet is
      handled. Without it client_find may return a session that is already superseded. */
  ghost predicate ReapFirst(s: Server, e: Event)
  {
    e.Deliver? ==> forall i :: 0 <= i < MAX_CLIENTS && s.slots[i].Some? ==> !s.slots[i].value.remove
  }

  ghost predicate ReapFirstRun(ss: seq<Server>, es: seq<Event>)
  {
    Run(ss, es) && forall k :: 0 <= k < |es| ==> ReapFirst(ss[k], es[k])
  }
}

/** src/chat/client.c (the table), src/chat/handlers.c, src/chat/messaging.c and
    src/chat/chat_server.c as they are written: objects, loops over the table, and fields
    updated in place. Each method is proved to do what the state machine of Sessions does. */
module ChatServer {
  import opened Wire
  import opened Options
  import opened Strings
  import opened Users
  import opened Sessions
  import opened Clients
  import opened Network
  import Lifecycle

  class ChatServer {
    const clients: array<Client?>
    var clientCount: int
    var calls: seq<Call> // of send(), so far
    ghost var wire: seq<Sent> // the packets that were sent with them
    const db: Database

    ghost function Objects(): set<Client>
      reads clients
    {
      set i | 0 <= i < clients.Length && clients[i] != null :: clients[i]
    }

    ghost function Lists(): set<array<Friend>>
      reads clients, Objects()
    {
      set i | 0 <= i < clients.Length && clients[i] != null :: clients[i].friends
    }

    /** The clients in the table are distinct objects with their own contact arrays. */
    ghost predicate Valid()
      reads clients, Objects()
    {
      && clients.Length == MAX_CLIENTS
      && (forall i :: 0 <= i < clients.Length && clients[i] != null ==> clients[i].Valid())
      && (forall i, j :: 0 <= i < j < clients.Length && clients[i] != null && clients[j] != null ==>
           clients[i] != clients[j] && clients[i].friends != clients[j].friends)
    }

    ghost function Slots(): Slots
      requires Valid()
      reads clients, Objects(), Lists()
    {
      seq(MAX_CLIENTS, i requires 0 <= i < MAX_CLIENTS reads clients, Objects(), Lists()
                         requires clients.Length == MAX_CLIENTS && (clients[i] != null ==> clients[i].Valid()) =>
        if clients[i] == null then None else Some(clients[i].View()))
    }

    /** The calls are those that the packets need. */
    ghost predicate Framed()
      reads this`calls, this`wire
    {
      calls == CallsOf(wire)
    }

    ghost predicate At(c: Client, at: nat)
      reads clients
    {
      at < MAX_CLIENTS == clients.Length && clients[at] == c
    }

    /** clients_init */
    constructor (db: Database)
      ensures Valid() && fresh(clients)
      ensures Slots() == seq(MAX_CLIENTS, _ => None) && clientCount == 0 && wire == [] && Framed()
      ensures this.db == db
    {
      this.db := db;
      clients := new Client?[MAX_CLIENTS](_ => null);
      clientCount := 0;
      calls, wire := [], [];
    }

    /** write_client, on an open connection. */
    method WriteClient(to: Client, data: Octets)
      modifies this`calls
      ensures calls == old(calls) + [Call(to.fd, data)]
    {
      calls := calls + [Call(to.fd, data)];
    }

    /** Connection x.fd got the bytes of the packet, and no other connection got any. */
    twostate predicate Added(x: Sent)
      reads this`calls
    {
      forall fd :: BytesTo(calls, fd) == old(BytesTo(calls, fd)) + (if fd == x.fd then Encode(x.packet) else [])
    }

    /** write_full_packet: the bytes of connection to.fd grow by the encoding of the packet,
        those of every other connection stay. */
    method WriteFullPacket(to: Client, kind: u32, body: Octets)
      modifies this`wire, this`calls
      ensures wire == old(wire) + [Sent(to.fd, Packet(kind, body))]
      ensures Added(Sent(to.fd, Packet(kind, body)))
      ensures old(Framed()) ==> Framed()
      ensures old(Valid()) ==> Valid() && Slots() == old(Slots())
    {
      hide BytesTo, CallsOf, Encode, LE32;
      ghost var x := Sent(to.fd, Packet(kind, body));
      ghost var before := calls;
      WriteClient(to, LE32(kind) + LE32(|body| % 0x1_0000_0000));
      if body != [] {
        WriteClient(to, body);
      }
      wire := wire + [x];
      assert calls == before + CallsFor(x);
      CallsSnoc(old(wire), x);
      forall fd: nat ensures BytesTo(calls, fd)
          == BytesTo(before, fd) + (if fd == to.fd then Encode(x.packet) else []) {
        PacketAddsItsEncoding(before, x, fd);
      }
    }

    ghost function ViewOf(c: Client?): Option<Session>
      requires c != null ==> c.Valid()
      reads c, if c == null then {} else {c.friends}
    {
      if c == null then None else Some(c.View())
    }

    method ClientFind(uin: u32) returns (r: Client?, ghost at: Option<nat>)
      requires Valid()
      ensures at == Find(Slots(), uin)
      ensures if at.None? then r == null else r != null && At(r, at.value) && r in Objects()
      ensures r != null ==> r.Valid()
      ensures ViewOf(r) == FindSession(Slots(), uin)
      ensures Valid() && Slots() == old(Slots())
    {
      hide FindFrom, Slots, Client.Valid;
      for i := 0 to MAX_CLIENTS
        invariant Slots() == old(Slots()) && FindFrom(Slots(), uin, 0) == FindFrom(Slots(), uin, i)
      {
        SlotAt(i);
        FindFromStep(Slots(), uin, i);
        if clients[i] != null && clients[i].uin == uin {
          return clients[i], Some(i);
        }
      }
      FindFromEnd(Slots(), uin);
      return null, None;
    }

    method SendStatusWithDescr(to: Client, from: Client?, uin: u32, fallback: u32, kind: u32)
      requires from != null ==> from.Valid()
      modifies this`wire, this`calls
      ensures wire == old(wire) + [Sent(to.fd, StatusPacket(ViewOf(from), uin, fallback, kind))]
      ensures old(Valid()) ==> Valid() && Slots() == old(Slots())
      ensures old(Framed()) ==> Framed()
    {
      hide Framed, Added, Slots, Valid;
      var status := if from != null then from.status else fallback;
      var descr := if from != null && from.descr.Some? then Before(from.descr.value, 0) else [];
      if descr == [] {
        WriteFullPacket(to, kind, LE32(uin) + LE32(status));
        return;
      }
      var body := LE32(uin) + LE32(status) + LE32(from.addr.ip) + LE16(from.addr.port) + LE32(from.version)
        + [Octet(from.imageSize), 0] + descr;
      WriteFullPacket(to, kind, body);
    }

    /** The three tests at the top of both broadcast loops. */
    method IsWatcher(c: Client, ghost at: nat, i: nat) returns (yes: bool)
      requires Valid() && At(c, at) && i < MAX_CLIENTS
      ensures yes == Watches(Slots(), at, c.uin, i)
      ensures yes ==> clients[i] != null
      ensures Valid() && Slots() == old(Slots())
    {
      var other := clients[i];
      if other == null || other == c {
        return false;
      }
      if other.state != LoginOk {
        return false;
      }
      var entry := other.FindFriend(c.uin);
      return entry.Some?;
    }

    /** One turn of the loop of changed_status. */
    method TellWatcher(c: Client, ghost at: nat, i: nat)
      requires Valid() && At(c, at) && i < MAX_CLIENTS
      modifies this`wire, this`calls
      ensures Valid() && Slots() == old(Slots()) && (old(Framed()) ==> Framed())
      ensures wire == old(wire) + TurnFor(Slots(), at, i, StatusPacket(Slots()[at], c.uin, 0, NEW_STATUS))
    {
      hide StatusPacket, Watches, Slots, Client.Valid, Framed, Added;
      SlotAt(at);
      SlotAt(i);
      var yes := IsWatcher(c, at, i);
      if yes {
        SendStatusWithDescr(clients[i], c, c.uin, 0, NEW_STATUS);
      } else {
        assert wire == old(wire) + [];
      }
    }

    method ChangedStatus(c: Client, ghost at: nat)
      requires Valid() && At(c, at)
      modifies this`wire, this`calls
      ensures Valid() && Slots() == old(Slots())
      ensures wire == old(wire) + Sessions.ChangedStatus(Slots(), at)
      ensures old(Framed()) ==> Framed()
    {
      hide Valid, Slots, Client.Valid, Framed, TurnFor, Broadcast, StatusPacket;
      SlotAt(at);
      ghost var s, uin := Slots(), c.uin;
      ghost var p := StatusPacket(s[at], uin, 0, NEW_STATUS);
      for i := 0 to MAX_CLIENTS
        invariant Valid() && Slots() == s && (old(Framed()) ==> Framed())
        invariant old(wire) + Broadcast(s, at, uin, p, 0) == wire + Broadcast(s, at, uin, p, i)
      {
        TellWatcher(c, at, i);
        BroadcastStep(s, at, i, p);
      }
      BroadcastEnd(s, at, uin, p);
    }

    lemma SlotAt(i: nat)
      requires Valid() && i < MAX_CLIENTS
      ensures clients[i] == null ==> Slots()[i] == None
      ensures clients[i] != null ==> clients[i].Valid() && Slots()[i] == Some(clients[i].View())
    {}

    /** The method did what e says: the table is e's, and e's packets are appended. */
    twostate predicate Did(e: Effect)
      reads this, clients, Objects(), Lists()
    {
      Valid() && Slots() == e.slots && wire == old(wire) + e.sent && (old(Framed()) ==> Framed())
    }

    /** When one client's fields change and nothing else, so does one slot. */
    ghost predicate Others(before: Slots, at: nat)
      requires clients.Length == MAX_CLIENTS
      reads clients, Objects(), Lists()
    {
      forall i :: 0 <= i < MAX_CLIENTS && i != at ==>
        (clients[i] != null ==> clients[i].Valid()) && ViewOf(clients[i]) == before[i]
    }

    lemma OneChanged(before: Slots, c: Client, at: nat)
      requires Valid() && At(c, at) && Others(before, at)
      ensures Slots() == Put(before, at, c.View())
    {
      hide Client.Valid;
    }

    method MarkRemoved(c: Client, ghost at: nat)
      requires Valid() && At(c, at)
      modifies c`remove
      ensures Did(Marking(old(Slots()), at))
      ensures c.remove
    {
      ghost var before := Slots();
      c.remove := true;
      assert Others(before, at);
      OneChanged(before, c, at);
    }

    method FailLogin(c: Client, ghost at: nat)
      requires Valid() && At(c, at)
      modifies this`wire, this`calls, c`remove
      ensures Did(LoginFailed(old(Slots()), at))
    {
      SlotAt(at);
      hide Framed, Added, Valid, Slots;
      WriteFullPacket(c, LOGIN_FAILED, []);
      MarkRemoved(c, at);
    }

    /** The duplicate check: the session found under this number has to go. */
    method SupersedeOld(uin: u32)
      requires Valid()
      modifies this`wire, this`calls, Objects()`remove
      ensures Did(Supersede(old(Slots()), uin))
    {
      hide Framed, Added, Valid, Slots, Find;
      var prior, where := ClientFind(uin);
      assert wire == old(wire) + [];
      if prior != null {
        SlotAt(where.value);
        WriteFullPacket(prior, DISCONNECTING, []);
        MarkRemoved(prior, where.value);
      }
    }

    /** The answer to a login, and the news for those who watch. */
    method TellLogin(c: Client, ghost at: nat)
      requires Valid() && At(c, at)
      modifies this`wire, this`calls
      ensures var slots := old(Slots());
              Live(slots, at) && Did(Effect(slots, LoginNews(slots, at)))
    {
      hide Framed, Added, Valid, Slots, Client.Valid, Sessions.ChangedStatus;
      SlotAt(at);
      WriteFullPacket(c, LOGIN_OK, []);
      ChangedStatus(c, at);
    }

    /** What the four login handlers repeat word for word once the hash is accepted. */
    method CompleteLogin(c: Client, ghost at: nat, uin: u32, version: Option<u32>, imageSize: Option<u8>)
      requires Valid() && At(c, at)
      modifies this`wire, this`calls, c, Objects()`remove
      ensures Did(LoggedIn(old(Slots()), at, uin, version, imageSize))
      ensures c.friends == old(c.friends)
    {
      hide Framed, Valid, Slots, Client.Valid, WithLogin, Sessions.ChangedStatus, Supersede, LoginNews, LoggedIn;
      SlotAt(at);
      LoggedInNews(Slots(), at, uin, version, imageSize);
      SupersedeOld(uin);
      SetLogin(c, at, uin, version, imageSize);
      TellLogin(c, at);
    }

    method SetLogin(c: Client, ghost at: nat, uin: u32, version: Option<u32>, imageSize: Option<u8>)
      requires Valid() && At(c, at)
      modifies c
      ensures Valid() && Live(old(Slots()), at)
      ensures Slots() == Put(old(Slots()), at, WithLogin(old(Slots())[at].value, uin, version, imageSize))
      ensures Slots()[at].value.fd == c.fd
      ensures c.friends == old(c.friends)
    {
      ghost var before := Slots();
      SlotAt(at);
      c.SetLogin(uin, version, imageSize);
      assert Others(before, at);
      OneChanged(before, c, at);
    }

    // ---- login handlers ----

    method Authorize(uin: u32, seed: u32, hash: u32) returns (ok: bool)
      ensures ok == HashAccepted(db.rows, uin, seed, hash)
      ensures old(Valid()) ==> Valid() && Slots() == old(Slots())
    {
      hide Protocol.Authorized;
      ok := Protocol.Authorize(db, uin, seed as bv32, hash as bv32);
    }

    method Authorize70(uin: u32, seed: u32, response: Octets) returns (ok: bool)
      requires |response| >= 20
      ensures ok == DigestAccepted(db.rows, uin, seed, response)
      ensures old(Valid()) ==> Valid() && Slots() == old(Slots())
    {
      hide Protocol.Authorized70;
      ok := Protocol.Authorize70(db, uin, seed as bv32, Bits(response));
    }

    /** The answer to a hash that was checked. */
    method Answer(c: Client, ghost at: nat, ok: bool, uin: u32, version: Option<u32>, imageSize: Option<u8>)
      requires Valid() && At(c, at)
      modifies this`wire, this`calls, c, Objects()`remove
      ensures Did(if ok then LoggedIn(old(Slots()), at, uin, version, imageSize) else LoginFailed(old(Slots()), at))
      ensures c.friends == old(c.friends)
    {
      SlotAt(at);
      hide Valid, Slots, LoggedIn, LoginFailed;
      if ok {
        CompleteLogin(c, at, uin, version, imageSize);
      } else {
        FailLogin(c, at);
      }
    }

    /** The GG 3.1, 5.0 and 6.0 handlers differ in the size of the packet and in the fields
        behind the hash. */
    method LoginHandler(c: Client, ghost at: nat, b: Octets, size: nat, version: Option<u32>, imageSize: Option<u8>)
      requires Valid() && At(c, at) && size >= 8
      modifies this`wire, this`calls, c, Objects()`remove
      ensures Did(HandleLogin(old(db.rows), old(Slots()), at, b, size, version, imageSize))
      ensures c.friends == old(c.friends)
    {
      hide Framed, Added, Valid, Slots, Client.Valid, HashAccepted, LoggedIn, LoginFailed, WordAt;
      SlotAt(at);
      assert wire == old(wire) + [];
      if |b| < size || c.state != Login {
        return;
      }
      var ok := Authorize(WordAt(b, 0), c.seed, WordAt(b, 4));
      Answer(c, at, ok, WordAt(b, 0), version, imageSize);
    }

    method GgLogin31Handler(c: Client, ghost at: nat, b: Octets)
      requires Valid() && At(c, at)
      modifies this`wire, this`calls, c, Objects()`remove
      ensures Did(Login31(old(db.rows), old(Slots()), at, b))
      ensures c.friends == old(c.friends)
    {
      hide HandleLogin;
      LoginHandler(c, at, b, 12, None, None);
    }

    method GgLogin50Handler(c: Client, ghost at: nat, b: Octets)
      requires Valid() && At(c, at)
      modifies this`wire, this`calls, c, Objects()`remove
      ensures Did(Login50(old(db.rows), old(Slots()), at, b))
      ensures c.friends == old(c.friends)
    {
      hide HandleLogin, WordAt;
      LoginHandler(c, at, b, 22, if |b| < 22 then None else Some(WordAt(b, 12)), None);
    }

    method GgLogin60Handler(c: Client, ghost at: nat, b: Octets)
      requires Valid() && At(c, at)
      modifies this`wire, this`calls, c, Objects()`remove
      ensures Did(Login60(old(db.rows), old(Slots()), at, b))
      ensures c.friends == old(c.friends)
    {
      hide HandleLogin, WordAt;
      LoginHandler(c, at, b, 31, if |b| < 31 then None else Some(WordAt(b, 12)),
                   if |b| < 31 then None else Some(b[29]));
    }

    method GgLogin70Handler(c: Client, ghost at: nat, b: Octets, env: Env)
      requires Valid() && At(c, at)
      modifies this`wire, this`calls, c, Objects()`remove
      ensures Did(Login70(old(db.rows), old(Slots()), at, b, env))
      ensures c.friends == old(c.friends)
    {
      hide Framed, Added, Valid, Slots, Client.Valid, HashAccepted, DigestAccepted, LoggedIn, LoginFailed, WordAt;
      SlotAt(at);
      assert wire == old(wire) + [];
      if |b| < 92 || c.state != Login {
        return;
      }
      var uin := WordAt(b, 0);
      var ok := false;
      if b[4] == HASH_GG32 {
        ok := Authorize(uin, c.seed, env.hashAddress);
      } else if b[4] == HASH_SHA1 {
        ok := Authorize70(uin, c.seed, b[5..69]);
      } else {
        return;
      }
      Answer(c, at, ok, uin, Some(WordAt(b, 73)), Some(b[90]));
    }

    // ---- contact lists ----

    method AddContact(c: Client, ghost at: nat, uin: u32, flags: u8)
      requires Valid() && At(c, at)
      modifies c, c.friends
      ensures Did(WithContact(old(Slots()), at, Friend(uin, flags)))
      ensures c.friends == old(c.friends) || fresh(c.friends)
      ensures c.state == old(c.state)
    {
      ghost var before := Slots();
      SlotAt(at);
      c.AddFriend(uin, flags);
      assert Others(before, at);
      OneChanged(before, c, at);
    }

    method NotifyHandler(c: Client, ghost at: nat, b: Octets) returns (code: int)
      requires Valid() && At(c, at)
      modifies c, c.friends
      ensures Did(NotifyFirst(old(Slots()), at, b))
      ensures At(c, at) && (c.friends == old(c.friends) || fresh(c.friends))
      ensures code == if old(c.state) == LoginOk then 0 else -3
    {
      hide Valid, Slots, Client.Valid, AddContacts, WordAt;
      SlotAt(at);
      assert wire == old(wire) + [];
      if c.state != LoginOk {
        return -3;
      }
      ghost var all := WithContacts(Slots(), at, b);
      var rest := b;
      while |rest| >= 5
        invariant Valid() && At(c, at) && Live(Slots(), at)
        invariant c.friends == old(c.friends) || fresh(c.friends)
        invariant WithContacts(Slots(), at, rest) == all
        decreases |rest|
      {
        ContactsStep(Slots(), at, rest);
        AddContact(c, at, WordAt(rest, 0), rest[4]);
        rest := rest[5..];
      }
      ContactsEnd(Slots(), at, rest);
      return 0;
    }

    /** One turn of the first loop of gg_notify_end_handler. */
    method ReplyTo(c: Client, ghost at: nat, uin: u32)
      requires Valid() && At(c, at)
      modifies this`wire, this`calls
      ensures Valid() && Slots() == old(Slots()) && (old(Framed()) ==> Framed())
      ensures wire == old(wire) + [ReplyAbout(Slots(), c.fd, uin)]
    {
      hide Valid, Slots, Client.Valid, Framed, Added, StatusPacket, FindSession;
      var contact, where := ClientFind(uin);
      SendStatusWithDescr(c, contact, uin, STATUS_NOT_AVAIL, NOTIFY_REPLY);
    }

    method ReplyToAll(c: Client, ghost at: nat)
      requires Valid() && At(c, at)
      modifies this`wire, this`calls
      ensures Valid() && Slots() == old(Slots())
      ensures wire == old(wire) + Replies(Slots(), c.fd, Slots()[at].value.friends)
      ensures old(Framed()) ==> Framed()
    {
      hide Valid, Slots, Client.Valid, Framed, Replies, ReplyAbout;
      SlotAt(at);
      ghost var s, friends := Slots(), c.Friends();
      for i := 0 to c.friendCount
        invariant Valid() && Slots() == s && (old(Framed()) ==> Framed())
        invariant c.Valid() && c.Friends() == friends
        invariant old(wire) + Replies(s, c.fd, friends) == wire + Replies(s, c.fd, friends[i..])
      {
        RepliesStep(s, c.fd, friends, i);
        ReplyTo(c, at, c.friends[i].uin);
      }
    }

    /** One turn of its second loop. */
    method AnnounceTo(c: Client, ghost at: nat, uin: u32)
      requires Valid() && At(c, at)
      modifies this`wire, this`calls
      ensures Valid() && Slots() == old(Slots()) && (old(Framed()) ==> Framed())
      ensures wire == old(wire) + AnnounceOne(Slots(), Slots()[at].value, uin)
    {
      hide Valid, Slots, Client.Valid, Framed, Added, StatusPacket, FindSession;
      SlotAt(at);
      var contact, where := ClientFind(uin);
      if contact != null {
        SendStatusWithDescr(contact, c, c.uin, 0, NEW_STATUS);
      } else {
        assert wire == old(wire) + [];
      }
    }

    method AnnounceToAll(c: Client, ghost at: nat)
      requires Valid() && At(c, at)
      modifies this`wire, this`calls
      ensures Valid() && Slots() == old(Slots())
      ensures wire == old(wire) + Announce(Slots(), Slots()[at].value, Slots()[at].value.friends)
      ensures old(Framed()) ==> Framed()
    {
      hide Valid, Slots, Client.Valid, Framed, Announce, AnnounceOne;
      SlotAt(at);
      ghost var s, view, friends := Slots(), c.View(), c.Friends();
      for i := 0 to c.friendCount
        invariant Valid() && Slots() == s && (old(Framed()) ==> Framed())
        invariant c.Valid() && c.Friends() == friends
        invariant old(wire) + Announce(s, view, friends) == wire + Announce(s, view, friends[i..])
      {
        AnnounceStep(s, view, friends, i);
        AnnounceTo(c, at, c.friends[i].uin);
      }
      assert friends[|friends|..] == [];
      AnnounceNone(s, view);
    }

    /** The three rounds of packets. */
    method TellAll(c: Client, ghost at: nat)
      requires Valid() && At(c, at)
      modifies this`wire, this`calls
      ensures var slots := old(Slots());
              Live(slots, at) && Did(Effect(slots, Rounds(slots, at)))
    {
      hide Framed, Added, Valid, Slots, Client.Valid, Replies, Announce, Sessions.ChangedStatus;
      SlotAt(at);
      ReplyToAll(c, at);
      AnnounceToAll(c, at);
      ChangedStatus(c, at);
    }

    method NotifyEndHandler(c: Client, ghost at: nat, b: Octets)
      requires Valid() && At(c, at)
      modifies this`wire, this`calls, c, c.friends
      ensures Did(NotifyLast(old(Slots()), at, b))
      ensures c.friends == old(c.friends) || fresh(c.friends)
    {
      hide Framed, Valid, Slots, Client.Valid, AddContacts, Replies, Announce, Sessions.ChangedStatus;
      SlotAt(at);
      var code := NotifyHandler(c, at, b);
      if code != 0 {
        return;
      }
      SlotAt(at);
      TellAll(c, at);
    }

    // ---- status ----

    method SetStatus(c: Client, ghost at: nat, b: Octets)
      requires Valid() && At(c, at) && |b| >= 4
      modifies c
      ensures Valid() && Live(old(Slots()), at)
      ensures Slots() == Put(old(Slots()), at, WithStatus(old(Slots())[at].value, b))
      ensures c.friends == old(c.friends)
    {
      hide WithStatus;
      ghost var before := Slots();
      SlotAt(at);
      c.SetStatus(b);
      assert Others(before, at);
      OneChanged(before, c, at);
    }

    /** One turn of the loop that sends the bare status. */
    method TellWatcherStatus(c: Client, ghost at: nat, i: nat)
      requires Valid() && At(c, at) && i < MAX_CLIENTS
      modifies this`wire, this`calls
      ensures Valid() && Slots() == old(Slots()) && (old(Framed()) ==> Framed())
      ensures wire == old(wire) + TurnFor(Slots(), at, i, Packet(NEW_STATUS, LE32(c.uin) + LE32(c.status)))
    {
      hide Watches, Slots, Client.Valid, Framed, Added, LE32;
      SlotAt(at);
      SlotAt(i);
      var yes := IsWatcher(c, at, i);
      if yes {
        WriteFullPacket(clients[i], NEW_STATUS, LE32(c.uin) + LE32(c.status));
      } else {
        assert wire == old(wire) + [];
      }
    }

    /** The loop that sends the bare status when there is a description. */
    method SendDescrRound(c: Client, ghost at: nat)
      requires Valid() && At(c, at)
      modifies this`wire, this`calls
      ensures Valid() && Slots() == old(Slots())
      ensures wire == old(wire) + DescrRound(Slots(), at)
      ensures old(Framed()) ==> Framed()
    {
      hide Valid, Slots, Client.Valid, Framed, TurnFor, Broadcast, LE32;
      SlotAt(at);
      if c.descr.None? || Before(c.descr.value, 0) == [] {
        assert wire == old(wire) + [];
        return;
      }
      ghost var s, uin := Slots(), c.uin;
      ghost var p := Packet(NEW_STATUS, LE32(uin) + LE32(c.status));
      for i := 0 to MAX_CLIENTS
        invariant Valid() && Slots() == s && (old(Framed()) ==> Framed())
        invariant old(wire) + Broadcast(s, at, uin, p, 0) == wire + Broadcast(s, at, uin, p, i)
      {
        TellWatcherStatus(c, at, i);
        BroadcastStep(s, at, i, p);
      }
      BroadcastEnd(s, at, uin, p);
    }

    /** The goodbye of a session that is not available any more. */
    method SayGoodbye(c: Client, ghost at: nat)
      requires Valid() && At(c, at)
      modifies this`wire, this`calls, c`remove
      ensures Live(old(Slots()), at) && Did(Goodbye(old(Slots()), at))
    {
      hide Framed, Added, Valid, Slots, Client.Valid;
      SlotAt(at);
      assert wire == old(wire) + [];
      if c.status == STATUS_NOT_AVAIL || c.status == STATUS_NOT_AVAIL_DESCR {
        WriteFullPacket(c, DISCONNECTING, []);
        MarkRemoved(c, at);
      }
    }

    method NewStatusHandler(c: Client, ghost at: nat, b: Octets)
      requires Valid() && At(c, at)
      modifies this`wire, this`calls, c
      ensures Did(NewStatus(old(Slots()), at, b))
      ensures c.friends == old(c.friends)
    {
      hide Framed, Valid, Slots, Client.Valid, WithStatus, DescrRound, Sessions.ChangedStatus, Leaving;
      SlotAt(at);
      assert wire == old(wire) + [];
      if c.state != LoginOk || |b| < 4 {
        return;
      }
      SetStatus(c, at, b);
      SendDescrRound(c, at);
      ChangedStatus(c, at);
      SayGoodbye(c, at);
    }

    // ---- one contact added or removed ----

    method ReplyStatus(c: Client, ghost at: nat, uin: u32)
      requires Valid() && At(c, at)
      modifies this`wire, this`calls
      ensures Did(Effect(old(Slots()), [StatusReply(old(Slots()), c.fd, uin)]))
    {
      hide Framed, Added, Valid, Slots, Client.Valid, LE32, FindSession;
      var contact, where := ClientFind(uin);
      var status := if contact != null then contact.status else STATUS_NOT_AVAIL;
      WriteFullPacket(c, NOTIFY_REPLY, LE32(uin) + LE32(status));
    }

    method NotifyAddHandler(c: Client, ghost at: nat, b: Octets)
      requires Valid() && At(c, at)
      modifies this`wire, this`calls, c, c.friends
      ensures Did(AddNotify(old(Slots()), at, b))
      ensures c.friends == old(c.friends) || fresh(c.friends)
    {
      hide Framed, Valid, Slots, Client.Valid, WordAt, LE32, FindSession;
      SlotAt(at);
      assert wire == old(wire) + [];
      if c.state != LoginOk || |b| < 5 {
        return;
      }
      if WordAt(b, 0) == 0 {
        return;
      }
      AddContact(c, at, WordAt(b, 0), b[4]);
      ReplyStatus(c, at, WordAt(b, 0));
    }

    method NotifyRemoveHandler(c: Client, ghost at: nat, b: Octets)
      requires Valid() && At(c, at)
      modifies c, c.friends
      ensures Did(RemoveNotify(old(Slots()), at, b))
      ensures c.friends == old(c.friends) || fresh(c.friends)
    {
      hide WordAt, Without;
      ghost var before := Slots();
      SlotAt(at);
      assert wire == old(wire) + [];
      if c.state != LoginOk || |b| < 5 {
        return;
      }
      c.RemoveFriend(WordAt(b, 0));
      assert Others(before, at);
      OneChanged(before, c, at);
    }

    method UserlistRequestHandler(c: Client, ghost at: nat, b: Octets)
      requires Valid() && At(c, at)
      modifies this`wire, this`calls
      ensures Did(UserlistRequest(old(Slots()), at, b))
    {
      hide Framed, Added, Valid, Slots, Client.Valid;
      SlotAt(at);
      assert wire == old(wire) + [];
      if c.state != LoginOk || |b| < 1 {
        return;
      }
      if b[0] == USERLIST_GET {
        WriteFullPacket(c, USERLIST_REPLY, [USERLIST_GET_REPLY]);
      } else if b[0] == USERLIST_PUT || b[0] == USERLIST_PUT_MORE {
        WriteFullPacket(c, USERLIST_REPLY, [USERLIST_PUT_REPLY]);
      }
    }

    // ---- messaging.c ----

    method SendAck(sender: Client, seqNo: u32, recipient: u32, status: u32)
      modifies this`wire, this`calls
      ensures wire == old(wire) + [Ack(sender.fd, status, recipient, seqNo)]
      ensures old(Valid()) ==> Valid() && Slots() == old(Slots())
      ensures old(Framed()) ==> Framed()
    {
      WriteFullPacket(sender, SEND_MSG_ACK, LE32(status) + LE32(recipient) + LE32(seqNo));
    }

    method MsgHandleSend(c: Client, ghost at: nat, b: Octets, env: Env)
      requires Valid() && At(c, at)
      modifies this`wire, this`calls
      ensures Did(SendMessage(old(Slots()), at, b, env))
    {
      hide Framed, Added, Valid, Slots, Client.Valid, WordAt, LE32, FindSession;
      SlotAt(at);
      assert wire == old(wire) + [];
      if |b| < 13 || 0 !in b[12..] {
        return;
      }
      var to, seqNo := WordAt(b, 0), WordAt(b, 4);
      var recipient, where := ClientFind(to);
      if recipient == null || recipient.state != LoginOk {
        SendAck(c, seqNo, to, ACK_QUEUED);
        return;
      }
      WriteFullPacket(recipient, RECV_MSG,
                      LE32(c.uin) + LE32(env.seqTime) + LE32(env.time) + LE32(WordAt(b, 8)) + b[12..]);
      SendAck(c, seqNo, to, ACK_DELIVERED);
    }

    // ---- dispatch ----

    /** The handler table, in its order. */
    method HandleInputPacket(c: Client, ghost at: nat, p: Packet, env: Env)
      requires Valid() && At(c, at)
      modifies this`wire, this`calls, c, c.friends, Objects()`remove
      ensures Did(Handle(old(db.rows), old(Slots()), at, p, env))
      ensures c.friends == old(c.friends) || fresh(c.friends)
    {
      hide Framed, Added, Valid, Slots, Client.Valid, Login31, Login50, Login60, Login70, NotifyFirst, NotifyLast,
           UserlistRequest, NewStatus, AddNotify, RemoveNotify, SendMessage;
      SlotAt(at);
      assert wire == old(wire) + [];
      if c.remove {
        return;
      }
      if p.kind == LOGIN31 {
        GgLogin31Handler(c, at, p.body);
      } else if p.kind == LOGIN50 {
        GgLogin50Handler(c, at, p.body);
      } else if p.kind == LOGIN60 {
        GgLogin60Handler(c, at, p.body);
      } else if p.kind == LOGIN70 {
        GgLogin70Handler(c, at, p.body, env);
      } else if p.kind == NOTIFY_FIRST {
        var code := NotifyHandler(c, at, p.body);
      } else if p.kind == NOTIFY_LAST {
        NotifyEndHandler(c, at, p.body);
      } else if p.kind == USERLIST_REQUEST {
        UserlistRequestHandler(c, at, p.body);
      } else if p.kind == NEW_STATUS {
        NewStatusHandler(c, at, p.body);
      } else if p.kind == ADD_NOTIFY {
        NotifyAddHandler(c, at, p.body);
      } else if p.kind == REMOVE_NOTIFY {
        NotifyRemoveHandler(c, at, p.body);
      } else if p.kind == SEND_MSG {
        MsgHandleSend(c, at, p.body, env);
      } else if p.kind == LIST_EMPTY || p.kind == PING {
        // nothing that is modelled
      }
    }

    // ---- the life of a session ----

    ghost function State(): Server
      requires Valid()
      reads this, clients, Objects(), Lists(), db
    {
      Server(Slots(), clientCount, db.rows, wire)
    }

    /** accept, client_create, and the greeting that client_thread starts with. */
    method AcceptClient(fd: nat, addr: Address, seed: u32) returns (c: Client?)
      requires Valid()
      modifies this`wire, this`calls, this`clientCount, clients
      ensures Valid() && State() == Next(old(State()), Accept(fd, addr, seed))
      ensures c == null <==> old(clientCount) >= MAX_CLIENTS
      ensures old(Framed()) ==> Framed()
    {
      hide Framed, Added, Valid, Slots;
      c := ClientCreate(fd, addr, seed);
      if c != null {
        WriteFullPacket(c, WELCOME, LE32(seed));
      }
    }

    /** A registration through the web service changes the user table alone. */
    method Register(q: Request) returns (r: int)
      requires Valid()
      modifies db
      ensures Valid() && Registered(old(db.rows), q, r, db.rows)
      ensures Enabled(old(State()), SignUp(q, db.rows)) && State() == Next(old(State()), SignUp(q, db.rows))
    {
      hide Registered, Client.Valid;
      r := db.Register(q);
    }

    method ClientCreate(fd: nat, addr: Address, seed: u32) returns (c: Client?)
      requires Valid()
      modifies this`clientCount, clients
      ensures Valid()
      ensures c == null <==> old(clientCount) >= MAX_CLIENTS
      ensures c != null ==> fresh(c) && c.fd == fd
      ensures var free := FreeSlot(old(Slots()), 0);
              if c == null || free.None? then Slots() == old(Slots()) && clientCount == old(clientCount)
              else (Slots() == Put(old(Slots()), free.value, NewSession(fd, addr, seed))
                    && clientCount == old(clientCount) + 1)
    {
      hide Slots, Client.Valid, FreeSlot, Put;
      if clientCount >= MAX_CLIENTS {
        return null;
      }
      ghost var objects, lists := Objects(), Lists();
      c := new Client(fd, addr, seed);
      assert Objects() == objects && Lists() == lists;
      AddToTable(c);
    }

    /** The insert loop: the first empty entry takes c. */
    method AddToTable(c: Client)
      requires Valid() && c.Valid() && c !in Objects() && c.friends !in Lists()
      modifies this`clientCount, clients
      ensures Valid()
      ensures var free := FreeSlot(old(Slots()), 0);
              if free.None? then Slots() == old(Slots()) && clientCount == old(clientCount)
              else Slots() == Put(old(Slots()), free.value, old(c.View())) && clientCount == old(clientCount) + 1
    {
      hide Slots, Client.Valid, Put;
      ghost var before := Slots();
      for i := 0 to clients.Length
        invariant unchanged(this) && unchanged(clients) && Slots() == before
        invariant FreeSlot(before, 0) == FreeSlot(before, i)
      {
        SlotAt(i);
        if clients[i] == null {
          Insert(c, i);
          break;
        }
      }
    }

    method Insert(c: Client, i: nat)
      requires Valid() && c.Valid() && i < MAX_CLIENTS && clients[i] == null
      requires c !in Objects() && c.friends !in Lists()
      modifies this`clientCount, clients
      ensures Valid() && Slots() == Put(old(Slots()), i, c.View())
      ensures clientCount == old(clientCount) + 1
    {
      ghost var before := Slots();
      clients[i] := c;
      clientCount := clientCount + 1;
      assert Others(before, i);
      OneChanged(before, c, i);
    }

    /** The table loses c. No client has a status_write function, so the loop over the
        contacts sends nothing. */
    method ClientDestroy(c: Client, ghost at: nat)
      requires Valid() && At(c, at)
      modifies this`clientCount, clients
      ensures Valid() && State() == Next(old(State()), Close(at))
    {
      hide Valid, Slots, Client.Valid;
      SlotAt(at);
      for i := 0 to clients.Length
        invariant unchanged(this) && unchanged(clients) && Valid()
        invariant i <= at
      {
        if clients[i] == c {
          OnlyAt(c, i, at);
          Clear(i);
          break;
        }
      }
    }

    lemma OnlyAt(c: Client, i: nat, at: nat)
      requires Valid() && At(c, i) && At(c, at)
      ensures i == at
    {}

    method Clear(i: nat)
      requires Valid() && i < MAX_CLIENTS
      modifies this`clientCount, clients
      ensures Valid() && Slots() == old(Slots())[i := None]
      ensures clientCount == old(clientCount) - 1
    {
      ghost var before := Slots();
      clients[i] := null;
      clientCount := clientCount - 1;
      assert Others(before, i);
      OneCleared(before, i);
    }

    lemma OneCleared(before: Slots, at: nat)
      requires Valid() && at < MAX_CLIENTS && clients[at] == null && Others(before, at)
      ensures Slots() == before[at := None]
    {
      hide Client.Valid;
    }

    /** One packet, as a step of the state machine. */
    method HandlePacket(c: Client, ghost at: nat, p: Packet, env: Env)
      requires Valid() && At(c, at)
      modifies this`wire, this`calls, c, c.friends, Objects()`remove
      ensures Valid() && Live(old(Slots()), at)
      ensures State() == Next(old(State()), Deliver(at, p, env))
      ensures c.friends == old(c.friends) || fresh(c.friends)
      ensures old(Framed()) ==> Framed()
    {
      hide Valid, Slots, Client.Valid, Handle;
      SlotAt(at);
      HandleInputPacket(c, at, p, env);
    }

    /** The receive loop of client_thread on all the bytes the client sends, with nothing
        else going on. clock gives the readings of each turn. */
    method ClientThread(c: Client, ghost at: nat, stream: Octets, clock: nat -> Env)
      requires Valid() && At(c, at) && Live(State().slots, at) && Lifecycle.Inv(State())
      modifies this, clients, Objects(), c.friends
      ensures Valid() && State() == Served(old(State()), at, ReceiveAll(stream), clock, 0)
      ensures old(Framed()) ==> Framed()
    {
      hide Framed, Added, Valid, Slots, Next, Client.Valid, Served, Receive, ReceiveAll, Lifecycle.Inv;
      SlotAt(at);
      var rest, turn := stream, 0;
      ghost var done := Served(State(), at, ReceiveAll(stream), clock, 0);
      while true
        invariant Valid() && At(c, at) && Live(State().slots, at) && Lifecycle.Inv(State())
        invariant old(Framed()) ==> Framed()
        invariant c.friends == old(c.friends) || fresh(c.friends)
        invariant Served(State(), at, ReceiveAll(rest), clock, turn) == done
        decreases |rest|
        modifies this`wire, this`calls, c, Objects()`remove, c.friends
      {
        SlotAt(at);
        var r := Receive(rest);
        if r.Closed? || c.remove {
          break;
        }
        ServedStep(State(), at, rest, clock, turn);
        HandlePacket(c, at, r.packet, clock(turn));
        rest, turn := r.rest, turn + 1;
        SlotAt(at);
        if c.remove {
          break;
        }
      }
      ServedEnd(State(), at, rest, clock, turn);
      ClientDestroy(c, at);
    }
  }

  /** What one thread does for a client that sends ps: it handles packets until the
      session is marked or there are no more, then the session leaves the table. */
  ghost function Served(s: Server, c: nat, ps: seq<Packet>, clock: nat -> Env, turn: nat): Server
    requires Lifecycle.Inv(s) && Live(s.slots, c)
    decreases |ps|
  {
    if ps == [] || s.slots[c].value.remove then Next(s, Close(c))
    else
      StillLive(s, c, ps[0], clock(turn));
      Served(Next(s, Deliver(c, ps[0], clock(turn))), c, ps[1..], clock, turn + 1)
  }

  lemma ServedStep(s: Server, c: nat, stream: Octets, clock: nat -> Env, turn: nat)
    requires Lifecycle.Inv(s) && Live(s.slots, c) && !s.slots[c].value.remove && Receive(stream).Got?
    ensures var r, next := Receive(stream), Next(s, Deliver(c, Receive(stream).packet, clock(turn)));
            Lifecycle.Inv(next) && Live(next.slots, c) &&
            Served(s, c, ReceiveAll(stream), clock, turn) == Served(next, c, ReceiveAll(r.rest), clock, turn + 1)
  {
    hide Lifecycle.Inv, Next, Receive;
    var r := Receive(stream);
    StillLive(s, c, r.packet, clock(turn));
    assert ([r.packet] + ReceiveAll(r.rest))[1..] == ReceiveAll(r.rest);
  }

  lemma ServedEnd(s: Server, c: nat, stream: Octets, clock: nat -> Env, turn: nat)
    requires Lifecycle.Inv(s) && Live(s.slots, c) && (s.slots[c].value.remove || Receive(stream).Closed?)
    ensures Served(s, c, ReceiveAll(stream), clock, turn) == Next(s, Close(c))
  {
    hide Lifecycle.Inv, Next, Receive;
  }

  predicate Heard(s: Server, c: nat)
  {
    Live(s.slots, c) && !s.slots[c].value.remove
  }

  /** Served is a run of the state machine: the packets are delivered one by one up to the first
      after which the session is marked, or to the last, and then the session leaves its slot. */
  lemma {:induction false} ServedIsRun(s: Server, c: nat, ps: seq<Packet>, clock: nat -> Env, turn: nat)
    returns (ss: seq<Server>)
    requires Lifecycle.Inv(s) && Live(s.slots, c)
    ensures 2 <= |ss| <= |ps| + 2 && ss[0] == s && ss[|ss| - 1] == Served(s, c, ps, clock, turn)
    ensures forall i :: 0 <= i < |ss| - 2 ==>
              Heard(ss[i], c) && ss[i + 1] == Next(ss[i], Deliver(c, ps[i], clock(turn + i)))
    ensures Live(ss[|ss| - 2].slots, c) && (!Heard(ss[|ss| - 2], c) || |ss| == |ps| + 2)
    ensures ss[|ss| - 1].slots == ss[|ss| - 2].slots[c := None] && ss[|ss| - 1].count == ss[|ss| - 2].count - 1
    ensures ss[|ss| - 1].wire == ss[|ss| - 2].wire && ss[|ss| - 1].users == ss[|ss| - 2].users
    decreases |ps|
  {
    hide Lifecycle.Inv, Handle;
    if ps == [] || s.slots[c].value.remove {
      ss := [s, Next(s, Close(c))];
    } else {
      StillLive(s, c, ps[0], clock(turn));
      var next := Next(s, Deliver(c, ps[0], clock(turn)));
      var rest := ServedIsRun(next, c, ps[1..], clock, turn + 1);
      hide Next, Served;
      ss := [s] + rest;
      forall i | 0 <= i < |ss| - 2
        ensures Heard(ss[i], c) && ss[i + 1] == Next(ss[i], Deliver(c, ps[i], clock(turn + i)))
      {
        if i > 0 {
          assert ss[i] == rest[i - 1] && ps[i] == ps[1..][i - 1];
        }
      }
    }
  }

  lemma StillLive(s: Server, c: nat, p: Packet, env: Env)
    requires Lifecycle.Inv(s) && Live(s.slots, c)
    ensures Lifecycle.Inv(Next(s, Deliver(c, p, env))) && Live(Next(s, Deliver(c, p, env)).slots, c)
  {
    hide Handle;
    Lifecycle.HandleIsTame(s.users, s.slots, c, p, env);
    Lifecycle.DeliverKeepsInv(s, Deliver(c, p, env));
  }

  ghost function WithContacts(slots: Slots, c: nat, b: Octets): Slots
    requires Live(slots, c)
  {
    Put(slots, c, AddContacts(slots[c].value, b))
  }

  lemma ContactsStep(slots: Slots, c: nat, b: Octets)
    requires Live(slots, c) && |b| >= 5
    ensures WithContacts(WithContact(slots, c, Friend(WordAt(b, 0), b[4])).slots, c, b[5..])
            == WithContacts(slots, c, b)
  {
    hide WordAt;
    var friends, f := slots[c].value.friends, Friend(WordAt(b, 0), b[4]);
    assert (friends + [f]) + Contacts(b[5..]) == friends + Contacts(b);
  }

  lemma ContactsEnd(slots: Slots, c: nat, b: Octets)
    requires Live(slots, c) && |b| < 5
    ensures WithContacts(slots, c, b) == slots
  {
    var s := slots[c].value;
    assert s.friends + Contacts(b) == s.friends;
    assert AddContacts(s, b) == s;
  }

  lemma FindFromStep(slots: Slots, uin: u32, i: nat)
    requires i < MAX_CLIENTS
    ensures FindFrom(slots, uin, i)
         == if slots[i].Some? && slots[i].value.uin == uin then Some(i) else FindFrom(slots, uin, i + 1)
  {}

  lemma FindFromEnd(slots: Slots, uin: u32)
    ensures FindFrom(slots, uin, MAX_CLIENTS) == None
  {}

  ghost function LoginNews(slots: Slots, c: nat): seq<Sent>
    requires Live(slots, c)
  {
    [Sent(slots[c].value.fd, Packet(LOGIN_OK, []))] + Sessions.ChangedStatus(slots, c)
  }

  lemma LoggedInNews(slots: Slots, c: nat, uin: u32, version: Option<u32>, imageSize: Option<u8>)
    requires Live(slots, c)
    ensures var e, first := LoggedIn(slots, c, uin, version, imageSize), Supersede(slots, uin);
            && Live(first.slots, c) && Live(e.slots, c)
            && e.slots == Put(first.slots, c, WithLogin(first.slots[c].value, uin, version, imageSize))
            && e.sent == first.sent + LoginNews(e.slots, c)
  {
    hide Find, WithLogin, Sessions.ChangedStatus;
    var e, first := LoggedIn(slots, c, uin, version, imageSize), Supersede(slots, uin);
    var ok, news := [Sent(e.slots[c].value.fd, Packet(LOGIN_OK, []))], Sessions.ChangedStatus(e.slots, c);
    assert first.sent + ok + news == first.sent + (ok + news);
  }

  /** What NOTIFY_LAST sends. */
  ghost function Rounds(slots: Slots, c: nat): seq<Sent>
    requires Live(slots, c)
  {
    var s := slots[c].value;
    Replies(slots, s.fd, s.friends) + Announce(slots, s, s.friends) + Sessions.ChangedStatus(slots, c)
  }

  ghost function Goodbye(slots: Slots, c: nat): Effect
    requires Live(slots, c)
  {
    var s := slots[c].value;
    if Leaving(s) then Effect(Put(slots, c, s.(remove := true)), [Sent(s.fd, Packet(DISCONNECTING, []))])
    else Effect(slots, [])
  }

  /** The bare status that answers ADD_NOTIFY. */
  ghost function StatusReply(slots: Slots, fd: nat, uin: u32): Sent
  {
    var f := FindSession(slots, uin);
    Sent(fd, Packet(NOTIFY_REPLY, LE32(uin) + LE32(if f.Some? then f.value.status else STATUS_NOT_AVAIL)))
  }

  ghost function ReplyAbout(slots: Slots, fd: nat, uin: u32): Sent
  {
    Sent(fd, StatusPacket(FindSession(slots, uin), uin, STATUS_NOT_AVAIL, NOTIFY_REPLY))
  }

  lemma RepliesStep(slots: Slots, fd: nat, friends: seq<Friend>, i: nat)
    requires i < |friends|
    ensures Replies(slots, fd, friends[i..])
         == [ReplyAbout(slots, fd, friends[i].uin)] + Replies(slots, fd, friends[i + 1..])
  {
    hide FindSession, StatusPacket;
    assert friends[i..][1..] == friends[i + 1..];
  }

  ghost function AnnounceOne(slots: Slots, s: Session, uin: u32): seq<Sent>
  {
    var f := FindSession(slots, uin);
    if f.Some? then [Sent(f.value.fd, StatusPacket(Some(s), s.uin, 0, NEW_STATUS))] else []
  }

  lemma AnnounceNone(slots: Slots, s: Session)
    ensures Announce(slots, s, []) == []
  {}

  lemma AnnounceStep(slots: Slots, s: Session, friends: seq<Friend>, i: nat)
    requires i < |friends|
    ensures Announce(slots, s, friends[i..])
         == AnnounceOne(slots, s, friends[i].uin) + Announce(slots, s, friends[i + 1..])
  {
    hide FindSession, StatusPacket;
    assert friends[i..][1..] == friends[i + 1..];
  }

  /** What the broadcast about slot c sends in turn i. */
  ghost function TurnFor(slots: Slots, c: nat, i: nat, p: Packet): seq<Sent>
    requires Live(slots, c) && i < MAX_CLIENTS
  {
    if Watches(slots, c, slots[c].value.uin, i) then [Sent(slots[i].value.fd, p)] else []
  }

  lemma BroadcastStep(slots: Slots, c: nat, i: nat, p: Packet)
    requires Live(slots, c) && i < MAX_CLIENTS
    ensures Broadcast(slots, c, slots[c].value.uin, p, i)
         == TurnFor(slots, c, i, p) + Broadcast(slots, c, slots[c].value.uin, p, i + 1)
  {
    hide Watches;
  }

  lemma BroadcastEnd(slots: Slots, c: nat, uin: u32, p: Packet)
    ensures Broadcast(slots, c, uin, p, MAX_CLIENTS) == []
  {}
}

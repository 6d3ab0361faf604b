/** Messages are conserved: src/chat/messaging.c over whole runs, under any schedule. */
module Messages {
  import opened Wire
  import opened Options
  import opened Users
  import opened Sessions
  import opened Lifecycle
  import opened Numbers

  predicate IsMessage(x: Sent)
  {
    x.packet.kind == RECV_MSG
  }

  predicate IsDelivered(x: Sent)
  {
    x.packet.kind == SEND_MSG_ACK && |x.packet.body| >= 4 && WordAt(x.packet.body, 0) == ACK_DELIVERED
  }

  /** Each message is directly followed by a DELIVERED ack, and each DELIVERED ack directly
      follows a message: a bijection between the two. */
  ghost predicate Paired(wire: seq<Sent>)
  {
    && (forall k :: 0 <= k < |wire| && IsMessage(wire[k]) ==> k + 1 < |wire| && IsDelivered(wire[k + 1]))
    && (forall k :: 0 <= k < |wire| && IsDelivered(wire[k]) ==> 0 < k && IsMessage(wire[k - 1]))
  }

  lemma PairedBoth(a: seq<Sent>, b: seq<Sent>)
    requires Paired(a) && Paired(b)
    ensures Paired(a + b)
  {
    hide IsMessage, IsDelivered;
    var w := a + b;
    forall k | 0 <= k < |w| && IsMessage(w[k]) ensures k + 1 < |w| && IsDelivered(w[k + 1]) {
      assert k >= |a| ==> IsMessage(b[k - |a|]);
    }
    forall k | 0 <= k < |w| && IsDelivered(w[k]) ensures 0 < k && IsMessage(w[k - 1]) {
      assert k >= |a| ==> IsDelivered(b[k - |a|]);
    }
  }

  /** Packets that are neither messages nor acks, nor greetings. */
  ghost predicate Other(sent: seq<Sent>)
  {
    forall k :: 0 <= k < |sent| ==> sent[k].packet.kind !in {RECV_MSG, SEND_MSG_ACK, WELCOME}
  }

  lemma OtherBoth(a: seq<Sent>, b: seq<Sent>)
    requires Other(a) && Other(b)
    ensures Other(a + b)
  {}

  lemma {:induction false} BroadcastIsOther(slots: Slots, c: nat, uin: u32, p: Packet, i: nat)
    requires i <= MAX_CLIENTS && p.kind !in {RECV_MSG, SEND_MSG_ACK, WELCOME}
    ensures Other(Broadcast(slots, c, uin, p, i))
    decreases MAX_CLIENTS - i
  {
    if i < MAX_CLIENTS {
      BroadcastIsOther(slots, c, uin, p, i + 1);
    }
  }

  lemma ChangedStatusIsOther(slots: Slots, c: nat)
    requires Live(slots, c)
    ensures Other(ChangedStatus(slots, c))
  {
    hide LE32, Broadcast;
    var s := slots[c].value;
    BroadcastIsOther(slots, c, s.uin, StatusPacket(Some(s), s.uin, 0, NEW_STATUS), 0);
  }

  lemma {:induction false} RepliesAreOther(slots: Slots, fd: nat, friends: seq<Friend>)
    ensures Other(Replies(slots, fd, friends))
  {
    hide LE32, FindSession;
    if friends != [] {
      RepliesAreOther(slots, fd, friends[1..]);
    }
  }

  lemma {:induction false} AnnounceIsOther(slots: Slots, s: Session, friends: seq<Friend>)
    ensures Other(Announce(slots, s, friends))
  {
    hide LE32, FindSession;
    if friends != [] {
      AnnounceIsOther(slots, s, friends[1..]);
    }
  }

  lemma LoggedInIsOther(slots: Slots, c: nat, uin: u32, version: Option<u32>, imageSize: Option<u8>)
    requires Live(slots, c)
    ensures Other(LoggedIn(slots, c, uin, version, imageSize).sent)
  {
    hide ChangedStatus;
    var after := LoggedIn(slots, c, uin, version, imageSize).slots;
    ChangedStatusIsOther(after, c);
  }

  lemma LoginIsOther(users: Table, slots: Slots, c: nat, b: Octets, size: nat, version: Option<u32>,
                     imageSize: Option<u8>)
    requires Live(slots, c) && size >= 8
    ensures Other(HandleLogin(users, slots, c, b, size, version, imageSize).sent)
  {
    hide HashAccepted, LoggedIn, WordAt;
    if |b| >= size {
      LoggedInIsOther(slots, c, WordAt(b, 0), version, imageSize);
    }
  }

  lemma Login70IsOther(users: Table, slots: Slots, c: nat, b: Octets, env: Env)
    requires Live(slots, c)
    ensures Other(Login70(users, slots, c, b, env).sent)
  {
    hide HashAccepted, DigestAccepted, LoggedIn, WordAt;
    if |b| >= 92 {
      LoggedInIsOther(slots, c, WordAt(b, 0), Some(WordAt(b, 73)), Some(b[90]));
    }
  }

  lemma NotifyLastIsOther(slots: Slots, c: nat, b: Octets)
    requires Live(slots, c)
    ensures Other(NotifyLast(slots, c, b).sent)
  {
    hide AddContacts, Replies, Announce, ChangedStatus, Other;
    var s := AddContacts(slots[c].value, b);
    var after := Put(slots, c, s);
    RepliesAreOther(after, s.fd, s.friends);
    AnnounceIsOther(after, s, s.friends);
    ChangedStatusIsOther(after, c);
    OtherBoth(Replies(after, s.fd, s.friends), Announce(after, s, s.friends));
    OtherBoth(Replies(after, s.fd, s.friends) + Announce(after, s, s.friends), ChangedStatus(after, c));
    NothingIsOther();
  }

  lemma NothingIsOther()
    ensures Other([])
  {}

  lemma NewStatusIsOther(slots: Slots, c: nat, b: Octets)
    requires Live(slots, c)
    ensures Other(NewStatus(slots, c, b).sent)
  {
    hide WithStatus, ChangedStatus, DescrRound, LE32, WordAt;
    if |b| >= 4 {
      var after := Put(slots, c, WithStatus(slots[c].value, b));
      DescrRoundIsOther(after, c);
      ChangedStatusIsOther(after, c);
      OtherBoth(DescrRound(after, c), ChangedStatus(after, c));
    }
  }

  lemma DescrRoundIsOther(slots: Slots, c: nat)
    requires Live(slots, c)
    ensures Other(DescrRound(slots, c))
  {
    hide LE32, Broadcast, Descr;
    var s := slots[c].value;
    BroadcastIsOther(slots, c, s.uin, Packet(NEW_STATUS, LE32(s.uin) + LE32(s.status)), 0);
  }

  /** Only GG_SEND_MSG makes messages and acks. */
  lemma HandlersAreOther(users: Table, slots: Slots, c: nat, p: Packet, env: Env)
    requires Live(slots, c) && p.kind != SEND_MSG
    ensures Other(Handle(users, slots, c, p, env).sent)
  {
    var b := p.body;
    hide HandleLogin, Login70, NotifyLast, NewStatus, WordAt, LE32, Contacts, Without, FindSession;
    LoginIsOther(users, slots, c, b, 12, None, None);
    LoginIsOther(users, slots, c, b, 22, if |b| < 22 then None else Some(WordAt(b, 12)), None);
    LoginIsOther(users, slots, c, b, 31, if |b| < 31 then None else Some(WordAt(b, 12)),
        if |b| < 31 then None else Some(b[29]));
    Login70IsOther(users, slots, c, b, env);
    NotifyLastIsOther(slots, c, b);
    NewStatusIsOther(slots, c, b);
  }

  /** The ack of a request: to its sender, with its number and recipient. */
  predicate Acknowledges(a: Sent, fd: nat, request: Octets, status: u32)
    requires |request| >= 12
  {
    && a.fd == fd && a.packet.kind == SEND_MSG_ACK && |a.packet.body| == 12
    && WordAt(a.packet.body, 0) == status
    && WordAt(a.packet.body, 4) == WordAt(request, 0)
    && WordAt(a.packet.body, 8) == WordAt(request, 4)
  }

  /** A message carries the sender, the class and the text bytes of the request. */
  predicate Carries(m: Sent, sender: u32, request: Octets)
    requires |request| >= 12
  {
    && m.packet.kind == RECV_MSG && |m.packet.body| >= 16
    && WordAt(m.packet.body, 0) == sender
    && WordAt(m.packet.body, 12) == WordAt(request, 8)
    && m.packet.body[16..] == request[12..]
  }

  lemma AckDecodes(fd: nat, status: u32, recipient: u32, seqNo: u32)
    ensures var b := Ack(fd, status, recipient, seqNo).packet.body;
            |b| == 12 && WordAt(b, 0) == status && WordAt(b, 4) == recipient && WordAt(b, 8) == seqNo
  {
    hide LE32, WordAt;
    var b := Ack(fd, status, recipient, seqNo).packet.body;
    assert b[0..4] == LE32(status) && b[4..8] == LE32(recipient) && b[8..12] == LE32(seqNo);
    WordOfLE32(b, 0, status);
    WordOfLE32(b, 4, recipient);
    WordOfLE32(b, 8, seqNo);
  }

  lemma MessageDecodes(sender: u32, env: Env, msgclass: u32, text: Octets)
    ensures var b := MessagePacket(sender, env, msgclass, text).body;
            && |b| == 16 + |text| && WordAt(b, 0) == sender && WordAt(b, 4) == env.seqTime
            && WordAt(b, 8) == env.time && WordAt(b, 12) == msgclass && b[16..] == text
  {
    hide LE32, WordAt;
    var b := MessagePacket(sender, env, msgclass, text).body;
    assert b[0..4] == LE32(sender) && b[12..16] == LE32(msgclass);
    assert b[4..8] == LE32(env.seqTime) && b[8..12] == LE32(env.time);
    WordOfLE32(b, 0, sender);
    WordOfLE32(b, 4, env.seqTime);
    WordOfLE32(b, 8, env.time);
    WordOfLE32(b, 12, msgclass);
  }

  /** What a request leads to, read off the bytes that are sent. One that is too short, or has
      no NUL byte in its text, sends nothing. Every other one gets exactly one ack, the last
      packet; it says DELIVERED iff the lowest session with the recipient's number is logged in,
      and then that session alone got one message, with the two readings of the clock; QUEUED
      means that nobody else was sent anything. */
  lemma RequestOutcome(users: Table, slots: Slots, c: nat, p: Packet, env: Env)
    requires Live(slots, c) && !slots[c].value.remove && p.kind == SEND_MSG
    ensures var sent := Handle(users, slots, c, p, env).sent;
            if |p.body| < 13 || 0 !in p.body[12..] then sent == []
            else
              var s, r := slots[c].value, FindSession(slots, WordAt(p.body, 0));
              if r.Some? && r.value.state == LoginOk then
                && |sent| == 2
                && sent[0].fd == r.value.fd && Carries(sent[0], s.uin, p.body)
                && WordAt(sent[0].packet.body, 4) == env.seqTime && WordAt(sent[0].packet.body, 8) == env.time
                && Acknowledges(sent[1], s.fd, p.body, ACK_DELIVERED)
              else |sent| == 1 && Acknowledges(sent[0], s.fd, p.body, ACK_QUEUED)
    ensures Handle(users, slots, c, p, env).slots == slots
  {
    var b := p.body;
    assert Handle(users, slots, c, p, env) == SendMessage(slots, c, b, env);
    if WellFormedMessage(b) {
      var s := slots[c].value;
      AckDecodes(s.fd, ACK_QUEUED, WordAt(b, 0), WordAt(b, 4));
      AckDecodes(s.fd, ACK_DELIVERED, WordAt(b, 0), WordAt(b, 4));
      MessageDecodes(s.uin, env, WordAt(b, 8), b[12..]);
      hide LE32, WordAt, FindSession, Handle;
    }
  }

  lemma OtherIsPaired(sent: seq<Sent>)
    requires sent == [] || Other(sent)
    ensures Paired(sent)
  {}

  lemma HandleIsPaired(users: Table, slots: Slots, c: nat, p: Packet, env: Env)
    requires Live(slots, c)
    ensures Paired(Handle(users, slots, c, p, env).sent)
  {
    hide Handle, WordAt, FindSession, Paired, Other, Carries, Acknowledges;
    if p.kind != SEND_MSG {
      HandlersAreOther(users, slots, c, p, env);
      OtherIsPaired(Handle(users, slots, c, p, env).sent);
    } else if slots[c].value.remove {
      MarkedIsIgnored(users, slots, c, p, env);
      OtherIsPaired([]);
    } else {
      RequestOutcome(users, slots, c, p, env);
      var sent := Handle(users, slots, c, p, env).sent;
      if |sent| == 0 {
        OtherIsPaired([]);
      } else if |sent| == 1 {
        LoneAck(sent, slots[c].value.fd, p.body);
      } else {
        MessageAndAck(sent, slots[c].value.uin, slots[c].value.fd, p.body);
      }
    }
  }

  lemma LoneAck(sent: seq<Sent>, fd: nat, b: Octets)
    requires |b| >= 12 && |sent| == 1 && Acknowledges(sent[0], fd, b, ACK_QUEUED)
    ensures Paired(sent)
  {
    hide WordAt;
  }

  lemma MessageAndAck(sent: seq<Sent>, sender: u32, fd: nat, b: Octets)
    requires |b| >= 12 && |sent| == 2 && Carries(sent[0], sender, b) && Acknowledges(sent[1], fd, b, ACK_DELIVERED)
    ensures Paired(sent)
  {
    hide WordAt;
  }

  /** Conservation: in every reachable state messages and DELIVERED acks are in bijection. */
  lemma {:induction false} MessagesConserved(ss: seq<Server>, es: seq<Event>, n: nat)
    requires Run(ss, es) && n < |ss|
    ensures Paired(ss[n].wire)
  {
    if n > 0 {
      MessagesConserved(ss, es, n - 1);
      var s, e := ss[n - 1], es[n - 1];
      assert Steps(s, e, ss[n]);
      hide Handle, Paired, FreeSlot;
      if e.Deliver? {
        HandleIsPaired(s.users, s.slots, e.c, e.packet, e.env);
        PairedBoth(s.wire, Handle(s.users, s.slots, e.c, e.packet, e.env).sent);
      } else if e.Accept? {
        WelcomeIsPaired(e.fd, e.seed);
        PairedBoth(s.wire, [Sent(e.fd, Packet(WELCOME, LE32(e.seed)))]);
      }
    }
  }

  lemma WelcomeIsPaired(fd: nat, seed: u32)
    ensures Paired([Sent(fd, Packet(WELCOME, LE32(seed)))])
  {
    hide LE32;
  }

  /** Step m handles a well-formed request, finds its recipient logged in, sends that session
      the message at place k and answers the request at place k + 1. */
  ghost predicate Delivery(ss: seq<Server>, es: seq<Event>, m: nat, k: nat, wire: seq<Sent>)
    requires |ss| == |es| + 1 && m < |es|
  {
    var e, slots := es[m], ss[m].slots;
    && e.Deliver? && e.packet.kind == SEND_MSG && WellFormedMessage(e.packet.body) && Live(slots, e.c)
    && k == |ss[m].wire| && k + 1 < |wire|
    && var b, sender, recipient := e.packet.body, slots[e.c].value, FindSession(slots, WordAt(e.packet.body, 0));
       && recipient.Some? && recipient.value.state == LoginOk
       && wire[k].fd == recipient.value.fd && Carries(wire[k], sender.uin, b)
       && Acknowledges(wire[k + 1], sender.fd, b, ACK_DELIVERED)
  }

  /** Nothing is invented: each message on the wire comes from one request, goes to the
      session found under the recipient's number, and is followed by the ack of the same
      request. */
  lemma {:induction false} MessageHasRequest(ss: seq<Server>, es: seq<Event>, n: nat, k: nat)
    requires Run(ss, es) && n < |ss| && k < |ss[n].wire| && IsMessage(ss[n].wire[k])
    ensures exists m :: 0 <= m < n && Delivery(ss, es, m, k, ss[n].wire)
    decreases n
  {
    hide Handle, WordAt, LE32, Delivery, FreeSlot;
    if n > 0 {
      var s, e := ss[n - 1], es[n - 1];
      assert Steps(s, e, ss[n]);
      if k < |s.wire| {
        MessageHasRequest(ss, es, n - 1, k);
        var m :| 0 <= m < n - 1 && Delivery(ss, es, m, k, s.wire);
        assert s.wire <= ss[n].wire;
        DeliveryStays(ss, es, m, k, s.wire, ss[n].wire);
      } else if e.Deliver? {
        NewMessage(ss, es, n, k);
      }
    }
  }

  lemma DeliveryStays(ss: seq<Server>, es: seq<Event>, m: nat, k: nat, wire: seq<Sent>, longer: seq<Sent>)
    requires |ss| == |es| + 1 && m < |es| && Delivery(ss, es, m, k, wire) && wire <= longer
    ensures Delivery(ss, es, m, k, longer)
  {
    hide Carries, Acknowledges, WellFormedMessage, FindSession, WordAt;
  }

  lemma NewMessage(ss: seq<Server>, es: seq<Event>, n: nat, k: nat)
    requires Run(ss, es) && 0 < n < |ss| && |ss[n - 1].wire| <= k < |ss[n].wire| && IsMessage(ss[n].wire[k])
    requires es[n - 1].Deliver?
    ensures Delivery(ss, es, n - 1, k, ss[n].wire)
  {
    hide Handle, WordAt, LE32, IsMessage, Carries, Acknowledges, WellFormedMessage, FindSession;
    var s, e := ss[n - 1], es[n - 1];
    assert Steps(s, e, ss[n]);
    HandledMessage(s.users, s.slots, e.c, e.packet, e.env, k - |s.wire|);
  }

  lemma HandledMessage(users: Table, slots: Slots, c: nat, p: Packet, env: Env, j: nat)
    requires Live(slots, c) && j < |Handle(users, slots, c, p, env).sent|
    requires IsMessage(Handle(users, slots, c, p, env).sent[j])
    ensures p.kind == SEND_MSG && WellFormedMessage(p.body)
    ensures var sent, r := Handle(users, slots, c, p, env).sent, FindSession(slots, WordAt(p.body, 0));
            && j == 0 && |sent| == 2 && r.Some? && r.value.state == LoginOk
            && sent[0].fd == r.value.fd && Carries(sent[0], slots[c].value.uin, p.body)
            && Acknowledges(sent[1], slots[c].value.fd, p.body, ACK_DELIVERED)
  {
    hide Handle, WordAt, FindSession, Carries, Acknowledges;
    if p.kind != SEND_MSG {
      HandlersAreOther(users, slots, c, p, env);
    } else if slots[c].value.remove {
      MarkedIsIgnored(users, slots, c, p, env);
    } else {
      RequestOutcome(users, slots, c, p, env);
      var sent := Handle(users, slots, c, p, env).sent;
      assert |sent| > 0;
      NotAMessage(sent[|sent| - 1], slots[c].value.fd, p.body);
    }
  }

  lemma NotAMessage(x: Sent, fd: nat, b: Octets)
    requires |b| >= 12 && (Acknowledges(x, fd, b, ACK_DELIVERED) || Acknowledges(x, fd, b, ACK_QUEUED))
    ensures !IsMessage(x)
  {
    hide WordAt;
  }

  /** And the other way round: every DELIVERED ack answers the request that the message
      before it comes from. */
  lemma AckHasRequest(ss: seq<Server>, es: seq<Event>, n: nat, k: nat) returns (m: nat)
    requires Run(ss, es) && n < |ss| && k < |ss[n].wire| && IsDelivered(ss[n].wire[k])
    ensures k > 0 && m < n && Delivery(ss, es, m, k - 1, ss[n].wire)
  {
    MessagesConserved(ss, es, n);
    hide Run, IsMessage, IsDelivered, Delivery;
    MessageHasRequest(ss, es, n, k - 1);
    var before := k - 1;
    m :| 0 <= m < n && Delivery(ss, es, m, before, ss[n].wire);
  }

  /** client_find may return a session that a later login has superseded. While the unmarked
      sessions have different numbers, a message for a number that has one reaches it exactly
      when client_find returns that one; the ack is DELIVERED either way. */
  lemma MessageReachesIff(users: Table, slots: Slots, c: nat, p: Packet, env: Env, u: nat)
    requires AllHealthy(users, slots) && FdsDistinct(slots) && OnePerUin(slots)
    requires Unmarked(slots, c) && p.kind == SEND_MSG && WellFormedMessage(p.body)
    requires Known(slots, u) && slots[u].value.uin == WordAt(p.body, 0)
    ensures var sent := Handle(users, slots, c, p, env).sent;
            && |sent| == 2 && Carries(sent[0], slots[c].value.uin, p.body)
            && Acknowledges(sent[1], slots[c].value.fd, p.body, ACK_DELIVERED)
            && (sent[0].fd == slots[u].value.fd <==> FindsUnmarked(slots, WordAt(p.body, 0)))
  {
    RequestOutcome(users, slots, c, p, env);
    FoundIsLoggedIn(users, slots, u);
    hide Handle, FindFrom, WordAt, Carries, Acknowledges;
  }

  lemma FoundIsLoggedIn(users: Table, slots: Slots, u: nat)
    requires AllHealthy(users, slots) && Known(slots, u)
    ensures slots[u].value.uin != 0
    ensures FindSession(slots, slots[u].value.uin).Some?
    ensures FindSession(slots, slots[u].value.uin).value.state == LoginOk
  {
    hide FindFrom;
    assert Live(slots, Find(slots, slots[u].value.uin).value);
  }

  /** In a run: once marked sessions are reaped before the next packet, every message for a
      number that has a session goes to that session. */
  lemma ReapFirstReaches(ss: seq<Server>, es: seq<Event>, k: nat, u: nat)
    requires ReapFirstRun(ss, es) && k < |es| && es[k].Deliver? && es[k].packet.kind == SEND_MSG
    requires WellFormedMessage(es[k].packet.body) && Known(ss[k].slots, u)
    requires ss[k].slots[u].value.uin == WordAt(es[k].packet.body, 0)
    ensures Delivery(ss, es, k, |ss[k].wire|, ss[k + 1].wire)
    ensures ss[k + 1].wire[|ss[k].wire|].fd == ss[k].slots[u].value.fd
  {
    var s, e := ss[k], es[k];
    assert Steps(s, e, ss[k + 1]) && ReapFirst(s, e);
    Reachable(ss, es, k);
    ReapFirstUnique(ss, es, k);
    FoundIsLoggedIn(s.users, s.slots, u);
    NoneMarkedFinds(s.slots, s.slots[u].value.uin);
    hide Handle, Find, WordAt, Carries, Acknowledges, WellFormedMessage, OnePerUin, AllHealthy, FdsDistinct;
    MessageReachesIff(s.users, s.slots, e.c, e.packet, e.env, u);
  }
}

/** What each connection gets while one packet is handled: the packets of a handler, read off
    the bytes and sorted by receiver. */
module Deliveries {
  import opened Wire
  import opened Options
  import opened Strings
  import opened Sessions
  import opened Lifecycle
  import opened Network

  // ---- by receiver ----

  lemma {:induction false} PacketsToBoth(a: seq<Sent>, b: seq<Sent>, fd: nat)
    ensures PacketsTo(a + b, fd) == PacketsTo(a, fd) + PacketsTo(b, fd)
    decreases |b|
  {
    if b == [] {
      assert a + b == a;
    } else {
      var front, last := b[..|b| - 1], b[|b| - 1];
      assert (a + b)[..|a + b| - 1] == a + front;
      PacketsToBoth(a, front, fd);
    }
  }

  lemma PacketsToOne(x: Sent, fd: nat)
    ensures PacketsTo([x], fd) == if x.fd == fd then [x.packet] else []
  {
    assert [x][..0] == [];
  }

  lemma PacketsToNobody(fd: nat)
    ensures PacketsTo([], fd) == []
  {}

  // ---- status packets ----

  /** The text of a description: up to its first NUL byte. */
  function TextOf(s: Option<Session>): Octets
  {
    if s.Some? && s.value.descr.Some? then Before(s.value.descr.value, 0) else []
  }

  /** A number and a status, and nothing else. */
  ghost predicate Bare(p: Packet, kind: u32, uin: u32, status: u32)
  {
    p.kind == kind && |p.body| == 8 && WordAt(p.body, 0) == uin && WordAt(p.body, 4) == status
  }

  /** A number and a status. If the session has a text, then also its address, its version, the
      low byte of its image size, an unused byte, and the text up to the end. */
  ghost predicate Shows(p: Packet, kind: u32, uin: u32, status: u32, from: Option<Session>)
  {
    var b, text := p.body, TextOf(from);
    if text == [] then Bare(p, kind, uin, status)
    else
      && p.kind == kind && |b| == 20 + |text| && WordAt(b, 0) == uin && WordAt(b, 4) == status
      && WordAt(b, 8) == from.value.addr.ip && b[12] as int + 0x100 * (b[13] as int) == from.value.addr.port as int
      && WordAt(b, 14) == from.value.version && b[18] as int == from.value.imageSize as int % 0x100 && b[19] == 0
      && b[20..] == text
  }

  lemma BareWords(kind: u32, uin: u32, status: u32)
    ensures Bare(Packet(kind, LE32(uin) + LE32(status)), kind, uin, status)
  {
    hide LE32, WordAt;
    var b := LE32(uin) + LE32(status);
    assert b[0..4] == LE32(uin) && b[4..8] == LE32(status);
    WordOfLE32(b, 0, uin);
    WordOfLE32(b, 4, status);
  }

  lemma StatusPacketShows(from: Option<Session>, uin: u32, fallback: u32, kind: u32)
    ensures Shows(StatusPacket(from, uin, fallback, kind), kind, uin,
                  if from.Some? then from.value.status else fallback, from)
  {
    var status := if from.Some? then from.value.status else fallback;
    BareWords(kind, uin, status);
    if TextOf(from) != [] {
      LongStatus(from.value, uin, kind);
    }
  }

  lemma LongStatus(f: Session, uin: u32, kind: u32)
    requires TextOf(Some(f)) != []
    ensures Shows(StatusPacket(Some(f), uin, f.status, kind), kind, uin, f.status, Some(f))
  {
    PortBytes(f.addr.port);
    hide LE32, LE16, WordAt, Before;
    var b := StatusPacket(Some(f), uin, f.status, kind).body;
    var text := TextOf(Some(f));
    Slices(LE32(uin), LE32(f.status), LE32(f.addr.ip), LE16(f.addr.port), LE32(f.version),
           [Octet(f.imageSize), 0], text);
    assert b == LE32(uin) + LE32(f.status) + LE32(f.addr.ip) + LE16(f.addr.port) + LE32(f.version)
                + [Octet(f.imageSize), 0] + text;
    WordOfLE32(b, 0, uin);
    WordOfLE32(b, 4, f.status);
    WordOfLE32(b, 8, f.addr.ip);
    WordOfLE32(b, 14, f.version);
  }

  lemma Slices(p: Octets, q: Octets, r: Octets, s: Octets, t: Octets, u: Octets, v: Octets)
    requires |p| == |q| == |r| == |t| == 4 && |s| == |u| == 2
    ensures var b := p + q + r + s + t + u + v;
            && b[0..4] == p && b[4..8] == q && b[8..12] == r && b[12] == s[0] && b[13] == s[1]
            && b[14..18] == t && b[18] == u[0] && b[19] == u[1] && b[20..] == v
  {}

  lemma PortBytes(port: u16)
    ensures LE16(port)[0] as int + 0x100 * (LE16(port)[1] as int) == port as int
  {}

  // ---- broadcasts ----

  ghost predicate HasContact(friends: seq<Friend>, uin: u32)
  {
    exists k :: 0 <= k < |friends| && friends[k].uin == uin
  }

  /** Who hears of a change of session c: every other logged-in session that has its number on
      the list. */
  ghost predicate Hears(slots: Slots, c: nat, w: nat)
    requires Live(slots, c) && Live(slots, w)
  {
    w != c && slots[w].value.state == LoginOk && HasContact(slots[w].value.friends, slots[c].value.uin)
  }

  lemma HearsIs(slots: Slots, c: nat, w: nat)
    requires Live(slots, c) && Live(slots, w)
    ensures Hears(slots, c, w) <==> Watches(slots, c, slots[c].value.uin, w)
  {
    hide FriendAt;
    assert FriendAt(slots[w].value.friends, slots[c].value.uin).Some? ==>
      HasContact(slots[w].value.friends, slots[c].value.uin);
  }

  lemma {:induction false} BroadcastTo(slots: Slots, c: nat, uin: u32, p: Packet, i: nat, w: nat)
    requires i <= MAX_CLIENTS && Live(slots, w) && FdsDistinct(slots)
    ensures PacketsTo(Broadcast(slots, c, uin, p, i), slots[w].value.fd)
         == if w >= i && Watches(slots, c, uin, w) then [p] else []
    decreases MAX_CLIENTS - i
  {
    hide FriendAt, PacketsTo, FdsDistinct;
    var fd := slots[w].value.fd;
    PacketsToNobody(fd);
    if i < MAX_CLIENTS {
      BroadcastTo(slots, c, uin, p, i + 1, w);
      var turn := if Watches(slots, c, uin, i) then [Sent(slots[i].value.fd, p)] else [];
      PacketsToBoth(turn, Broadcast(slots, c, uin, p, i + 1), fd);
      if Watches(slots, c, uin, i) {
        PacketsToOne(Sent(slots[i].value.fd, p), fd);
        SameConnection(slots, i, w);
      }
    }
  }

  lemma SameConnection(slots: Slots, i: nat, w: nat)
    requires FdsDistinct(slots) && Live(slots, i) && Live(slots, w)
    ensures slots[i].value.fd == slots[w].value.fd <==> i == w
  {}

  /** changed_status: each of those gets one status packet. */
  lemma ChangedStatusTo(slots: Slots, c: nat, w: nat)
    requires Live(slots, c) && Live(slots, w) && FdsDistinct(slots)
    ensures PacketsTo(ChangedStatus(slots, c), slots[w].value.fd)
         == if Hears(slots, c, w) then [StatusPacket(slots[c], slots[c].value.uin, 0, NEW_STATUS)] else []
  {
    HearsIs(slots, c, w);
    hide Watches, Hears, FdsDistinct, PacketsTo, StatusPacket, Broadcast;
    var s := slots[c].value;
    BroadcastTo(slots, c, s.uin, StatusPacket(Some(s), s.uin, 0, NEW_STATUS), 0, w);
  }
}

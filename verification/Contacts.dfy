/** Uploading a contact list: src/chat/handlers.c lines 281 to 325. */
module Contacts {
  import opened Wire
  import opened Options
  import opened Users
  import opened Sessions
  import opened Lifecycle
  import opened Numbers
  import opened Presence

  /** gg_notify_t, packed: five bytes. */
  function Record(f: Friend): (b: Octets)
    ensures |b| == 5
  {
    LE32(f.uin) + [f.flags]
  }

  function Records(fs: seq<Friend>): Octets
  {
    if fs == [] then [] else Record(fs[0]) + Records(fs[1..])
  }

  /** Packing and unpacking a list; up to four trailing bytes are ignored. */
  lemma {:induction false} RecordsRoundTrip(fs: seq<Friend>, tail: Octets)
    requires |tail| < 5
    ensures Sessions.Contacts(Records(fs) + tail) == fs
  {
    if fs == [] {
      assert Records(fs) + tail == tail;
    } else {
      var b := Records(fs) + tail;
      assert b == Record(fs[0]) + (Records(fs[1..]) + tail);
      assert b[5..] == Records(fs[1..]) + tail;
      assert b[0..4] == LE32(fs[0].uin) && b[4] == fs[0].flags;
      WordOfLE32(b, 0, fs[0].uin);
      RecordsRoundTrip(fs[1..], tail);
    }
  }

  // ---- the list over a run ----

  /** What one packet of a logged-in session does to its list. */
  function ListAfter(list: seq<Friend>, p: Packet): seq<Friend>
  {
    if p.kind == NOTIFY_FIRST || p.kind == NOTIFY_LAST then list + Sessions.Contacts(p.body)
    else if p.kind == ADD_NOTIFY && |p.body| >= 5 && WordAt(p.body, 0) != 0 then
      list + [Friend(WordAt(p.body, 0), p.body[4])]
    else if p.kind == REMOVE_NOTIFY && |p.body| >= 5 then Without(list, WordAt(p.body, 0))
    else list
  }

  function ListAfterAll(list: seq<Friend>, ps: seq<Packet>): seq<Friend>
  {
    if ps == [] then list else ListAfter(ListAfterAll(list, ps[..|ps| - 1]), ps[|ps| - 1])
  }

  /** The packets among these events that session c sent. */
  function OwnPackets(es: seq<Event>, c: nat): seq<Packet>
  {
    if es == [] then []
    else
      var last := es[|es| - 1];
      OwnPackets(es[..|es| - 1], c) + (if last.Deliver? && last.c == c then [last.packet] else [])
  }

  lemma HandledList(users: Table, slots: Slots, c: nat, p: Packet, env: Env)
    requires Known(slots, c)
    ensures var after := Handle(users, slots, c, p, env).slots;
            Live(after, c) && after[c].value.friends == ListAfter(slots[c].value.friends, p)
  {
    hide WordAt, Sessions.Contacts, Without, HashAccepted, DigestAccepted, LoggedIn, FindSession, Replies, Announce,
         ChangedStatus, DescrRound;
  }

  /** One event: only a packet of c changes the list of c. */
  lemma ListStep(s: Server, e: Event, c: nat)
    requires Inv(s) && Enabled(s, e) && Known(s.slots, c) && Live(Next(s, e).slots, c)
    ensures Next(s, e).slots[c].value.friends
         == if e.Deliver? && e.c == c then ListAfter(s.slots[c].value.friends, e.packet) else s.slots[c].value.friends
  {
    if e.Deliver? {
      HandleIsTame(s.users, s.slots, e.c, e.packet, e.env);
      HandledList(s.users, s.slots, c, e.packet, if e.c == c then e.env else Env(0, 0, 0));
      hide Handle, ListAfter;
    }
  }

  lemma OwnSnoc(es: seq<Event>, j: nat, k: nat, c: nat)
    requires j < k <= |es|
    ensures var e, before := es[k - 1], OwnPackets(es[j..k - 1], c);
            OwnPackets(es[j..k], c) == if e.Deliver? && e.c == c then before + [e.packet] else before
  {
    assert es[j..k][..k - 1 - j] == es[j..k - 1];
  }

  lemma ListSnoc(list: seq<Friend>, ps: seq<Packet>, p: Packet)
    ensures ListAfterAll(list, ps + [p]) == ListAfter(ListAfterAll(list, ps), p)
  {
    hide ListAfter;
    assert (ps + [p])[..|ps|] == ps;
  }

  /** While a session stays logged in, its list is the fold of its own packets over the list
      it had, whatever else happens in between. */
  lemma {:induction false} ListIsFold(ss: seq<Server>, es: seq<Event>, j: nat, k: nat, c: nat)
    requires Run(ss, es) && j <= k < |ss| && Live(ss[k].slots, c)
    requires forall n :: j <= n < k ==> Known(ss[n].slots, c)
    ensures Live(ss[j].slots, c)
    ensures ss[k].slots[c].value.friends == ListAfterAll(ss[j].slots[c].value.friends, OwnPackets(es[j..k], c))
    decreases k
  {
    hide Inv, Next, Enabled, ListAfter, OwnPackets, ListAfterAll;
    if j < k {
      assert Known(ss[j].slots, c) && Known(ss[k - 1].slots, c);
      ListIsFold(ss, es, j, k - 1, c);
      Reachable(ss, es, k - 1);
      assert Steps(ss[k - 1], es[k - 1], ss[k]);
      ListStep(ss[k - 1], es[k - 1], c);
      OwnSnoc(es, j, k, c);
      if es[k - 1].Deliver? {
        ListSnoc(ss[j].slots[c].value.friends, OwnPackets(es[j..k - 1], c), es[k - 1].packet);
      }
    } else {
      NoPackets(es, j, ss[j].slots[c].value.friends, c);
    }
  }

  lemma NoPackets(es: seq<Event>, j: nat, list: seq<Friend>, c: nat)
    requires j <= |es|
    ensures ListAfterAll(list, OwnPackets(es[j..j], c)) == list
  {}

  // ---- an upload ----

  /** One packet of an upload: a part of the list, and stray bytes behind it. */
  datatype Chunk = Chunk(friends: seq<Friend>, stray: Octets)

  ghost predicate FewStray(chunks: seq<Chunk>)
  {
    forall i :: 0 <= i < |chunks| ==> |chunks[i].stray| < 5
  }

  function Body(k: Chunk): Octets
  {
    Records(k.friends) + k.stray
  }

  function Together(chunks: seq<Chunk>): seq<Friend>
  {
    if chunks == [] then [] else Together(chunks[..|chunks| - 1]) + chunks[|chunks| - 1].friends
  }

  /** The NOTIFY_FIRST packets of an upload. */
  function FirstPackets(chunks: seq<Chunk>): seq<Packet>
  {
    if chunks == [] then []
    else FirstPackets(chunks[..|chunks| - 1]) + [Packet(NOTIFY_FIRST, Body(chunks[|chunks| - 1]))]
  }

  /** The packets that are about the list. */
  function ListPackets(ps: seq<Packet>): seq<Packet>
  {
    if ps == [] then []
    else
      var last := ps[|ps| - 1];
      ListPackets(ps[..|ps| - 1])
      + (if last.kind in {NOTIFY_FIRST, NOTIFY_LAST, ADD_NOTIFY, REMOVE_NOTIFY} then [last] else [])
  }

  lemma {:induction false} OnlyListPackets(list: seq<Friend>, ps: seq<Packet>)
    ensures ListAfterAll(list, ps) == ListAfterAll(list, ListPackets(ps))
  {
    hide Without, WordAt, Sessions.Contacts;
    if ps != [] {
      var front, last := ps[..|ps| - 1], ps[|ps| - 1];
      OnlyListPackets(list, front);
      assert (ListPackets(front) + [last])[..|ListPackets(front)|] == ListPackets(front);
      assert ListPackets(ps) == ListPackets(front) || ListPackets(ps) == ListPackets(front) + [last];
    }
  }

  lemma {:induction false} FirstPacketsAppend(list: seq<Friend>, chunks: seq<Chunk>)
    requires FewStray(chunks)
    ensures ListAfterAll(list, FirstPackets(chunks)) == list + Together(chunks)
  {
    hide Records, Record, Sessions.Contacts;
    if chunks == [] {
      assert list + [] == list;
    } else {
      var front, last := chunks[..|chunks| - 1], chunks[|chunks| - 1];
      FirstPacketsAppend(list, front);
      RecordsRoundTrip(last.friends, last.stray);
      var ps := FirstPackets(front);
      assert (ps + [Packet(NOTIFY_FIRST, Body(last))])[..|ps|] == ps;
      assert list + Together(front) + last.friends == list + Together(chunks);
    }
  }

  /** The contact replies among the packets sent to one connection. */
  function RepliesTo(sent: seq<Sent>, fd: nat): seq<Packet>
  {
    if sent == [] then [] else ReplyOf(sent[0], fd) + RepliesTo(sent[1..], fd)
  }

  function ReplyOf(x: Sent, fd: nat): seq<Packet>
  {
    if x.fd == fd && x.packet.kind == NOTIFY_REPLY then [x.packet] else []
  }

  lemma {:induction false} RepliesToBoth(a: seq<Sent>, b: seq<Sent>, fd: nat)
    ensures RepliesTo(a + b, fd) == RepliesTo(a, fd) + RepliesTo(b, fd)
  {
    hide RepliesTo, ReplyOf;
    if a == [] {
      NoReplies([], fd);
      assert a + b == b;
    } else {
      RepliesFirst(a, fd);
      RepliesFirst(a + b, fd);
      RepliesToBoth(a[1..], b, fd);
      assert (a + b)[1..] == a[1..] + b;
      var x, y, z := ReplyOf(a[0], fd), RepliesTo(a[1..], fd), RepliesTo(b, fd);
      assert x + (y + z) == x + y + z;
    }
  }

  lemma RepliesFirst(sent: seq<Sent>, fd: nat)
    requires sent != []
    ensures RepliesTo(sent, fd) == ReplyOf(sent[0], fd) + RepliesTo(sent[1..], fd)
  {}

  lemma {:induction false} NoReplies(sent: seq<Sent>, fd: nat)
    requires forall k :: 0 <= k < |sent| ==> sent[k].packet.kind != NOTIFY_REPLY
    ensures RepliesTo(sent, fd) == []
  {
    if sent != [] {
      NoReplies(sent[1..], fd);
    }
  }

  lemma {:induction false} OnlyReplies(sent: seq<Sent>, fd: nat)
    requires forall k :: 0 <= k < |sent| ==> sent[k].fd == fd && sent[k].packet.kind == NOTIFY_REPLY
    ensures |RepliesTo(sent, fd)| == |sent|
    ensures forall k :: 0 <= k < |sent| ==> RepliesTo(sent, fd)[k] == sent[k].packet
  {
    if sent != [] {
      OnlyReplies(sent[1..], fd);
    }
  }

  /** A contact list of any length, uploaded in any number of NOTIFY_FIRST packets and one
      NOTIFY_LAST, with any other events of the server and any other packets of the session
      in between: the list is appended as it is, in order, and the session gets exactly one
      NOTIFY_REPLY for each entry of its whole list, in order, with the status of the session
      that client_find finds for it, or "not available" if there is none. */
  lemma Upload(ss: seq<Server>, es: seq<Event>, j: nat, k: nat, c: nat, chunks: seq<Chunk>, last: Chunk)
    requires Run(ss, es) && j <= k < |es| && (forall n :: j <= n <= k ==> Known(ss[n].slots, c))
    requires FewStray(chunks) && |last.stray| < 5
    requires ListPackets(OwnPackets(es[j..k], c)) == FirstPackets(chunks)
    requires es[k].Deliver? && es[k].c == c && es[k].packet == Packet(NOTIFY_LAST, Body(last))
    ensures Live(ss[j].slots, c) && Live(ss[k + 1].slots, c) && ss[k].wire <= ss[k + 1].wire
    ensures var list := ss[j].slots[c].value.friends + Together(chunks) + last.friends;
            var r := RepliesTo(ss[k + 1].wire[|ss[k].wire|..], ss[k].slots[c].value.fd);
            && ss[k + 1].slots[c].value.friends == list
            && |r| == |list|
            && (forall i :: 0 <= i < |list| ==>
                 Tells(r[i]) == Some(Told(list[i].uin, StatusOf(FindSession(ss[k + 1].slots, list[i].uin)))))
  {
    assert Known(ss[j].slots, c) && Known(ss[k].slots, c);
    var before := ss[j].slots[c].value.friends;
    ListIsFold(ss, es, j, k, c);
    OnlyListPackets(before, OwnPackets(es[j..k], c));
    FirstPacketsAppend(before, chunks);
    RecordsRoundTrip(last.friends, last.stray);
    assert Steps(ss[k], es[k], ss[k + 1]);
    LastPacket(ss[k], es[k], ss[k + 1]);
  }

  /** The step that handles the NOTIFY_LAST. */
  lemma LastPacket(s: Server, e: Event, s': Server)
    requires Steps(s, e, s') && e.Deliver? && Known(s.slots, e.c) && e.packet.kind == NOTIFY_LAST
    ensures Live(s'.slots, e.c) && s.wire <= s'.wire
    ensures var list := s.slots[e.c].value.friends + Sessions.Contacts(e.packet.body);
            var r := RepliesTo(s'.wire[|s.wire|..], s.slots[e.c].value.fd);
            && s'.slots[e.c].value.friends == list
            && |r| == |list|
            && (forall i :: 0 <= i < |list| ==>
                 Tells(r[i]) == Some(Told(list[i].uin, StatusOf(FindSession(s'.slots, list[i].uin)))))
  {
    Dispatch(s.users, s.slots, e.c, e.packet, e.env);
    hide Handle, Sessions.Contacts, Replies, Announce, ChangedStatus, Tells, RepliesTo, FindSession, StatusOf;
    var n := NotifyLast(s.slots, e.c, e.packet.body);
    assert s'.wire[|s.wire|..] == n.sent;
    LastReplies(n.slots, e.c);
  }

  lemma LastReplies(after: Slots, c: nat)
    requires Live(after, c)
    ensures var s := after[c].value;
            var sent := Replies(after, s.fd, s.friends) + Announce(after, s, s.friends) + ChangedStatus(after, c);
            var r := RepliesTo(sent, s.fd);
            && |r| == |s.friends|
            && (forall k :: 0 <= k < |r| ==>
                 Tells(r[k]) == Some(Told(s.friends[k].uin, StatusOf(FindSession(after, s.friends[k].uin)))))
  {
    var s := after[c].value;
    var r, a, d := Replies(after, s.fd, s.friends), Announce(after, s, s.friends), ChangedStatus(after, c);
    ChangedStatusKind(after, c);
    hide Replies, Announce, ChangedStatus, Tells, StatusPacket, FindSession, RepliesTo;
    forall k | 0 <= k < |a| ensures a[k].packet.kind != NOTIFY_REPLY {
      AnnounceSends(after, s, s.friends, k);
      StatusKind(Some(s), s.uin, 0, NEW_STATUS);
    }
    forall k | 0 <= k < |r|
      ensures r[k].fd == s.fd && r[k].packet.kind == NOTIFY_REPLY
      ensures Tells(r[k].packet) == Some(Told(s.friends[k].uin, StatusOf(FindSession(after, s.friends[k].uin))))
    {
      ReplyAt(after, s.fd, s.friends, k);
      StatusKind(FindSession(after, s.friends[k].uin), s.friends[k].uin, STATUS_NOT_AVAIL, NOTIFY_REPLY);
      StatusPacketTells(FindSession(after, s.friends[k].uin), s.friends[k].uin, STATUS_NOT_AVAIL, NOTIFY_REPLY);
    }
    OnlyReplies(r, s.fd);
    NoReplies(a, s.fd);
    NoReplies(d, s.fd);
    RepliesToBoth(r, a, s.fd);
    RepliesToBoth(r + a, d, s.fd);
  }

  lemma StatusKind(from: Option<Session>, uin: u32, fallback: u32, kind: u32)
    ensures StatusPacket(from, uin, fallback, kind).kind == kind
  {
    hide LE32, Descr;
  }

  lemma ChangedStatusKind(slots: Slots, c: nat)
    requires Live(slots, c)
    ensures forall k :: 0 <= k < |ChangedStatus(slots, c)| ==> ChangedStatus(slots, c)[k].packet.kind == NEW_STATUS
  {
    hide StatusPacket, Broadcast;
    var s := slots[c].value;
    var p := StatusPacket(Some(s), s.uin, 0, NEW_STATUS);
    StatusKind(Some(s), s.uin, 0, NEW_STATUS);
    BroadcastReaches(slots, c, s.uin, p, 0);
  }
}

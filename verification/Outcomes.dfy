/** What each kind of packet from a logged-in session does, written out: the table afterwards, and
    the packets that each connection gets. */
module Outcomes {
  import opened Wire
  import opened Options
  import opened Strings
  import opened Users
  import opened Sessions
  import opened Lifecycle
  import opened Numbers
  import opened Network
  import opened Deliveries

  // ---- NEW_STATUS ----

  /** The status word without the "friends only" bit. */
  function Plain(word: u32): u32
  {
    if word / 0x8000 % 2 == 1 then word - 0x8000 else word
  }

  /** A session after a NEW_STATUS with this body. */
  function Restated(s: Session, b: Octets): Session
    requires |b| >= 4
  {
    var word := WordAt(b, 0);
    s.(status := Plain(word), statusPrivate := word / 0x8000 % 2 == 1,
       descr := if |b| == 4 then None else Some(b[4..]), remove := Plain(word) == 0x1 || Plain(word) == 0x15)
  }

  lemma RestatedIs(s: Session, b: Octets)
    requires |b| >= 4 && !s.remove
    ensures Restated(s, b) == WithStatus(s, b).(remove := Leaving(WithStatus(s, b)))
    ensures TextOf(Some(Restated(s, b))) == Before(b[4..], 0) == TextOf(Some(WithStatus(s, b)))
  {
    hide WordAt;
  }

  /** A new session in slot c with the same connection and number: who hears is the same. */
  lemma SameHearers(slots: Slots, c: nat, s: Session, w: nat)
    requires Live(slots, c) && Live(slots, w) && FdsDistinct(slots)
    requires s.fd == slots[c].value.fd && s.uin == slots[c].value.uin
    ensures FdsDistinct(Put(slots, c, s)) && Live(Put(slots, c, s), w)
    ensures Hears(Put(slots, c, s), c, w) == Hears(slots, c, w)
    ensures Put(slots, c, s)[w].value.fd == slots[w].value.fd
  {
    hide HasContact;
  }

  lemma DescrRoundTo(slots: Slots, c: nat, w: nat)
    requires Live(slots, c) && Live(slots, w) && FdsDistinct(slots)
    ensures var s := slots[c].value;
            var got := PacketsTo(DescrRound(slots, c), slots[w].value.fd);
            if TextOf(slots[c]) != [] && Hears(slots, c, w) then |got| == 1 && Bare(got[0], NEW_STATUS, s.uin, s.status)
            else got == []
  {
    HearsIs(slots, c, w);
    var s := slots[c].value;
    BareWords(NEW_STATUS, s.uin, s.status);
    hide Watches, Hears, FdsDistinct, PacketsTo, Broadcast, LE32, WordAt, Bare, Before;
    PacketsToNobody(slots[w].value.fd);
    BroadcastTo(slots, c, s.uin, Packet(NEW_STATUS, LE32(s.uin) + LE32(s.status)), 0, w);
  }

  /** The bare status if there is a text, and the status packet. */
  lemma StatusRounds(slots: Slots, c: nat, w: nat)
    requires Live(slots, c) && Live(slots, w) && FdsDistinct(slots)
    ensures var s := slots[c].value;
            var got := PacketsTo(DescrRound(slots, c) + ChangedStatus(slots, c), slots[w].value.fd);
            if !Hears(slots, c, w) then got == []
            else if TextOf(slots[c]) == [] then |got| == 1 && Shows(got[0], NEW_STATUS, s.uin, s.status, slots[c])
            else
              && |got| == 2 && Bare(got[0], NEW_STATUS, s.uin, s.status)
              && Shows(got[1], NEW_STATUS, s.uin, s.status, slots[c])
  {
    hide Hears, FdsDistinct, PacketsTo, DescrRound, ChangedStatus, StatusPacket, Bare, Shows, TextOf;
    var s := slots[c].value;
    DescrRoundTo(slots, c, w);
    ChangedStatusTo(slots, c, w);
    StatusPacketShows(slots[c], s.uin, 0, NEW_STATUS);
    PacketsToBoth(DescrRound(slots, c), ChangedStatus(slots, c), slots[w].value.fd);
  }

  lemma NewStatusIs(users: Table, slots: Slots, c: nat, b: Octets, env: Env)
    requires Known(slots, c) && |b| >= 4
    ensures var h := Handle(users, slots, c, Packet(NEW_STATUS, b), env);
            var next := WithStatus(slots[c].value, b);
            var mid := Put(slots, c, next);
            var told := DescrRound(mid, c) + ChangedStatus(mid, c);
            && h.slots == Put(slots, c, next.(remove := Leaving(next)))
            && h.sent == told + (if Leaving(next) then [Sent(next.fd, Packet(DISCONNECTING, []))] else [])
  {
    hide WithStatus, DescrRound, ChangedStatus, Leaving;
    assert !WithStatus(slots[c].value, b).remove by { KeptByStatus(slots[c].value, b); }
  }

  lemma KeptByStatus(s: Session, b: Octets)
    requires |b| >= 4
    ensures var t := WithStatus(s, b); t.remove == s.remove && t.fd == s.fd && t.uin == s.uin
  {
    hide WordAt;
  }

  lemma GoodbyeTo(fd: nat, leaves: bool, to: nat)
    ensures PacketsTo(if leaves then [Sent(fd, Packet(DISCONNECTING, []))] else [], to)
         == if leaves && fd == to then [Packet(DISCONNECTING, [])] else []
  {
    PacketsToNobody(to);
    PacketsToOne(Sent(fd, Packet(DISCONNECTING, [])), to);
    hide PacketsTo;
  }

  lemma MarkNotShown(p: Packet, kind: u32, uin: u32, status: u32, s: Session, remove: bool)
    ensures Shows(p, kind, uin, status, Some(s.(remove := remove))) == Shows(p, kind, uin, status, Some(s))
  {
    hide WordAt;
  }

  lemma NoTextIsBare(p: Packet, kind: u32, uin: u32, status: u32, s: Option<Session>)
    requires Shows(p, kind, uin, status, s)
    ensures TextOf(s) == [] ==> Bare(p, kind, uin, status)
    ensures TextOf(s) != [] ==> |p.body| >= 20 && p.body[20..] == TextOf(s)
  {
    hide WordAt, TextOf;
  }

  /** What w gets of the new status: nothing, the bare status, or the bare status and the one
      with the text. */
  ghost predicate NewsIs(slots: Slots, c: nat, after: Session, text: Octets, w: nat, got: seq<Packet>)
    requires Live(slots, c) && Live(slots, w)
  {
    if !Hears(slots, c, w) then got == []
    else if text == [] then |got| == 1 && Bare(got[0], NEW_STATUS, after.uin, after.status)
    else
      && |got| == 2 && Bare(got[0], NEW_STATUS, after.uin, after.status)
      && Shows(got[1], NEW_STATUS, after.uin, after.status, Some(after))
      && |got[1].body| >= 20 && got[1].body[20..] == text
  }

  lemma NewsKeeps(slots: Slots, c: nat, s: Session, text: Octets, w: nat, got: seq<Packet>, remove: bool)
    requires Live(slots, c) && Live(slots, w) && NewsIs(slots, c, s, text, w, got)
    ensures NewsIs(slots, c, s.(remove := remove), text, w, got)
  {
    hide Hears, Bare, Shows;
    if |got| == 2 {
      MarkNotShown(got[1], NEW_STATUS, s.uin, s.status, s, remove);
    }
  }

  /** What someone else gets of the rounds. */
  lemma NewsOfRounds(slots: Slots, c: nat, w: nat)
    requires Live(slots, c) && Live(slots, w) && FdsDistinct(slots)
    ensures NewsIs(slots, c, slots[c].value, TextOf(slots[c]), w,
                   PacketsTo(DescrRound(slots, c) + ChangedStatus(slots, c), slots[w].value.fd))
  {
    StatusRounds(slots, c, w);
    hide PacketsTo, Hears, FdsDistinct, TextOf, DescrRound, ChangedStatus, Shows, Bare;
    var s, got := slots[c].value, PacketsTo(DescrRound(slots, c) + ChangedStatus(slots, c), slots[w].value.fd);
    if |got| > 0 {
      NoTextIsBare(got[|got| - 1], NEW_STATUS, s.uin, s.status, slots[c]);
    }
  }

  lemma NewsOfStatus(slots: Slots, c: nat, b: Octets, w: nat)
    requires Live(slots, c) && FdsDistinct(slots) && |b| >= 4 && Live(slots, w) && !slots[c].value.remove
    ensures var after, mid := Restated(slots[c].value, b), Put(slots, c, WithStatus(slots[c].value, b));
            NewsIs(slots, c, after, Before(b[4..], 0), w,
                   PacketsTo(DescrRound(mid, c) + ChangedStatus(mid, c), slots[w].value.fd))
  {
    var s := slots[c].value;
    var next := WithStatus(s, b);
    var mid := Put(slots, c, next);
    RestatedIs(s, b);
    KeptByStatus(s, b);
    SameHearers(slots, c, next, w);
    NewsOfRounds(mid, c, w);
    hide PacketsTo, WithStatus, Restated, FdsDistinct, TextOf, DescrRound, ChangedStatus, Leaving, NewsIs, Hears;
    var got := PacketsTo(DescrRound(mid, c) + ChangedStatus(mid, c), slots[w].value.fd);
    SameNews(mid, slots, c, next, Before(b[4..], 0), w, got);
    NewsKeeps(slots, c, next, Before(b[4..], 0), w, got, Leaving(next));
  }

  lemma SameNews(slots: Slots, before: Slots, c: nat, s: Session, text: Octets, w: nat, got: seq<Packet>)
    requires Live(slots, c) && Live(slots, w) && Live(before, c) && Live(before, w)
    requires Hears(slots, c, w) == Hears(before, c, w) && NewsIs(slots, c, s, text, w, got)
    ensures NewsIs(before, c, s, text, w, got)
  {
    hide Hears, Bare, Shows;
  }

  lemma NotHeardByItself(slots: Slots, c: nat)
    requires Live(slots, c)
    ensures !Hears(slots, c, c)
  {}

  /** The session has the status and the description of the packet, and is marked if it is not
      available any more. Everyone who hears of it gets one packet, with the number, the status
      and what follows from the description; and before that the bare status if the text of the
      packet is not empty. A session that leaves gets DISCONNECTING. No session gets anything else. */
  lemma StatusOutcome(users: Table, slots: Slots, c: nat, b: Octets, env: Env, w: nat)
    requires Known(slots, c) && FdsDistinct(slots) && |b| >= 4 && Live(slots, w)
    ensures var h := Handle(users, slots, c, Packet(NEW_STATUS, b), env);
            var after, got := Restated(slots[c].value, b), PacketsTo(h.sent, slots[w].value.fd);
            && h.slots == slots[c := Some(after)]
            && (w == c ==> got == if after.remove then [Packet(DISCONNECTING, [])] else [])
            && (w != c ==> NewsIs(slots, c, after, Before(b[4..], 0), w, got))
  {
    NewStatusIs(users, slots, c, b, env);
    RestatedIs(slots[c].value, b);
    hide Handle, PacketsTo, WithStatus, Restated, FdsDistinct, Before, DescrRound, ChangedStatus, Leaving, NewsIs,
         TextOf;
    StatusSent(slots, c, b, w);
  }

  lemma StatusSent(slots: Slots, c: nat, b: Octets, w: nat)
    requires Known(slots, c) && FdsDistinct(slots) && |b| >= 4 && Live(slots, w)
    ensures var next := WithStatus(slots[c].value, b);
            var after, mid := Restated(slots[c].value, b), Put(slots, c, next);
            var got := PacketsTo(DescrRound(mid, c) + ChangedStatus(mid, c)
                                 + (if Leaving(next) then [Sent(next.fd, Packet(DISCONNECTING, []))] else []),
                                 slots[w].value.fd);
            && (w == c ==> got == if after.remove then [Packet(DISCONNECTING, [])] else [])
            && (w != c ==> NewsIs(slots, c, after, Before(b[4..], 0), w, got))
  {
    var s, fd := slots[c].value, slots[w].value.fd;
    var next := WithStatus(s, b);
    var mid := Put(slots, c, next);
    var bye := if Leaving(next) then [Sent(next.fd, Packet(DISCONNECTING, []))] else [];
    RestatedIs(s, b);
    KeptByStatus(s, b);
    NewsOfStatus(slots, c, b, w);
    SameConnection(slots, c, w);
    GoodbyeTo(s.fd, Leaving(next), fd);
    NotHeardByItself(slots, c);
    PacketsToBoth(DescrRound(mid, c) + ChangedStatus(mid, c), bye, fd);
    hide PacketsTo, WithStatus, Restated, Hears, FdsDistinct, Before, DescrRound, ChangedStatus, Leaving, Shows, Bare,
         TextOf;
    if w == c {
      assert PacketsTo(DescrRound(mid, c) + ChangedStatus(mid, c), fd) == [];
    } else {
      hide NewsIs;
      assert PacketsTo(bye, fd) == [];
    }
  }

  // ---- contact lists ----

  /** The list is the old one and the five-byte records of b behind it. */
  ghost predicate Appended(list: seq<Friend>, before: seq<Friend>, b: Octets)
  {
    && |list| == |before| + |b| / 5 && before <= list
    && forall k :: 0 <= k < |b| / 5 ==> list[|before| + k] == Friend(WordAt(b, 5 * k), b[5 * k + 4])
  }

  lemma {:induction false} ContactsAt(b: Octets)
    ensures |Contacts(b)| == |b| / 5
    ensures forall k :: 0 <= k < |b| / 5 ==> Contacts(b)[k] == Friend(WordAt(b, 5 * k), b[5 * k + 4])
    decreases |b|
  {
    if |b| >= 5 {
      ContactsAt(b[5..]);
      var first, rest := Friend(WordAt(b, 0), b[4]), Contacts(b[5..]);
      forall k | 0 <= k < |b| / 5 ensures ([first] + rest)[k] == Friend(WordAt(b, 5 * k), b[5 * k + 4]) {
        if k > 0 {
          assert rest[k - 1] == Friend(WordAt(b[5..], 5 * (k - 1)), b[5..][5 * (k - 1) + 4]);
          assert b[5..][5 * (k - 1) + 4] == b[5 * k + 4];
          WordBehind(b, 5 * (k - 1));
        }
      }
    }
  }

  lemma WordBehind(b: Octets, i: nat)
    requires i + 9 <= |b|
    ensures WordAt(b[5..], i) == WordAt(b, i + 5)
  {}

  lemma AppendsRecords(s: Session, b: Octets)
    ensures Appended(AddContacts(s, b).friends, s.friends, b)
    ensures AddContacts(s, b) == s.(friends := AddContacts(s, b).friends)
  {
    ContactsAt(b);
    hide Contacts, WordAt;
  }

  /** A NOTIFY_FIRST appends its records to the list and sends nothing. */
  lemma FirstOutcome(users: Table, slots: Slots, c: nat, b: Octets, env: Env)
    requires Known(slots, c)
    ensures var h, s := Handle(users, slots, c, Packet(NOTIFY_FIRST, b), env), slots[c].value;
            && Live(h.slots, c) && Appended(h.slots[c].value.friends, s.friends, b)
            && h == Effect(slots[c := Some(s.(friends := h.slots[c].value.friends))], [])
  {
    hide AddContacts, Appended;
    AppendsRecords(slots[c].value, b);
  }

  /** How many entries client_find answers with slot w. */
  function Finds(slots: Slots, friends: seq<Friend>, w: nat): nat
  {
    if friends == [] then 0
    else (if Find(slots, friends[0].uin) == Some(w) then 1 else 0) + Finds(slots, friends[1..], w)
  }

  lemma {:induction false} AnnounceTo(slots: Slots, s: Session, friends: seq<Friend>, w: nat)
    requires Live(slots, w) && FdsDistinct(slots)
    ensures var got := PacketsTo(Announce(slots, s, friends), slots[w].value.fd);
            && |got| == Finds(slots, friends, w)
            && forall k :: 0 <= k < |got| ==> got[k] == StatusPacket(Some(s), s.uin, 0, NEW_STATUS)
  {
    hide PacketsTo, StatusPacket, Find;
    var fd, p := slots[w].value.fd, StatusPacket(Some(s), s.uin, 0, NEW_STATUS);
    PacketsToNobody(fd);
    if friends != [] {
      AnnounceTo(slots, s, friends[1..], w);
      var f := Find(slots, friends[0].uin);
      var one := if f.Some? then [Sent(slots[f.value].value.fd, p)] else [];
      assert Announce(slots, s, friends) == one + Announce(slots, s, friends[1..]);
      PacketsToBoth(one, Announce(slots, s, friends[1..]), fd);
      if f.Some? {
        PacketsToOne(Sent(slots[f.value].value.fd, p), fd);
        SameConnection(slots, f.value, w);
      }
    }
  }

  /** The answer to the question about one number. */
  ghost predicate AnswerIs(p: Packet, slots: Slots, uin: u32)
  {
    var f := FindSession(slots, uin);
    Shows(p, NOTIFY_REPLY, uin, if f.Some? then f.value.status else 0x1, f)
  }

  lemma {:induction false} RepliesTo(slots: Slots, fd: nat, friends: seq<Friend>, to: nat)
    ensures var got := PacketsTo(Replies(slots, fd, friends), to);
            if to != fd then got == []
            else |got| == |friends| && forall k :: 0 <= k < |got| ==> AnswerIs(got[k], slots, friends[k].uin)
  {
    hide PacketsTo, StatusPacket, FindSession, Shows;
    PacketsToNobody(to);
    if friends != [] {
      RepliesTo(slots, fd, friends[1..], to);
      var uin := friends[0].uin;
      var p := StatusPacket(FindSession(slots, uin), uin, STATUS_NOT_AVAIL, NOTIFY_REPLY);
      StatusPacketShows(FindSession(slots, uin), uin, STATUS_NOT_AVAIL, NOTIFY_REPLY);
      PacketsToBoth([Sent(fd, p)], Replies(slots, fd, friends[1..]), to);
      PacketsToOne(Sent(fd, p), to);
    }
  }

  /** What w gets of the three rounds: c gets one answer for each entry of its list, in order; and
      w gets the status of c once for each entry that client_find answers with w, and once more if
      w hears of c. */
  ghost predicate RoundsAre(slots: Slots, c: nat, w: nat, got: seq<Packet>)
    requires Live(slots, c) && Live(slots, w)
  {
    var s := slots[c].value;
    var n := if w == c then |s.friends| else 0;
    && |got| == n + Finds(slots, s.friends, w) + (if Hears(slots, c, w) then 1 else 0)
    && (forall k :: 0 <= k < n ==> AnswerIs(got[k], slots, s.friends[k].uin))
    && forall k :: n <= k < |got| ==> Shows(got[k], NEW_STATUS, s.uin, s.status, slots[c])
  }

  lemma RoundsTo(slots: Slots, c: nat, w: nat)
    requires Live(slots, c) && Live(slots, w) && FdsDistinct(slots)
    ensures var s := slots[c].value;
            RoundsAre(slots, c, w, PacketsTo(Replies(slots, s.fd, s.friends) + Announce(slots, s, s.friends)
                                             + ChangedStatus(slots, c), slots[w].value.fd))
  {
    hide PacketsTo, StatusPacket, Find, Shows, Hears, Replies, Announce, ChangedStatus, FdsDistinct, AnswerIs, Finds;
    var s, fd := slots[c].value, slots[w].value.fd;
    SameConnection(slots, c, w);
    RepliesTo(slots, s.fd, s.friends, fd);
    AnnounceTo(slots, s, s.friends, w);
    ChangedStatusTo(slots, c, w);
    StatusPacketShows(slots[c], s.uin, 0, NEW_STATUS);
    PacketsToBoth(Replies(slots, s.fd, s.friends), Announce(slots, s, s.friends), fd);
    PacketsToBoth(Replies(slots, s.fd, s.friends) + Announce(slots, s, s.friends), ChangedStatus(slots, c), fd);
  }

  /** A NOTIFY_LAST appends its records as well, and then come the three rounds. */
  lemma LastOutcome(users: Table, slots: Slots, c: nat, b: Octets, env: Env, w: nat)
    requires Known(slots, c) && FdsDistinct(slots) && Live(slots, w)
    ensures var h, s := Handle(users, slots, c, Packet(NOTIFY_LAST, b), env), slots[c].value;
            && Live(h.slots, c) && Live(h.slots, w) && Appended(h.slots[c].value.friends, s.friends, b)
            && h.slots == slots[c := Some(s.(friends := h.slots[c].value.friends))]
            && RoundsAre(h.slots, c, w, PacketsTo(h.sent, slots[w].value.fd))
  {
    var s := slots[c].value;
    var after := Put(slots, c, AddContacts(s, b));
    AppendsRecords(s, b);
    LastIs(users, slots, c, b, env);
    SameHearers(slots, c, AddContacts(s, b), w);
    hide Handle, AddContacts, Appended, RoundsAre, Replies, Announce, ChangedStatus, PacketsTo, FdsDistinct;
    RoundsTo(after, c, w);
  }

  lemma LastIs(users: Table, slots: Slots, c: nat, b: Octets, env: Env)
    requires Known(slots, c)
    ensures var h, s := Handle(users, slots, c, Packet(NOTIFY_LAST, b), env), AddContacts(slots[c].value, b);
            var after := Put(slots, c, s);
            h == Effect(after, Replies(after, s.fd, s.friends) + Announce(after, s, s.friends)
                               + ChangedStatus(after, c))
  {
    hide AddContacts, Replies, Announce, ChangedStatus;
  }

  /** An ADD_NOTIFY appends one contact and answers with its number and the status client_find
      finds, never with a text. */
  lemma AddOutcome(users: Table, slots: Slots, c: nat, b: Octets, env: Env)
    requires Known(slots, c) && |b| >= 5 && WordAt(b, 0) != 0
    ensures var h, s := Handle(users, slots, c, Packet(ADD_NOTIFY, b), env), slots[c].value;
            && h.slots == slots[c := Some(s.(friends := s.friends + [Friend(WordAt(b, 0), b[4])]))]
            && |h.sent| == 1 && h.sent[0].fd == s.fd
            && var f := FindSession(h.slots, WordAt(b, 0));
               Bare(h.sent[0].packet, NOTIFY_REPLY, WordAt(b, 0), if f.Some? then f.value.status else 0x1)
  {
    hide WordAt, LE32, Find, Bare;
    var f := FindSession(Handle(users, slots, c, Packet(ADD_NOTIFY, b), env).slots, WordAt(b, 0));
    BareWords(NOTIFY_REPLY, WordAt(b, 0), if f.Some? then f.value.status else 0x1);
  }

  /** A REMOVE_NOTIFY takes the first entry with the number out of the list. */
  lemma RemoveOutcome(users: Table, slots: Slots, c: nat, b: Octets, env: Env, i: nat)
    requires Known(slots, c) && |b| >= 5
    ensures var h, s := Handle(users, slots, c, Packet(REMOVE_NOTIFY, b), env), slots[c].value;
            var list, uin := s.friends, WordAt(b, 0);
            && (!HasContact(list, uin) ==> h == Effect(slots, []))
            && (i < |list| && list[i].uin == uin && (forall k :: 0 <= k < i ==> list[k].uin != uin) ==>
                 h == Effect(slots[c := Some(s.(friends := list[..i] + list[i + 1..]))], []))
  {
    hide WordAt, FriendAt;
    var s, uin := slots[c].value, WordAt(b, 0);
    var at := FriendAt(s.friends, uin);
    assert at.Some? ==> HasContact(s.friends, uin);
    if at.None? {
      assert s.(friends := s.friends) == s;
      assert Put(slots, c, s) == slots;
    }
  }

  /** A USERLIST_REQUEST: an empty list for a request to get it, a receipt for the two requests to
      put it, and nothing for any other. */
  lemma UserlistOutcome(users: Table, slots: Slots, c: nat, b: Octets, env: Env)
    requires Known(slots, c) && |b| >= 1
    ensures Handle(users, slots, c, Packet(USERLIST_REQUEST, b), env)
         == Effect(slots, if b[0] == 2 then [Sent(slots[c].value.fd, Packet(USERLIST_REPLY, [6]))]
                          else if b[0] <= 1 then [Sent(slots[c].value.fd, Packet(USERLIST_REPLY, [0]))]
                          else [])
  {}

  /** Everything else does nothing: a marked session is not heard; before login only the four login
      packets are; after it all the others, if they are long enough. */
  lemma Ignored(users: Table, slots: Slots, c: nat, p: Packet, env: Env)
    requires Live(slots, c)
    requires slots[c].value.remove
             || (slots[c].value.state == Login && p.kind !in {LOGIN31, LOGIN50, LOGIN60, LOGIN70, SEND_MSG})
             || (slots[c].value.state == LoginOk && p.kind in {LOGIN31, LOGIN50, LOGIN60, LOGIN70})
             || (p.kind == LOGIN31 && |p.body| < 12) || (p.kind == LOGIN50 && |p.body| < 22)
             || (p.kind == LOGIN60 && |p.body| < 31) || (p.kind == LOGIN70 && |p.body| < 92)
             || (p.kind == NEW_STATUS && |p.body| < 4) || (p.kind == USERLIST_REQUEST && |p.body| < 1)
             || (p.kind in {ADD_NOTIFY, REMOVE_NOTIFY} && |p.body| < 5)
             || (p.kind == ADD_NOTIFY && |p.body| >= 5 && WordAt(p.body, 0) == 0)
             || p.kind !in {LOGIN31, LOGIN50, LOGIN60, LOGIN70, NOTIFY_FIRST, NOTIFY_LAST, USERLIST_REQUEST,
                            NEW_STATUS, ADD_NOTIFY, REMOVE_NOTIFY, SEND_MSG}
    ensures Handle(users, slots, c, p, env) == Effect(slots, [])
  {
    hide WordAt, HashAccepted, DigestAccepted, LoggedIn, LoginFailed, AddContacts, Replies, Announce, ChangedStatus,
         WithStatus, DescrRound, FindSession, Without, SendMessage;
  }
}

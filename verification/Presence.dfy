/** What watchers know about the status of their contacts. */
module Presence {
  import opened Wire
  import opened Options
  import opened Users
  import opened Sessions
  import opened Lifecycle
  import opened Numbers

  // ---- what packets tell ----

  datatype Told = Told(uin: u32, status: u32)

  /** The two packets that tell a client about a contact. */
  function Tells(p: Packet): Option<Told>
  {
    if (p.kind == NEW_STATUS || p.kind == NOTIFY_REPLY) && |p.body| >= 8 then
      Some(Told(WordAt(p.body, 0), WordAt(p.body, 4)))
    else None
  }

  /** The last status word sent to connection fd about uin. */
  function LastTold(wire: seq<Sent>, fd: nat, uin: u32): Option<u32>
  {
    if wire == [] then None
    else
      var last := wire[|wire| - 1];
      var t := Tells(last.packet);
      if last.fd == fd && t.Some? && t.value.uin == uin then Some(t.value.status)
      else LastTold(wire[..|wire| - 1], fd, uin)
  }

  ghost predicate Mentions(sent: seq<Sent>, fd: nat, uin: u32)
  {
    exists k :: 0 <= k < |sent| && sent[k].fd == fd && Tells(sent[k].packet).Some?
        && Tells(sent[k].packet).value.uin == uin
  }

  /** Every word about uin that connection fd gets is v. */
  ghost predicate SaysTo(sent: seq<Sent>, fd: nat, uin: u32, v: u32)
  {
    forall k :: (0 <= k < |sent| && sent[k].fd == fd && Tells(sent[k].packet).Some?
                 && Tells(sent[k].packet).value.uin == uin) ==> Tells(sent[k].packet).value.status == v
  }

  lemma {:induction false} LastToldAfter(wire: seq<Sent>, sent: seq<Sent>, fd: nat, uin: u32, v: u32)
    requires SaysTo(sent, fd, uin, v)
    requires Mentions(sent, fd, uin) || LastTold(wire, fd, uin) == Some(v)
    ensures LastTold(wire + sent, fd, uin) == Some(v)
    decreases |sent|
  {
    hide Tells;
    if sent == [] {
      assert wire + sent == wire;
    } else {
      var front, last := sent[..|sent| - 1], sent[|sent| - 1];
      assert (wire + sent)[..|wire + sent| - 1] == wire + front;
      assert (wire + sent)[|wire + sent| - 1] == last;
      if !(last.fd == fd && Tells(last.packet).Some? && Tells(last.packet).value.uin == uin) {
        if Mentions(sent, fd, uin) {
          var k :| 0 <= k < |sent| && sent[k].fd == fd && Tells(sent[k].packet).Some?
              && Tells(sent[k].packet).value.uin == uin;
          assert front[k] == sent[k];
          assert Mentions(front, fd, uin);
        }
        LastToldAfter(wire, front, fd, uin, v);
      } else {
        assert Tells(sent[|sent| - 1].packet).value.status == v;
      }
    }
  }

  lemma MentionsEither(a: seq<Sent>, b: seq<Sent>, fd: nat, uin: u32)
    requires Mentions(a, fd, uin) || Mentions(b, fd, uin)
    ensures Mentions(a + b, fd, uin)
  {
    hide Tells;
    if Mentions(a, fd, uin) {
      var k :| 0 <= k < |a| && a[k].fd == fd && Tells(a[k].packet).Some? && Tells(a[k].packet).value.uin == uin;
      assert (a + b)[k] == a[k];
    } else {
      var k :| 0 <= k < |b| && b[k].fd == fd && Tells(b[k].packet).Some? && Tells(b[k].packet).value.uin == uin;
      assert (a + b)[|a| + k] == b[k];
    }
  }

  /** A packet that begins with a number and a status tells just that. */
  lemma TellsWords(p: Packet, uin: u32, status: u32)
    requires p.kind == NEW_STATUS || p.kind == NOTIFY_REPLY
    requires LE32(uin) + LE32(status) <= p.body
    ensures Tells(p) == Some(Told(uin, status))
  {
    hide LE32, WordAt;
    assert p.body[..8] == LE32(uin) + LE32(status);
    assert p.body[0..4] == p.body[..8][0..4] == LE32(uin);
    assert p.body[4..8] == p.body[..8][4..8] == LE32(status);
    WordOfLE32(p.body, 0, uin);
    WordOfLE32(p.body, 4, status);
  }

  lemma StatusPacketTells(from: Option<Session>, uin: u32, fallback: u32, kind: u32)
    requires kind == NEW_STATUS || kind == NOTIFY_REPLY
    ensures Tells(StatusPacket(from, uin, fallback, kind))
         == Some(Told(uin, if from.Some? then from.value.status else fallback))
  {
    hide LE32, Descr;
    TellsWords(StatusPacket(from, uin, fallback, kind), uin, if from.Some? then from.value.status else fallback);
  }

  /** The packet tells the number and the status of the logged-in session s. */
  ghost predicate IsOwn(s: Session, p: Packet)
  {
    s.state == LoginOk && Tells(p) == Some(Told(s.uin, s.status))
  }

  /** What is told is told about s, and is so. */
  ghost predicate OwnOnly(sent: seq<Sent>, s: Session)
  {
    forall k :: 0 <= k < |sent| && Tells(sent[k].packet).Some? ==> IsOwn(s, sent[k].packet)
  }

  lemma OwnOnlyBoth(a: seq<Sent>, b: seq<Sent>, s: Session)
    requires OwnOnly(a, s) && OwnOnly(b, s)
    ensures OwnOnly(a + b, s)
  {
    hide IsOwn, Tells;
  }

  lemma QuietIsOwnOnly(a: seq<Sent>, s: Session)
    requires forall k :: 0 <= k < |a| ==> Tells(a[k].packet).None?
    ensures OwnOnly(a, s)
  {}

  // ---- the loops that tell ----

  /** The broadcast loop sends only p, and sends it to every watcher. */
  lemma {:induction false} BroadcastReaches(slots: Slots, c: nat, uin: u32, p: Packet, i: nat)
    requires i <= MAX_CLIENTS
    ensures forall k :: 0 <= k < |Broadcast(slots, c, uin, p, i)| ==> Broadcast(slots, c, uin, p, i)[k].packet == p
    ensures forall w :: i <= w < MAX_CLIENTS && Watches(slots, c, uin, w) ==>
              Sent(slots[w].value.fd, p) in Broadcast(slots, c, uin, p, i)
    decreases MAX_CLIENTS - i
  {
    if i < MAX_CLIENTS {
      BroadcastReaches(slots, c, uin, p, i + 1);
    }
  }

  /** The two loops over the table tell every watcher, and only about the sender. */
  lemma BroadcastTells(slots: Slots, c: nat, uin: u32, p: Packet, s: Session)
    requires IsOwn(s, p) && uin == s.uin
    ensures OwnOnly(Broadcast(slots, c, uin, p, 0), s)
    ensures forall w :: 0 <= w < MAX_CLIENTS && Watches(slots, c, uin, w) ==>
              Mentions(Broadcast(slots, c, uin, p, 0), slots[w].value.fd, uin)
  {
    hide Tells, Broadcast;
    BroadcastReaches(slots, c, uin, p, 0);
    var sent := Broadcast(slots, c, uin, p, 0);
    forall w | 0 <= w < MAX_CLIENTS && Watches(slots, c, uin, w)
      ensures Mentions(sent, slots[w].value.fd, uin)
    {
      var k :| 0 <= k < |sent| && sent[k] == Sent(slots[w].value.fd, p);
    }
  }

  lemma {:induction false} ReplyAt(slots: Slots, fd: nat, friends: seq<Friend>, k: nat)
    requires k < |friends|
    ensures Replies(slots, fd, friends)[k]
         == Sent(fd, StatusPacket(FindSession(slots, friends[k].uin), friends[k].uin, STATUS_NOT_AVAIL, NOTIFY_REPLY))
  {
    hide StatusPacket, FindSession;
    if k > 0 {
      ReplyAt(slots, fd, friends[1..], k - 1);
    }
  }

  lemma {:induction false} AnnounceSends(slots: Slots, s: Session, friends: seq<Friend>, k: nat)
    requires k < |Announce(slots, s, friends)|
    ensures Announce(slots, s, friends)[k].packet == StatusPacket(Some(s), s.uin, 0, NEW_STATUS)
  {
    hide StatusPacket, FindSession;
    var n := if FindSession(slots, friends[0].uin).Some? then 1 else 0;
    if k >= n {
      AnnounceSends(slots, s, friends[1..], k - n);
    }
  }

  // ---- what one packet does to presence ----

  ghost function Uins(friends: seq<Friend>): set<u32>
  {
    set i | 0 <= i < |friends| :: friends[i].uin
  }

  /** To others session c is what it was; before login it is nothing to them. */
  ghost predicate SameToOthers(slots: Slots, after: Slots, c: nat)
    requires Live(slots, c) && Live(after, c)
  {
    after[c].value.state == LoginOk ==>
      slots[c].value.state == LoginOk && after[c].value.uin == slots[c].value.uin
          && after[c].value.status == slots[c].value.status
  }

  ghost predicate TellsWatchers(sent: seq<Sent>, after: Slots, c: nat)
    requires Live(after, c)
  {
    forall w :: (0 <= w < MAX_CLIENTS && w != c && after[w].Some?
                 && after[c].value.uin in Uins(after[w].value.friends)) ==>
      Mentions(sent, after[w].value.fd, after[c].value.uin)
  }

  ghost predicate Answers(sent: seq<Sent>, after: Slots, c: nat, asked: set<u32>)
    requires Live(after, c)
  {
    forall x :: x in asked && x in Uins(after[c].value.friends) ==> Mentions(sent, after[c].value.fd, x)
  }

  function StatusOf(f: Option<Session>): u32
  {
    if f.Some? then f.value.status else STATUS_NOT_AVAIL
  }

  /** x tells connection fd what client_find finds for a number it asked about. */
  ghost predicate IsAnswer(slots: Slots, fd: nat, asked: set<u32>, x: Sent)
  {
    var t := Tells(x.packet);
    t.Some? && x.fd == fd && t.value.uin in asked && t.value.status == StatusOf(FindSession(slots, t.value.uin))
  }

  /** What is told while a packet of c is handled is an answer to c, or the truth about c. */
  ghost predicate OnlyTells(slots: Slots, c: nat, asked: set<u32>, sent: seq<Sent>, after: Slots)
    requires Live(slots, c) && Live(after, c)
  {
    forall k :: 0 <= k < |sent| && Tells(sent[k].packet).Some? ==>
      IsAnswer(slots, slots[c].value.fd, asked, sent[k]) || IsOwn(after[c].value, sent[k].packet)
  }

  /** A packet of slot c is handled so: nothing else is told, c is told about the contacts it
      asked for, and if c's own number or status is new, every session that has c on its list
      is told. */
  ghost predicate Informs(slots: Slots, c: nat, e: Effect, asked: set<u32>)
    requires Live(slots, c) && Live(e.slots, c)
  {
    && OnlyTells(slots, c, asked, e.sent, e.slots)
    && Answers(e.sent, e.slots, c, asked)
    && (SameToOthers(slots, e.slots, c) || TellsWatchers(e.sent, e.slots, c))
  }

  lemma OwnInforms(slots: Slots, c: nat, e: Effect)
    requires Live(slots, c) && Live(e.slots, c) && OwnOnly(e.sent, e.slots[c].value)
    requires SameToOthers(slots, e.slots, c) || TellsWatchers(e.sent, e.slots, c)
    ensures Informs(slots, c, e, {})
  {
    hide Tells, Uins, IsOwn, TellsWatchers;
  }

  lemma QuietInforms(slots: Slots, c: nat, e: Effect)
    requires Live(slots, c) && Live(e.slots, c)
    requires forall k :: 0 <= k < |e.sent| ==> Tells(e.sent[k].packet).None?
    requires SameToOthers(slots, e.slots, c)
    ensures Informs(slots, c, e, {})
  {
    hide Tells, IsOwn, TellsWatchers, Uins;
  }

  /** Someone with a contact list is logged in. */
  ghost predicate ListsNeedLogin(slots: Slots)
  {
    forall i :: 0 <= i < MAX_CLIENTS && slots[i].Some? && slots[i].value.friends != [] ==>
        slots[i].value.state == LoginOk
  }

  lemma WatcherOf(slots: Slots, c: nat, uin: u32, w: nat)
    requires Live(slots, w) && w != c && ListsNeedLogin(slots)
    requires uin in Uins(slots[w].value.friends)
    ensures Watches(slots, c, uin, w)
  {}

  /** changed_status tells every watcher, and only the truth about c. */
  lemma ChangedStatusTells(slots: Slots, c: nat)
    requires Live(slots, c) && ListsNeedLogin(slots) && slots[c].value.state == LoginOk
    ensures OwnOnly(ChangedStatus(slots, c), slots[c].value)
    ensures TellsWatchers(ChangedStatus(slots, c), slots, c)
  {
    hide StatusPacket, Tells, Broadcast, Watches, OwnOnly, Mentions;
    var s := slots[c].value;
    StatusPacketTells(Some(s), s.uin, 0, NEW_STATUS);
    BroadcastTells(slots, c, s.uin, StatusPacket(Some(s), s.uin, 0, NEW_STATUS), s);
    forall w | 0 <= w < MAX_CLIENTS && w != c && slots[w].Some? && s.uin in Uins(slots[w].value.friends)
      ensures Mentions(ChangedStatus(slots, c), slots[w].value.fd, s.uin)
    {
      WatcherOf(slots, c, s.uin, w);
    }
  }

  lemma TellsWatchersAmong(a: seq<Sent>, b: seq<Sent>, d: seq<Sent>, slots: Slots, c: nat)
    requires Live(slots, c) && TellsWatchers(b, slots, c)
    ensures TellsWatchers(a + b + d, slots, c)
  {
    hide Mentions;
    var x := slots[c].value.uin;
    forall w | 0 <= w < MAX_CLIENTS && w != c && slots[w].Some? && x in Uins(slots[w].value.friends)
      ensures Mentions(a + b + d, slots[w].value.fd, x)
    {
      MentionsEither(a, b, slots[w].value.fd, x);
      MentionsEither(a + b, d, slots[w].value.fd, x);
    }
  }

  lemma LoggedInInforms(slots: Slots, c: nat, uin: u32, version: Option<u32>, imageSize: Option<u8>)
    requires Unmarked(slots, c) && ListsNeedLogin(slots) && slots[c].value.uin == 0 && uin != 0
    ensures var e := LoggedIn(slots, c, uin, version, imageSize);
            Live(e.slots, c) && Informs(slots, c, e, {})
  {
    hide LoggedIn, Supersede, ChangedStatus, Mentions, OwnOnly, ListsNeedLogin, Informs, TellsWatchers, Tells;
    var e := LoggedIn(slots, c, uin, version, imageSize);
    LoggedInLists(slots, c, uin, version, imageSize);
    LoggedInSends(slots, c, uin, version, imageSize);
    var first := Supersede(slots, uin).sent + [Sent(slots[c].value.fd, Packet(LOGIN_OK, []))];
    assert first + ChangedStatus(e.slots, c) + [] == e.sent;
    ChangedStatusTells(e.slots, c);
    QuietIsOwnOnly(first, e.slots[c].value);
    OwnOnlyBoth(first, ChangedStatus(e.slots, c), e.slots[c].value);
    TellsWatchersAmong(first, ChangedStatus(e.slots, c), [], e.slots, c);
    OwnInforms(slots, c, e);
  }

  lemma LoggedInSends(slots: Slots, c: nat, uin: u32, version: Option<u32>, imageSize: Option<u8>)
    requires Live(slots, c)
    ensures var e := LoggedIn(slots, c, uin, version, imageSize);
            var first := Supersede(slots, uin).sent + [Sent(slots[c].value.fd, Packet(LOGIN_OK, []))];
            Live(e.slots, c) && e.sent == first + ChangedStatus(e.slots, c)
            && forall k :: 0 <= k < |first| ==> Tells(first[k].packet).None?
  {
    hide ChangedStatus, Find;
  }

  lemma LoggedInLists(slots: Slots, c: nat, uin: u32, version: Option<u32>, imageSize: Option<u8>)
    requires Live(slots, c) && ListsNeedLogin(slots)
    ensures var after := LoggedIn(slots, c, uin, version, imageSize).slots;
            Live(after, c) && after[c].value.state == LoginOk && ListsNeedLogin(after)
  {
    hide ChangedStatus, Find;
  }

  /** The first loop of NOTIFY_LAST answers for every contact. */
  lemma RepliesAnswer(slots: Slots, fd: nat, friends: seq<Friend>)
    ensures forall k :: 0 <= k < |friends| ==> IsAnswer(slots, fd, Uins(friends), Replies(slots, fd, friends)[k])
    ensures forall x :: x in Uins(friends) ==> Mentions(Replies(slots, fd, friends), fd, x)
  {
    hide StatusPacket, Tells, Replies, FindSession, StatusOf;
    var r := Replies(slots, fd, friends);
    forall k | 0 <= k < |r|
      ensures r[k].fd == fd && Tells(r[k].packet)
           == Some(Told(friends[k].uin, StatusOf(FindSession(slots, friends[k].uin))))
    {
      ReplyTells(slots, fd, friends, k);
    }
    forall x | x in Uins(friends) ensures Mentions(r, fd, x) {
      var k :| 0 <= k < |friends| && friends[k].uin == x;
      assert r[k].fd == fd;
    }
  }

  lemma ReplyTells(slots: Slots, fd: nat, friends: seq<Friend>, k: nat)
    requires k < |friends|
    ensures Replies(slots, fd, friends)[k].fd == fd
    ensures Tells(Replies(slots, fd, friends)[k].packet)
         == Some(Told(friends[k].uin, StatusOf(FindSession(slots, friends[k].uin))))
  {
    hide StatusPacket, Tells, Replies, FindSession;
    ReplyAt(slots, fd, friends, k);
    StatusPacketTells(FindSession(slots, friends[k].uin), friends[k].uin, STATUS_NOT_AVAIL, NOTIFY_REPLY);
  }

  lemma AnnounceTells(slots: Slots, s: Session, friends: seq<Friend>)
    requires s.state == LoginOk
    ensures OwnOnly(Announce(slots, s, friends), s)
  {
    hide StatusPacket, Tells, Announce;
    var r := Announce(slots, s, friends);
    forall k | 0 <= k < |r| ensures Tells(r[k].packet) == Some(Told(s.uin, s.status)) {
      AnnounceSends(slots, s, friends, k);
      StatusPacketTells(Some(s), s.uin, 0, NEW_STATUS);
    }
  }

  /** What client_find finds depends on the numbers alone. */
  lemma SameNumbers(slots: Slots, after: Slots, x: u32)
    requires forall i :: 0 <= i < MAX_CLIENTS ==> slots[i].Some? == after[i].Some?
    requires forall i :: 0 <= i < MAX_CLIENTS && slots[i].Some? ==> slots[i].value.uin == after[i].value.uin
    ensures Find(after, x) == Find(slots, x)
  {
    hide FindFrom;
    var f, g := Find(slots, x), Find(after, x);
    if f.Some? {
      assert after[f.value].value.uin == x;
    }
    if g.Some? {
      assert slots[g.value].value.uin == x;
    }
  }

  /** A new contact list of c changes nothing for client_find. */
  lemma LookupKeeps(slots: Slots, c: nat, s: Session, x: u32)
    requires Live(slots, c) && s.uin == slots[c].value.uin && s.status == slots[c].value.status
    ensures StatusOf(FindSession(Put(slots, c, s), x)) == StatusOf(FindSession(slots, x))
  {
    SameNumbers(slots, Put(slots, c, s), x);
    hide Find;
  }

  lemma AnswerKeeps(slots: Slots, c: nat, s: Session, fd: nat, asked: set<u32>, x: Sent)
    requires Live(slots, c) && s.uin == slots[c].value.uin && s.status == slots[c].value.status
    requires IsAnswer(Put(slots, c, s), fd, asked, x)
    ensures IsAnswer(slots, fd, asked, x)
  {
    hide Tells, FindSession, StatusOf;
    LookupKeeps(slots, c, s, Tells(x.packet).value.uin);
  }

  /** The contacts a packet asks about and gets an answer for. */
  ghost function Asked(s: Session, p: Packet): set<u32>
  {
    if s.remove || s.state != LoginOk then {}
    else if p.kind == NOTIFY_LAST then Uins(AddContacts(s, p.body).friends)
    else if p.kind == ADD_NOTIFY && |p.body| >= 5 && WordAt(p.body, 0) != 0 then {WordAt(p.body, 0)}
    else {}
  }

  lemma OnlyTellsBoth(slots: Slots, c: nat, asked: set<u32>, a: seq<Sent>, b: seq<Sent>, after: Slots)
    requires Live(slots, c) && Live(after, c) && OwnOnly(b, after[c].value)
    requires forall k :: 0 <= k < |a| ==> IsAnswer(slots, slots[c].value.fd, asked, a[k])
    ensures OnlyTells(slots, c, asked, a + b, after)
  {
    hide IsAnswer, IsOwn, Tells;
  }

  lemma NotifyLastInforms(slots: Slots, c: nat, b: Octets)
    requires Unmarked(slots, c) && ListsNeedLogin(slots) && slots[c].value.state == LoginOk
    ensures var e := NotifyLast(slots, c, b);
            Live(e.slots, c) && Informs(slots, c, e, Uins(AddContacts(slots[c].value, b).friends))
  {
    var s := AddContacts(slots[c].value, b);
    var after, asked := Put(slots, c, s), Uins(s.friends);
    assert ListsNeedLogin(after);
    hide Contacts, ChangedStatus, Replies, Announce, Mentions, OwnOnly, Uins, IsAnswer, IsOwn, Tells, ListsNeedLogin;
    var r, a, d := Replies(after, s.fd, s.friends), Announce(after, s, s.friends), ChangedStatus(after, c);
    assert NotifyLast(slots, c, b) == Effect(after, r + a + d);
    assert r + a + d == r + (a + d);
    RepliesAnswer(after, s.fd, s.friends);
    forall k | 0 <= k < |r| ensures IsAnswer(slots, s.fd, asked, r[k]) {
      AnswerKeeps(slots, c, s, s.fd, asked, r[k]);
    }
    AnnounceTells(after, s, s.friends);
    ChangedStatusTells(after, c);
    OwnOnlyBoth(a, d, s);
    OnlyTellsBoth(slots, c, asked, r, a + d, after);
    forall x | x in asked ensures Mentions(r + a + d, s.fd, x) {
      MentionsEither(r, a, s.fd, x);
      MentionsEither(r + a, d, s.fd, x);
    }
  }

  lemma DescrRoundTells(slots: Slots, c: nat)
    requires Live(slots, c) && slots[c].value.state == LoginOk
    ensures OwnOnly(DescrRound(slots, c), slots[c].value)
  {
    hide LE32, Descr, Broadcast;
    var s := slots[c].value;
    var p := Packet(NEW_STATUS, LE32(s.uin) + LE32(s.status));
    TellsWords(p, s.uin, s.status);
    hide Tells;
    BroadcastTells(slots, c, s.uin, p, s);
  }

  /** A status change: what is told is the new status, and every watcher is told; also when
      the session is marked in the end. */
  lemma NewStatusTells(slots: Slots, c: nat, b: Octets)
    requires Live(slots, c) && ListsNeedLogin(slots) && slots[c].value.state == LoginOk && |b| >= 4
    ensures var e := NewStatus(slots, c, b);
            && Live(e.slots, c) && e.slots[c].value.state == LoginOk && e.slots[c].value.uin == slots[c].value.uin
            && e.slots[c].value.status == WithoutMask(WordAt(b, 0))
            && OwnOnly(e.sent, e.slots[c].value) && TellsWatchers(e.sent, e.slots, c)
  {
    var s := WithStatus(slots[c].value, b);
    var after := Put(slots, c, s);
    assert ListsNeedLogin(after);
    DescrRoundTells(after, c);
    ChangedStatusTells(after, c);
    assert s.state == LoginOk && s.uin == slots[c].value.uin && s.status == WithoutMask(WordAt(b, 0));
    hide WithStatus, DescrRound, ChangedStatus, OwnOnly, TellsWatchers, Tells, WithoutMask, WordAt, ListsNeedLogin;
    var d, t := DescrRound(after, c), ChangedStatus(after, c);
    var bye := if Leaving(s) then [Sent(s.fd, Packet(DISCONNECTING, []))] else [];
    var e := NewStatus(slots, c, b);
    assert e.sent == d + t + bye;
    OwnOnlyBoth(d, t, s);
    GoodbyeIsQuiet(bye, s);
    OwnOnlyBoth(d + t, bye, s);
    TellsWatchersAmong(d, t, bye, after, c);
    MarkingHides(after, c, e);
  }

  lemma GoodbyeIsQuiet(bye: seq<Sent>, s: Session)
    requires bye == [] || bye == [Sent(s.fd, Packet(DISCONNECTING, []))]
    ensures OwnOnly(bye, s)
  {}

  /** Marking c changes nothing of this. */
  lemma MarkingHides(after: Slots, c: nat, e: Effect)
    requires Live(after, c) && OwnOnly(e.sent, after[c].value) && TellsWatchers(e.sent, after, c)
    requires e.slots == after || e.slots == Put(after, c, after[c].value.(remove := true))
    ensures OwnOnly(e.sent, e.slots[c].value) && TellsWatchers(e.sent, e.slots, c)
  {
    hide Mentions, Tells;
  }

  lemma AddNotifyInforms(slots: Slots, c: nat, b: Octets)
    requires Unmarked(slots, c) && slots[c].value.state == LoginOk && |b| >= 5 && WordAt(b, 0) != 0
    ensures var e := AddNotify(slots, c, b);
            Live(e.slots, c) && Informs(slots, c, e, {WordAt(b, 0)})
  {
    hide LE32, WordAt;
    var uin := WordAt(b, 0);
    var s := slots[c].value.(friends := slots[c].value.friends + [Friend(uin, b[4])]);
    var after := Put(slots, c, s);
    var p := Packet(NOTIFY_REPLY, LE32(uin) + LE32(StatusOf(FindSession(after, uin))));
    TellsWords(p, uin, StatusOf(FindSession(after, uin)));
    var e := AddNotify(slots, c, b);
    assert e.sent == [Sent(s.fd, p)] && e.slots == after;
    hide Tells, FindSession, AddNotify, Uins, IsOwn, StatusOf;
    assert e.sent[0] == Sent(s.fd, p);
    AnswerKeeps(slots, c, s, s.fd, {uin}, e.sent[0]);
  }

  lemma LoginInforms(users: Table, slots: Slots, c: nat, b: Octets, size: nat, version: Option<u32>,
                     imageSize: Option<u8>)
    requires Unmarked(slots, c) && AllHealthy(users, slots) && InRange(users) && size >= 8
    ensures var e := HandleLogin(users, slots, c, b, size, version, imageSize);
            Live(e.slots, c) && Informs(slots, c, e, {})
  {
    hide HashAccepted, LoggedIn, WordAt, Informs;
    var e := HandleLogin(users, slots, c, b, size, version, imageSize);
    if size <= |b| && slots[c].value.state == Login
        && HashAccepted(users, WordAt(b, 0), slots[c].value.seed, WordAt(b, 4)) {
      AcceptedIsTaken(users, WordAt(b, 0), slots[c].value.seed, WordAt(b, 4));
      LoggedInInforms(slots, c, WordAt(b, 0), version, imageSize);
    } else {
      QuietInforms(slots, c, e);
    }
  }

  lemma Login70Informs(users: Table, slots: Slots, c: nat, b: Octets, env: Env)
    requires Unmarked(slots, c) && AllHealthy(users, slots) && InRange(users)
    ensures var e := Login70(users, slots, c, b, env);
            Live(e.slots, c) && Informs(slots, c, e, {})
  {
    hide HashAccepted, DigestAccepted, LoggedIn, WordAt, Informs;
    var e := Login70(users, slots, c, b, env);
    if LoginAccepted(users, slots[c].value, Packet(LOGIN70, b), env) {
      var uin, seed := WordAt(b, 0), slots[c].value.seed;
      if b[4] == HASH_GG32 {
        AcceptedIsTaken(users, uin, seed, env.hashAddress);
      } else {
        DigestIsTaken(users, uin, seed, b[5..69]);
      }
      LoggedInInforms(slots, c, uin, Some(WordAt(b, 73)), Some(b[90]));
    } else {
      QuietInforms(slots, c, e);
    }
  }

  lemma SendMessageIsQuiet(slots: Slots, c: nat, b: Octets, env: Env)
    requires Live(slots, c)
    ensures forall k :: 0 <= k < |SendMessage(slots, c, b, env).sent| ==>
            Tells(SendMessage(slots, c, b, env).sent[k].packet).None?
  {
    hide LE32, WordAt, FindSession;
  }

  /** The packets that tell nobody anything. */
  lemma QuietHandlers(users: Table, slots: Slots, c: nat, p: Packet, env: Env)
    requires Unmarked(slots, c)
    requires slots[c].value.state != LoginOk
          || p.kind !in {NOTIFY_LAST, NEW_STATUS, ADD_NOTIFY}
          || (p.kind == NEW_STATUS && |p.body| < 4)
          || (p.kind == ADD_NOTIFY && (|p.body| < 5 || WordAt(p.body, 0) == 0))
    requires p.kind !in {LOGIN31, LOGIN50, LOGIN60, LOGIN70}
    ensures var e := Handle(users, slots, c, p, env);
            Live(e.slots, c) && Informs(slots, c, e, {})
  {
    hide WordAt, Contacts, Without, SendMessage, Informs;
    var e := Handle(users, slots, c, p, env);
    SendMessageIsQuiet(slots, c, p.body, env);
    assert SendMessage(slots, c, p.body, env).slots == slots by { SendMessageKeepsSlots(slots, c, p.body, env); }
    QuietInforms(slots, c, e);
  }

  lemma SendMessageKeepsSlots(slots: Slots, c: nat, b: Octets, env: Env)
    requires Live(slots, c)
    ensures SendMessage(slots, c, b, env).slots == slots
  {
    hide LE32, WordAt, FindSession;
  }

  lemma LoginsInform(users: Table, slots: Slots, c: nat, p: Packet, env: Env)
    requires Unmarked(slots, c) && AllHealthy(users, slots) && InRange(users)
    requires p.kind in {LOGIN31, LOGIN50, LOGIN60, LOGIN70}
    ensures var e := Handle(users, slots, c, p, env);
            Live(e.slots, c) && Informs(slots, c, e, {})
  {
    hide HandleLogin, Login70, WordAt, Informs, AllHealthy, NotifyFirst, NotifyLast, NewStatus, AddNotify,
         RemoveNotify, UserlistRequest, SendMessage;
    var b := p.body;
    if p.kind == LOGIN31 {
      LoginInforms(users, slots, c, b, 12, None, None);
    } else if p.kind == LOGIN50 {
      LoginInforms(users, slots, c, b, 22, if |b| < 22 then None else Some(WordAt(b, 12)), None);
    } else if p.kind == LOGIN60 {
      LoginInforms(users, slots, c, b, 31, if |b| < 31 then None else Some(WordAt(b, 12)),
                   if |b| < 31 then None else Some(b[29]));
    } else {
      Login70Informs(users, slots, c, b, env);
    }
  }

  lemma Dispatch(users: Table, slots: Slots, c: nat, p: Packet, env: Env)
    requires Unmarked(slots, c)
    ensures p.kind == NOTIFY_LAST ==> Handle(users, slots, c, p, env) == NotifyLast(slots, c, p.body)
    ensures p.kind == NEW_STATUS ==> Handle(users, slots, c, p, env) == NewStatus(slots, c, p.body)
    ensures p.kind == ADD_NOTIFY ==> Handle(users, slots, c, p, env) == AddNotify(slots, c, p.body)
  {
    hide NotifyLast, NewStatus, AddNotify;
  }

  /** Every packet, on every reachable table. */
  lemma HandleInforms(users: Table, slots: Slots, c: nat, p: Packet, env: Env)
    requires Live(slots, c) && AllHealthy(users, slots) && InRange(users)
    ensures var e := Handle(users, slots, c, p, env);
            Live(e.slots, c) && Informs(slots, c, e, Asked(slots[c].value, p))
  {
    if slots[c].value.remove {
      MarkedInforms(users, slots, c, p, env);
    } else {
      Dispatch(users, slots, c, p, env);
      assert ListsNeedLogin(slots);
      hide Handle, Informs, AllHealthy, ListsNeedLogin, AddContacts, Uins, WordAt;
      if p.kind in {LOGIN31, LOGIN50, LOGIN60, LOGIN70} {
        LoginsInform(users, slots, c, p, env);
      } else if slots[c].value.state == LoginOk && p.kind == NOTIFY_LAST {
        NotifyLastInforms(slots, c, p.body);
      } else if slots[c].value.state == LoginOk && p.kind == NEW_STATUS && |p.body| >= 4 {
        NewStatusTells(slots, c, p.body);
        OwnInforms(slots, c, NewStatus(slots, c, p.body));
      } else if slots[c].value.state == LoginOk && p.kind == ADD_NOTIFY && |p.body| >= 5 && WordAt(p.body, 0) != 0 {
        AddNotifyInforms(slots, c, p.body);
      } else {
        QuietHandlers(users, slots, c, p, env);
      }
    }
  }

  lemma MarkedInforms(users: Table, slots: Slots, c: nat, p: Packet, env: Env)
    requires Live(slots, c) && slots[c].value.remove
    ensures var e := Handle(users, slots, c, p, env);
            Live(e.slots, c) && Informs(slots, c, e, Asked(slots[c].value, p))
  {
    hide Informs;
    QuietInforms(slots, c, Effect(slots, []));
  }

  // ---- presence over runs ----

  /** For each slot, the contacts its session has been answered about: set empty with a
      new session, filled by NOTIFY_LAST and ADD_NOTIFY, and cut to the contact list. */
  type Answered = a: seq<set<u32>> | |a| == MAX_CLIENTS witness seq(MAX_CLIENTS, _ => {})

  ghost function NextAnswered(s: Server, e: Event, a: Answered): Answered
    requires Enabled(s, e)
  {
    match e
    case Accept(_, _, _) =>
      var free := FreeSlot(s.slots, 0);
      if s.count < MAX_CLIENTS && free.Some? then a[free.value := {}] else a
    case Deliver(c, p, env) =>
      var after := Handle(s.users, s.slots, c, p, env).slots;
      if after[c].None? then a
      else a[c := (a[c] + Asked(s.slots[c].value, p)) * Uins(after[c].value.friends)]
    case Close(_) => a
    case SignUp(_, _) => a
  }

  ghost function AnsweredAt(ss: seq<Server>, es: seq<Event>, k: nat): Answered
    requires Run(ss, es) && k < |ss|
  {
    if k == 0 then seq(MAX_CLIENTS, _ => {})
    else
      assert Steps(ss[k - 1], es[k - 1], ss[k]);
      NextAnswered(ss[k - 1], es[k - 1], AnsweredAt(ss, es, k - 1))
  }

  ghost predicate Agrees(slots: Slots, wire: seq<Sent>, a: Answered, u: nat, w: nat)
    requires u < MAX_CLIENTS && w < MAX_CLIENTS
  {
    Known(slots, u) && Live(slots, w) && slots[u].value.uin in a[w] ==>
      LastTold(wire, slots[w].value.fd, slots[u].value.uin) == Some(slots[u].value.status)
  }

  ghost predicate AllAgree(slots: Slots, wire: seq<Sent>, a: Answered)
  {
    forall u, w :: 0 <= u < MAX_CLIENTS && 0 <= w < MAX_CLIENTS && u != w ==> Agrees(slots, wire, a, u, w)
  }

  ghost predicate AnsweredInList(slots: Slots, a: Answered)
  {
    forall w :: 0 <= w < MAX_CLIENTS && slots[w].Some? ==> a[w] <= Uins(slots[w].value.friends)
  }

  /** The status of u as connection fd may hear it while a packet of c is handled: c hears what
      client_find finds for the numbers it asked about, everyone else hears what is so. */
  ghost function Word(slots: Slots, c: nat, asked: set<u32>, after: Slots, u: nat, fd: nat): u32
    requires Live(slots, c) && Live(after, u)
  {
    if fd == slots[c].value.fd && u != c && after[u].value.uin in asked then
      StatusOf(FindSession(slots, after[u].value.uin))
    else after[u].value.status
  }

  /** No other session that is logged in has the number of c. */
  ghost predicate Sole(slots: Slots, c: nat)
    requires Live(slots, c)
  {
    forall u :: 0 <= u < MAX_CLIENTS && u != c && Known(slots, u) ==> slots[u].value.uin != slots[c].value.uin
  }

  lemma SaysTheWord(slots: Slots, c: nat, e: Effect, asked: set<u32>, u: nat, fd: nat)
    requires Live(slots, c) && Live(e.slots, c) && OnlyTells(slots, c, asked, e.sent, e.slots)
    requires Known(e.slots, u) && !(u == c && fd == slots[c].value.fd)
    requires Sole(e.slots, c) || e.sent == []
    ensures SaysTo(e.sent, fd, e.slots[u].value.uin, Word(slots, c, asked, e.slots, u, fd))
  {
    hide Tells, FindSession, StatusOf;
  }

  /** What w was last told about u after a packet of c. */
  lemma LastWord(users: Table, slots: Slots, c: nat, e: Effect, wire: seq<Sent>, a: Answered,
                 asked: set<u32>, u: nat, w: nat)
    requires u < MAX_CLIENTS && w < MAX_CLIENTS && u != w && FdsDistinct(slots)
    requires Live(slots, c) && Live(e.slots, c) && Tame(users, slots, c, e.slots) && Informs(slots, c, e, asked)
    requires Sole(e.slots, c) || e.sent == []
    requires AllAgree(slots, wire, a) && AnsweredInList(slots, a)
    requires Known(e.slots, u) && Live(e.slots, w)
    requires e.slots[u].value.uin in a[c := (a[c] + asked) * Uins(e.slots[c].value.friends)][w]
    ensures LastTold(wire + e.sent, e.slots[w].value.fd, e.slots[u].value.uin)
         == Some(Word(slots, c, asked, e.slots, u, e.slots[w].value.fd))
  {
    var after := e.slots;
    var x, fd := after[u].value.uin, after[w].value.fd;
    var v := Word(slots, c, asked, after, u, fd);
    assert slots[w].Some? && slots[w].value.fd == fd && slots[u].Some?;
    assert w != c ==> fd != slots[c].value.fd;
    SaysTheWord(slots, c, e, asked, u, fd);
    hide Mentions, SaysTo, OnlyTells, Uins, FindSession, LastTold, StatusOf, Sole, FdsDistinct;
    if w == c && x in asked {
      assert Mentions(e.sent, fd, x);
    } else if u == c && !SameToOthers(slots, after, c) {
      assert x in Uins(after[w].value.friends);
      assert Mentions(e.sent, fd, x);
    } else {
      assert Agrees(slots, wire, a, u, w);
    }
    LastToldAfter(wire, e.sent, fd, x, v);
  }

  /** After a packet of c, and if it is no unsafe login, c is the only one with its number, or
      nothing is told. */
  lemma SoleAfter(s: Server, e: Event)
    requires Inv(s) && OnePerUin(s.slots) && Enabled(s, e) && e.Deliver? && SafeLogin(s, e)
    ensures var h := Handle(s.users, s.slots, e.c, e.packet, e.env);
            Live(h.slots, e.c) && (Sole(h.slots, e.c) || h.sent == [])
  {
    HandleSplits(s.users, s.slots, e.c, e.packet, e.env);
    MarkedIsIgnored(s.users, s.slots, e.c, e.packet, e.env);
    hide Handle, LoginAccepted, WordAt, Find;
    var after := Handle(s.users, s.slots, e.c, e.packet, e.env).slots;
    if !s.slots[e.c].value.remove {
      forall u | 0 <= u < MAX_CLIENTS && u != e.c && Known(after, u)
        ensures after[u].value.uin != after[e.c].value.uin
      {
        assert Unmarked(s.slots, u) && after[u] == s.slots[u] && s.slots[u].value.uin != 0;
      }
    }
  }

  /** Of every logged-in contact that c asks about, client_find finds the status it has. This
      looks at nothing but the table before the packet. */
  ghost predicate TellsRight(slots: Slots, c: nat, p: Packet)
    requires Live(slots, c)
  {
    forall u :: 0 <= u < MAX_CLIENTS && u != c && Known(slots, u) && slots[u].value.uin in Asked(slots[c].value, p) ==>
      StatusOf(FindSession(slots, slots[u].value.uin)) == slots[u].value.status
  }

  ghost predicate TellsRightAt(s: Server, e: Event)
    requires Enabled(s, e)
  {
    e.Deliver? ==> TellsRight(s.slots, e.c, e.packet)
  }

  /** What a run keeps as long as it agrees. */
  ghost predicate Agreed(s: Server, a: Answered)
  {
    Inv(s) && OnePerUin(s.slots) && AllAgree(s.slots, s.wire, a) && AnsweredInList(s.slots, a)
  }

  /** A session that is logged in after a packet of another was so before, with the same status. */
  lemma OthersKnown(users: Table, slots: Slots, c: nat, after: Slots, u: nat)
    requires Live(slots, c) && Tame(users, slots, c, after) && u < MAX_CLIENTS && u != c && Known(after, u)
    ensures Known(slots, u) && after[u] == slots[u]
  {}

  lemma AgreesIfRight(users: Table, slots: Slots, c: nat, p: Packet, e: Effect, wire: seq<Sent>, a: Answered)
    requires Live(slots, c) && Live(e.slots, c) && Tame(users, slots, c, e.slots) && FdsDistinct(slots)
    requires Informs(slots, c, e, Asked(slots[c].value, p)) && (Sole(e.slots, c) || e.sent == [])
    requires AllAgree(slots, wire, a) && AnsweredInList(slots, a) && TellsRight(slots, c, p)
    ensures AllAgree(e.slots, wire + e.sent,
                     a[c := (a[c] + Asked(slots[c].value, p)) * Uins(e.slots[c].value.friends)])
  {
    hide Tame, Informs, Asked, Uins, FindSession, StatusOf, LastTold, AnsweredInList, FdsDistinct, AllAgree, Sole;
    var asked := Asked(slots[c].value, p);
    var a': Answered := a[c := (a[c] + asked) * Uins(e.slots[c].value.friends)];
    forall u, w | 0 <= u < MAX_CLIENTS && 0 <= w < MAX_CLIENTS && u != w
      ensures Agrees(e.slots, wire + e.sent, a', u, w)
    {
      if Known(e.slots, u) && Live(e.slots, w) && e.slots[u].value.uin in a'[w] {
        LastWord(users, slots, c, e, wire, a, asked, u, w);
        if u != c {
          OthersKnown(users, slots, c, e.slots, u);
        }
      }
    }
    AllAgreeIs(e.slots, wire + e.sent, a');
  }

  lemma AllAgreeIs(slots: Slots, wire: seq<Sent>, a: Answered)
    requires forall u, w :: 0 <= u < MAX_CLIENTS && 0 <= w < MAX_CLIENTS && u != w ==> Agrees(slots, wire, a, u, w)
    ensures AllAgree(slots, wire, a)
  {
    hide Agrees;
  }

  /** Whoever asks is a session of which the packet changes nothing but the list, and has what
      it asks about on the list. */
  lemma AskedOnList(users: Table, slots: Slots, c: nat, p: Packet, env: Env)
    requires Live(slots, c) && Asked(slots[c].value, p) != {}
    ensures var after := Handle(users, slots, c, p, env).slots;
            && Live(after, c) && after[c].value.fd == slots[c].value.fd
            && Asked(slots[c].value, p) <= Uins(after[c].value.friends)
            && (forall u :: 0 <= u < MAX_CLIENTS && u != c ==> after[u] == slots[u])
  {
    Dispatch(users, slots, c, p, env);
    hide Handle, WordAt, Contacts, Replies, Announce, ChangedStatus, FindSession, LE32;
    if p.kind == ADD_NOTIFY {
      AppendedOnList(slots[c].value.friends, Friend(WordAt(p.body, 0), p.body[4]));
    }
  }

  lemma AppendedOnList(friends: seq<Friend>, f: Friend)
    ensures f.uin in Uins(friends + [f])
  {
    assert (friends + [f])[|friends|] == f;
  }

  lemma RightIfAgrees(s: Server, e: Event, a: Answered)
    requires Agreed(s, a) && Enabled(s, e) && e.Deliver? && SafeLogin(s, e)
    requires AllAgree(Next(s, e).slots, Next(s, e).wire, NextAnswered(s, e, a))
    ensures TellsRight(s.slots, e.c, e.packet)
  {
    var slots, c, asked := s.slots, e.c, Asked(s.slots[e.c].value, e.packet);
    hide Asked, LoginAccepted, FindsUnmarked, OnePerUin, Uins, StatusOf, FindSession, WordAt, AllHealthy, Sole,
         SafeLogin;
    SoleAfter(s, e);
    HandleIsTame(s.users, slots, c, e.packet, e.env);
    HandleInforms(s.users, slots, c, e.packet, e.env);
    var h := Handle(s.users, slots, c, e.packet, e.env);
    if asked != {} {
      AskedOnList(s.users, slots, c, e.packet, e.env);
      hide Handle, Informs, Tame, LastTold;
      forall u | 0 <= u < MAX_CLIENTS && u != c && Known(slots, u) && slots[u].value.uin in asked
        ensures StatusOf(FindSession(slots, slots[u].value.uin)) == slots[u].value.status
      {
        LastWord(s.users, slots, c, h, s.wire, a, asked, u, c);
        assert Agrees(h.slots, s.wire + h.sent, NextAnswered(s, e, a), u, c);
      }
    }
  }

  lemma DeliverPresenceIff(s: Server, e: Event, a: Answered)
    requires Agreed(s, a) && Enabled(s, e) && e.Deliver? && SafeLogin(s, e)
    ensures AllAgree(Next(s, e).slots, Next(s, e).wire, NextAnswered(s, e, a)) <==> TellsRightAt(s, e)
  {
    hide Handle, LoginAccepted, FindsUnmarked, Informs, Tame, AllAgree, AnsweredInList, Asked, OnePerUin, WordAt,
         TellsRight, Uins, Sole, SafeLogin;
    if TellsRight(s.slots, e.c, e.packet) {
      SoleAfter(s, e);
      HandleIsTame(s.users, s.slots, e.c, e.packet, e.env);
      HandleInforms(s.users, s.slots, e.c, e.packet, e.env);
      var h := Handle(s.users, s.slots, e.c, e.packet, e.env);
      AgreesIfRight(s.users, s.slots, e.c, e.packet, h, s.wire, a);
    }
    if AllAgree(Next(s, e).slots, Next(s, e).wire, NextAnswered(s, e, a)) {
      RightIfAgrees(s, e, a);
    }
  }

  lemma DeliverKeepsAnswered(s: Server, e: Event, a: Answered)
    requires Inv(s) && AnsweredInList(s.slots, a) && Enabled(s, e) && e.Deliver?
    ensures AnsweredInList(Next(s, e).slots, NextAnswered(s, e, a))
  {
    HandleIsTame(s.users, s.slots, e.c, e.packet, e.env);
    hide Handle, Asked, Uins;
  }

  lemma WelcomeTellsNothing(wire: seq<Sent>, fd: nat, seed: u32, to: nat, uin: u32)
    ensures LastTold(wire + [Sent(fd, Packet(WELCOME, LE32(seed)))], to, uin) == LastTold(wire, to, uin)
  {
    hide LE32;
    var w := [Sent(fd, Packet(WELCOME, LE32(seed)))];
    assert (wire + w)[..|wire + w| - 1] == wire;
  }

  lemma AcceptKeepsAnswered(s: Server, e: Event, a: Answered)
    requires AnsweredInList(s.slots, a) && Enabled(s, e) && e.Accept?
    ensures AnsweredInList(Next(s, e).slots, NextAnswered(s, e, a))
  {
    hide FreeSlot, Uins;
  }

  lemma AcceptAgrees(s: Server, e: Event, a: Answered, u: nat, w: nat)
    requires Agreed(s, a) && Enabled(s, e) && e.Accept? && u < MAX_CLIENTS && w < MAX_CLIENTS && u != w
    ensures Agrees(Next(s, e).slots, Next(s, e).wire, NextAnswered(s, e, a), u, w)
  {
    hide Inv, LastTold, AnsweredInList, OnePerUin, FreeSlot;
    assert Agrees(s.slots, s.wire, a, u, w);
    var t := Next(s, e);
    if s.count < MAX_CLIENTS && Live(t.slots, w) && Live(t.slots, u) {
      WelcomeTellsNothing(s.wire, e.fd, e.seed, t.slots[w].value.fd, t.slots[u].value.uin);
    }
  }

  lemma AcceptAgreed(s: Server, e: Event, a: Answered)
    requires Agreed(s, a) && Enabled(s, e) && e.Accept?
    ensures AllAgree(Next(s, e).slots, Next(s, e).wire, NextAnswered(s, e, a))
  {
    hide Inv, Next, NextAnswered, Agrees, AnsweredInList, OnePerUin;
    forall u, w | 0 <= u < MAX_CLIENTS && 0 <= w < MAX_CLIENTS && u != w
      ensures Agrees(Next(s, e).slots, Next(s, e).wire, NextAnswered(s, e, a), u, w)
    {
      AcceptAgrees(s, e, a, u, w);
    }
  }

  lemma CloseKeepsAnswered(s: Server, e: Event, a: Answered)
    requires AnsweredInList(s.slots, a) && Enabled(s, e) && e.Close?
    ensures AnsweredInList(Next(s, e).slots, a)
  {
    hide Uins;
  }

  lemma CloseAgrees(s: Server, e: Event, a: Answered, u: nat, w: nat)
    requires u < MAX_CLIENTS && w < MAX_CLIENTS && Agrees(s.slots, s.wire, a, u, w) && e.Close? && e.c < MAX_CLIENTS
    ensures Agrees(Next(s, e).slots, Next(s, e).wire, a, u, w)
  {
    hide LastTold;
  }

  lemma CloseAgreed(s: Server, e: Event, a: Answered)
    requires Agreed(s, a) && Enabled(s, e) && e.Close?
    ensures AllAgree(Next(s, e).slots, Next(s, e).wire, NextAnswered(s, e, a))
  {
    hide Inv, Next, Agrees, AnsweredInList, OnePerUin;
    forall u, w | 0 <= u < MAX_CLIENTS && 0 <= w < MAX_CLIENTS && u != w
      ensures Agrees(Next(s, e).slots, Next(s, e).wire, a, u, w)
    {
      CloseAgrees(s, e, a, u, w);
    }
  }

  /** While all agrees and no login goes wrong, the next state agrees iff the event tells right. */
  lemma StepPresenceIff(s: Server, e: Event, a: Answered)
    requires Agreed(s, a) && Enabled(s, e) && SafeLogin(s, e)
    ensures AllAgree(Next(s, e).slots, Next(s, e).wire, NextAnswered(s, e, a)) <==> TellsRightAt(s, e)
  {
    match e
    case Accept(_, _, _) => AcceptAgreed(s, e, a);
    case Deliver(_, _, _) => DeliverPresenceIff(s, e, a);
    case Close(_) => CloseAgreed(s, e, a);
    case SignUp(_, _) =>
  }

  lemma StepKeepsAnswered(s: Server, e: Event, a: Answered)
    requires Inv(s) && AnsweredInList(s.slots, a) && Enabled(s, e)
    ensures AnsweredInList(Next(s, e).slots, NextAnswered(s, e, a))
  {
    match e
    case Accept(_, _, _) => AcceptKeepsAnswered(s, e, a);
    case Deliver(_, _, _) => DeliverKeepsAnswered(s, e, a);
    case Close(_) => CloseKeepsAnswered(s, e, a);
    case SignUp(_, _) =>
  }

  lemma {:induction false} RunKeepsAnswered(ss: seq<Server>, es: seq<Event>, k: nat)
    requires Run(ss, es) && k < |ss|
    ensures AnsweredInList(ss[k].slots, AnsweredAt(ss, es, k))
  {
    hide AnsweredInList, Next, NextAnswered, Enabled, Inv;
    if k == 0 {
      InitialAgrees(ss[0]);
    } else {
      RunKeepsAnswered(ss, es, k - 1);
      Reachable(ss, es, k - 1);
      assert Steps(ss[k - 1], es[k - 1], ss[k]);
      StepKeepsAnswered(ss[k - 1], es[k - 1], AnsweredAt(ss, es, k - 1));
    }
  }

  lemma InitialAgrees(s: Server)
    requires Initial(s)
    ensures OnePerUin(s.slots)
    ensures AllAgree(s.slots, s.wire, seq(MAX_CLIENTS, _ => {})) && AnsweredInList(s.slots, seq(MAX_CLIENTS, _ => {}))
  {}

  /** In state k no two unmarked sessions share a number, and every session was last told the
      current status of each logged-in contact it was answered about. */
  ghost predicate AgreesAt(ss: seq<Server>, es: seq<Event>, k: nat)
    requires Run(ss, es) && k < |ss|
  {
    OnePerUin(ss[k].slots) && AllAgree(ss[k].slots, ss[k].wire, AnsweredAt(ss, es, k))
  }

  /** The first k events are safe logins or none, and tell right. */
  ghost predicate RightUpTo(ss: seq<Server>, es: seq<Event>, k: nat)
    requires Run(ss, es) && k <= |es|
  {
    forall n :: 0 <= n < k ==> Steps(ss[n], es[n], ss[n + 1]) && SafeLogin(ss[n], es[n]) && TellsRightAt(ss[n], es[n])
  }

  /** Presence over a run, exactly: everything agrees in every state up to k iff every login
      before k is safe and every answer before k is right. */
  lemma {:induction false} RunPresenceIff(ss: seq<Server>, es: seq<Event>, k: nat)
    requires Run(ss, es) && k <= |es|
    ensures (forall n :: 0 <= n <= k ==> AgreesAt(ss, es, n)) <==> RightUpTo(ss, es, k)
  {
    hide OnePerUin, AllAgree, AnsweredInList, Next, NextAnswered, Enabled, Inv, SafeLogin, TellsRightAt;
    if k == 0 {
      InitialAgrees(ss[0]);
      assert AgreesAt(ss, es, 0);
    } else {
      var s, e, a := ss[k - 1], es[k - 1], AnsweredAt(ss, es, k - 1);
      RunPresenceIff(ss, es, k - 1);
      assert Steps(s, e, ss[k]);
      if AgreesAt(ss, es, k - 1) {
        Reachable(ss, es, k - 1);
        RunKeepsAnswered(ss, es, k - 1);
        StepUniqueIff(s, e);
        if SafeLogin(s, e) {
          StepPresenceIff(s, e, a);
        }
        assert AgreesAt(ss, es, k) <==> SafeLogin(s, e) && TellsRightAt(s, e);
      }
      assert RightUpTo(ss, es, k) <==> RightUpTo(ss, es, k - 1) && SafeLogin(s, e) && TellsRightAt(s, e);
    }
  }

  /** Reap-first runs are right. */
  lemma ReapFirstIsRight(ss: seq<Server>, es: seq<Event>)
    requires ReapFirstRun(ss, es)
    ensures RightUpTo(ss, es, |es|)
  {
    hide TellsRightAt, SafeLogin, Inv, Next, Enabled, OnePerUin, ReapFirst;
    forall k | 0 <= k < |es|
      ensures Steps(ss[k], es[k], ss[k + 1]) && SafeLogin(ss[k], es[k]) && TellsRightAt(ss[k], es[k])
    {
      assert Steps(ss[k], es[k], ss[k + 1]);
      Reachable(ss, es, k);
      ReapFirstUnique(ss, es, k);
      ReapFirstIsSafe(ss[k], es[k]);
      ReapFirstTellsRight(ss[k], es[k]);
    }
  }

  lemma ReapFirstTellsRight(s: Server, e: Event)
    requires Inv(s) && Enabled(s, e) && ReapFirst(s, e) && OnePerUin(s.slots)
    ensures TellsRightAt(s, e)
  {
    hide OnePerUin, Asked, Find;
    if e.Deliver? {
      forall u | 0 <= u < MAX_CLIENTS && Known(s.slots, u)
        ensures FindSession(s.slots, s.slots[u].value.uin) == s.slots[u]
      {
        assert s.slots[u].value.uin != 0;
        NoneMarkedFinds(s.slots, s.slots[u].value.uin);
      }
    }
  }

  /** Presence agreement. As long as every login was safe and every answer right: what a session
      w was last told about a contact it got an answer for is the current status of that contact,
      as long as the contact is logged in. */
  lemma PresenceAgreement(ss: seq<Server>, es: seq<Event>, k: nat, u: nat, w: nat)
    requires Run(ss, es) && k <= |es| && RightUpTo(ss, es, k) && u != w
    requires Known(ss[k].slots, u) && Live(ss[k].slots, w)
    requires ss[k].slots[u].value.uin in AnsweredAt(ss, es, k)[w]
    ensures LastTold(ss[k].wire, ss[k].slots[w].value.fd, ss[k].slots[u].value.uin) == Some(ss[k].slots[u].value.status)
  {
    RunPresenceIff(ss, es, k);
    assert AgreesAt(ss, es, k);
    hide Run, RightUpTo, OnePerUin;
    assert Agrees(ss[k].slots, ss[k].wire, AnsweredAt(ss, es, k), u, w);
  }

  // ---- presence without the history variable ----

  ghost predicate OnList(slots: Slots, w: nat, uin: u32)
  {
    Live(slots, w) && uin in Uins(slots[w].value.friends)
  }

  /** Session w asks about uin: with the last part of its list, or by adding the contact. */
  ghost predicate AsksAbout(s: Server, e: Event, w: nat, uin: u32)
  {
    && e.Deliver? && e.c == w && Known(s.slots, w)
    && (e.packet.kind == NOTIFY_LAST
        || (e.packet.kind == ADD_NOTIFY && |e.packet.body| >= 5 && WordAt(e.packet.body, 0) == uin != 0))
  }

  lemma AskedIsAnswered(s: Server, e: Event, a: Answered, w: nat, uin: u32)
    requires Enabled(s, e) && AsksAbout(s, e, w, uin) && OnList(Next(s, e).slots, w, uin)
    ensures uin in NextAnswered(s, e, a)[w]
  {
    ListedIsAsked(s.users, s.slots, w, e.packet, e.env, uin);
    hide Handle, Uins, WordAt, Asked;
  }

  lemma ListedIsAsked(users: Table, slots: Slots, w: nat, p: Packet, env: Env, uin: u32)
    requires Known(slots, w) && OnList(Handle(users, slots, w, p, env).slots, w, uin)
    requires p.kind == NOTIFY_LAST || (p.kind == ADD_NOTIFY && |p.body| >= 5 && WordAt(p.body, 0) == uin != 0)
    ensures uin in Asked(slots[w].value, p)
  {
    Dispatch(users, slots, w, p, env);
    hide Handle, Uins, WordAt, AddContacts, Replies, Announce, ChangedStatus, AddNotify;
  }

  lemma StaysAnswered(s: Server, e: Event, a: Answered, w: nat, uin: u32)
    requires Enabled(s, e) && Live(s.slots, w) && uin in a[w] && OnList(Next(s, e).slots, w, uin)
    ensures uin in NextAnswered(s, e, a)[w]
  {
    hide Handle, Uins;
  }

  lemma {:induction false} AnsweredSince(ss: seq<Server>, es: seq<Event>, j: nat, k: nat, w: nat, uin: u32)
    requires Run(ss, es) && j < k < |ss| && AsksAbout(ss[j], es[j], w, uin)
    requires forall n :: j < n <= k ==> OnList(ss[n].slots, w, uin)
    ensures uin in AnsweredAt(ss, es, k)[w]
    decreases k
  {
    hide AsksAbout, NextAnswered, Next, Uins;
    var a := AnsweredAt(ss, es, k - 1);
    assert Steps(ss[k - 1], es[k - 1], ss[k]);
    assert OnList(ss[k].slots, w, uin);
    if j + 1 == k {
      AskedIsAnswered(ss[j], es[j], a, w, uin);
    } else {
      AnsweredSince(ss, es, j, k - 1, w, uin);
      assert OnList(ss[k - 1].slots, w, uin);
      StaysAnswered(ss[k - 1], es[k - 1], a, w, uin);
    }
  }

  /** Presence agreement from the outside, on such runs: once w has asked about a number, and as
      long as it keeps the number on its list, the last status it was told for the number is the
      current one of the logged-in session with that number. */
  lemma PresenceSinceAsked(ss: seq<Server>, es: seq<Event>, j: nat, k: nat, u: nat, w: nat, uin: u32)
    requires Run(ss, es) && j < k < |ss| && RightUpTo(ss, es, k) && AsksAbout(ss[j], es[j], w, uin)
    requires forall n :: j < n <= k ==> OnList(ss[n].slots, w, uin)
    requires Known(ss[k].slots, u) && ss[k].slots[u].value.uin == uin && u != w
    ensures Live(ss[k].slots, w)
         && LastTold(ss[k].wire, ss[k].slots[w].value.fd, uin) == Some(ss[k].slots[u].value.status)
  {
    hide AsksAbout, LastTold, RightUpTo;
    AnsweredSince(ss, es, j, k, w, uin);
    assert OnList(ss[k].slots, w, uin);
    PresenceAgreement(ss, es, k, u, w);
  }

  // ---- a change of status, under any schedule ----

  /** Right after a session changed its status, whoever has it on the list was last told
      this status; also when it is a goodbye and the session is marked, and whatever other
      sessions are marked. */
  lemma StatusChangeIsTold(ss: seq<Server>, es: seq<Event>, k: nat, w: nat)
    requires Run(ss, es) && k < |es| && es[k].Deliver? && es[k].packet.kind == NEW_STATUS && |es[k].packet.body| >= 4
    requires w != es[k].c && Known(ss[k].slots, es[k].c)
    requires OnList(ss[k + 1].slots, w, ss[k].slots[es[k].c].value.uin)
    ensures LastTold(ss[k + 1].wire, ss[k + 1].slots[w].value.fd, ss[k].slots[es[k].c].value.uin)
         == Some(WithoutMask(WordAt(es[k].packet.body, 0)))
  {
    var s, e := ss[k], es[k];
    assert Steps(s, e, ss[k + 1]);
    Reachable(ss, es, k);
    NewStatusTells(s.slots, e.c, e.packet.body);
    Dispatch(s.users, s.slots, e.c, e.packet, e.env);
    hide Handle, NewStatus, Mentions, Uins, LastTold, WithoutMask, WordAt, Tells;
    var n := NewStatus(s.slots, e.c, e.packet.body);
    assert ss[k + 1].slots == n.slots && ss[k + 1].wire == s.wire + n.sent;
    LastToldAfter(s.wire, n.sent, ss[k + 1].slots[w].value.fd, s.slots[e.c].value.uin,
                  WithoutMask(WordAt(e.packet.body, 0)));
  }
}

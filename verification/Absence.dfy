/** What watchers know about contacts that are not logged in. */
module Absence {
  import opened Wire
  import opened Options
  import opened Users
  import opened Sessions
  import opened Lifecycle
  import opened Numbers
  import opened Presence

  predicate Away(t: Option<u32>)
  {
    t == Some(STATUS_NOT_AVAIL) || t == Some(STATUS_NOT_AVAIL_DESCR)
  }

  /** Nobody is logged in as x. */
  ghost predicate Gone(slots: Slots, x: u32)
  {
    forall u :: 0 <= u < MAX_CLIENTS && Known(slots, u) ==> slots[u].value.uin != x
  }

  ghost predicate KnowsGone(slots: Slots, wire: seq<Sent>, a: Answered, w: nat, x: u32)
    requires w < MAX_CLIENTS
  {
    Live(slots, w) && x in a[w] && x != slots[w].value.uin && Gone(slots, x) ==>
      Away(LastTold(wire, slots[w].value.fd, x))
  }

  ghost predicate AllKnowGone(slots: Slots, wire: seq<Sent>, a: Answered)
  {
    forall w, x :: 0 <= w < MAX_CLIENTS ==> KnowsGone(slots, wire, a, w, x)
  }

  /** Of every contact that c asks about and that nobody is logged in as, client_find finds no
      session, or one that has left. */
  ghost predicate AnswersGone(slots: Slots, c: nat, p: Packet)
    requires Live(slots, c)
  {
    forall x :: x in Asked(slots[c].value, p) && x != slots[c].value.uin && Gone(slots, x) ==>
      Away(Some(StatusOf(FindSession(slots, x))))
  }

  /** If slot c is logged in, no other session got an answer about it. */
  ghost predicate DropsNobody(slots: Slots, c: nat, a: Answered)
  {
    Known(slots, c) ==>
      forall w :: 0 <= w < MAX_CLIENTS && w != c && Live(slots, w) && slots[c].value.uin in a[w] ==>
        slots[w].value.uin == slots[c].value.uin
  }

  ghost predicate TellsGoneAt(s: Server, e: Event, a: Answered)
    requires Enabled(s, e)
  {
    match e
    case Accept(_, _, _) => true
    case Deliver(c, p, _) => AnswersGone(s.slots, c, p)
    case Close(c) => DropsNobody(s.slots, c, a)
    case SignUp(_, _) => true
  }

  // ---- a packet ----

  /** Whoever asks about another number hears what client_find finds. */
  lemma AskerHears(users: Table, slots: Slots, c: nat, p: Packet, env: Env, wire: seq<Sent>, x: u32)
    requires Live(slots, c) && AllHealthy(users, slots) && InRange(users)
    requires x in Asked(slots[c].value, p) && x != slots[c].value.uin
    ensures LastTold(wire + Handle(users, slots, c, p, env).sent, slots[c].value.fd, x)
         == Some(StatusOf(FindSession(slots, x)))
  {
    hide Handle, Uins, WordAt, AllHealthy, FindSession, StatusOf, LastTold, Mentions, Tells;
    HandleInforms(users, slots, c, p, env);
    AskedOnList(users, slots, c, p, env);
    AskerKeepsNumber(users, slots, c, p, env);
    var h := Handle(users, slots, c, p, env);
    hide Asked;
    assert SaysTo(h.sent, slots[c].value.fd, x, StatusOf(FindSession(slots, x)));
    assert Mentions(h.sent, slots[c].value.fd, x);
    LastToldAfter(wire, h.sent, slots[c].value.fd, x, StatusOf(FindSession(slots, x)));
  }

  lemma AskerLeavesGone(users: Table, slots: Slots, c: nat, p: Packet, env: Env, x: u32)
    requires Live(slots, c) && Asked(slots[c].value, p) != {} && x != slots[c].value.uin && Gone(slots, x)
    ensures Gone(Handle(users, slots, c, p, env).slots, x)
  {
    AskedOnList(users, slots, c, p, env);
    AskerKeepsNumber(users, slots, c, p, env);
    hide Handle, Asked, Uins;
    var after := Handle(users, slots, c, p, env).slots;
    forall u | 0 <= u < MAX_CLIENTS && Known(after, u) ensures after[u].value.uin != x {
      assert u != c ==> Known(slots, u);
    }
  }

  lemma AskerKeepsNumber(users: Table, slots: Slots, c: nat, p: Packet, env: Env)
    requires Live(slots, c) && Asked(slots[c].value, p) != {}
    ensures var after := Handle(users, slots, c, p, env).slots;
            Live(after, c) && after[c].value.uin == slots[c].value.uin
  {
    MarkedIsIgnored(users, slots, c, p, env);
    Dispatch(users, slots, c, p, env);
    hide Handle, WordAt, Contacts, Replies, Announce, ChangedStatus, FindSession, LE32;
  }

  /** A logged-in session is only marked by its own packet when it leaves. */
  lemma LeavesByStatus(users: Table, slots: Slots, c: nat, p: Packet, env: Env)
    requires Known(slots, c)
    ensures var after := Handle(users, slots, c, p, env).slots;
            && Live(after, c)
            && (after[c].value.remove ==>
                 p.kind == NEW_STATUS && |p.body| >= 4 && Leaving(after[c].value))
  {
    hide WordAt, Contacts, Without, HashAccepted, DigestAccepted, LoggedIn, FindSession, Replies, Announce,
         ChangedStatus, DescrRound, SendMessage;
    SendMessageKeepsSlots(slots, c, p.body, env);
  }

  /** When c leaves, everyone who has it on the list is told so. */
  lemma LeaverTells(users: Table, slots: Slots, c: nat, p: Packet, env: Env, wire: seq<Sent>, w: nat)
    requires Known(slots, c) && AllHealthy(users, slots) && w != c
    requires var after := Handle(users, slots, c, p, env).slots;
             Live(after, c) && after[c].value.remove && OnList(after, w, slots[c].value.uin)
    ensures var h := Handle(users, slots, c, p, env);
            Away(LastTold(wire + h.sent, h.slots[w].value.fd, slots[c].value.uin))
  {
    LeavesByStatus(users, slots, c, p, env);
    Dispatch(users, slots, c, p, env);
    hide Handle, NewStatus, AllHealthy, LastTold, WordAt;
    LoggedInLists(users, slots);
    StatusLeaverTells(slots, c, p.body, wire, w);
  }

  lemma LoggedInLists(users: Table, slots: Slots)
    requires AllHealthy(users, slots)
    ensures ListsNeedLogin(slots)
  {}

  lemma StatusLeaverTells(slots: Slots, c: nat, b: Octets, wire: seq<Sent>, w: nat)
    requires Known(slots, c) && ListsNeedLogin(slots) && w != c && |b| >= 4
    requires var after := NewStatus(slots, c, b).slots;
             Leaving(slots[c].value.(status := WithoutMask(WordAt(b, 0)))) && OnList(after, w, slots[c].value.uin)
    ensures var h := NewStatus(slots, c, b);
            Away(LastTold(wire + h.sent, h.slots[w].value.fd, slots[c].value.uin))
  {
    NewStatusTells(slots, c, b);
    hide NewStatus, Uins, LastTold, WithoutMask, WordAt, Tells, Mentions, ListsNeedLogin;
    var h, x := NewStatus(slots, c, b), slots[c].value.uin;
    assert Mentions(h.sent, h.slots[w].value.fd, x);
    LastToldAfter(wire, h.sent, h.slots[w].value.fd, x, h.slots[c].value.status);
  }

  /** Otherwise nothing is said about x to w, and nobody was logged in as x before. */
  lemma GoneBefore(users: Table, slots: Slots, c: nat, p: Packet, env: Env, x: u32)
    requires Live(slots, c) && AllHealthy(users, slots) && InRange(users)
    requires var after := Handle(users, slots, c, p, env).slots;
             Live(after, c) && Gone(after, x) && !(after[c].value.state == LoginOk && after[c].value.uin == x)
    ensures Gone(slots, x)
  {
    HandleSplits(users, slots, c, p, env);
    HandleIsTame(users, slots, c, p, env);
    hide Handle, LoginAccepted, WordAt, Find;
    var after := Handle(users, slots, c, p, env).slots;
    forall u | 0 <= u < MAX_CLIENTS && Known(slots, u) ensures slots[u].value.uin != x {
    }
  }

  lemma NothingSaid(slots: Slots, c: nat, asked: set<u32>, e: Effect, wire: seq<Sent>, fd: nat, x: u32)
    requires Live(slots, c) && Live(e.slots, c) && OnlyTells(slots, c, asked, e.sent, e.slots)
    requires !(e.slots[c].value.state == LoginOk && e.slots[c].value.uin == x)
    requires fd != slots[c].value.fd || x !in asked
    requires Away(LastTold(wire, fd, x))
    ensures Away(LastTold(wire + e.sent, fd, x))
  {
    hide Tells, FindSession, StatusOf, LastTold;
    var v := LastTold(wire, fd, x).value;
    assert SaysTo(e.sent, fd, x, v);
    LastToldAfter(wire, e.sent, fd, x, v);
  }

  lemma DeliverKnowsGone(s: Server, e: Event, a: Answered, w: nat, x: u32)
    requires Inv(s) && Enabled(s, e) && e.Deliver? && Unmarked(s.slots, e.c) && w < MAX_CLIENTS
    requires AnsweredInList(s.slots, a) && AllKnowGone(s.slots, s.wire, a) && AnswersGone(s.slots, e.c, e.packet)
    ensures KnowsGone(Next(s, e).slots, Next(s, e).wire, NextAnswered(s, e, a), w, x)
  {
    var slots, c := s.slots, e.c;
    var h, asked := Handle(s.users, slots, c, e.packet, e.env), Asked(slots[c].value, e.packet);
    HandleIsTame(s.users, slots, c, e.packet, e.env);
    HandleInforms(s.users, slots, c, e.packet, e.env);
    hide Handle, Asked, Uins, LastTold, OnlyTells, Answers, TellsWatchers, SameToOthers, AnsweredInList, AllKnowGone,
         Gone, AllHealthy, Away, StatusOf, FindSession;
    if Live(h.slots, w) && x in NextAnswered(s, e, a)[w] && x != h.slots[w].value.uin && Gone(h.slots, x) {
      if w == c && x in asked {
        AskerKeepsNumber(s.users, slots, c, e.packet, e.env);
        AskerHears(s.users, slots, c, e.packet, e.env, s.wire, x);
        GoneBefore(s.users, slots, c, e.packet, e.env, x);
      } else if h.slots[c].value.state == LoginOk && h.slots[c].value.uin == x {
        LeaverIsGone(s, e, x);
        OnListStill(s, e, a, w, x);
        LeaverTells(s.users, slots, c, e.packet, e.env, s.wire, w);
      } else {
        GoneBefore(s.users, slots, c, e.packet, e.env, x);
        NotItself(s, e, a, w, x);
        assert KnowsGone(slots, s.wire, a, w, x) by { KnowsGoneAt(slots, s.wire, a, w, x); }
        NothingSaid(slots, c, asked, h, s.wire, slots[w].value.fd, x);
      }
    }
  }

  lemma MarkedKnowsGone(s: Server, e: Event, a: Answered, w: nat, x: u32)
    requires Enabled(s, e) && e.Deliver? && !Unmarked(s.slots, e.c) && w < MAX_CLIENTS
    requires KnowsGone(s.slots, s.wire, a, w, x)
    ensures KnowsGone(Next(s, e).slots, Next(s, e).wire, NextAnswered(s, e, a), w, x)
  {
    MarkedIsIgnored(s.users, s.slots, e.c, e.packet, e.env);
    hide Handle, Uins, LastTold, Gone, Away;
    assert Asked(s.slots[e.c].value, e.packet) == {};
    assert s.wire + [] == s.wire;
  }

  lemma AnswersGoneIfKnown(s: Server, e: Event, a: Answered)
    requires Inv(s) && Enabled(s, e) && e.Deliver?
    requires AllKnowGone(Next(s, e).slots, Next(s, e).wire, NextAnswered(s, e, a))
    ensures AnswersGone(s.slots, e.c, e.packet)
  {
    var slots, c, asked := s.slots, e.c, Asked(s.slots[e.c].value, e.packet);
    var h := Handle(s.users, slots, c, e.packet, e.env);
    hide Handle, Asked, Uins, LastTold, AllKnowGone, Gone, AllHealthy, Away, StatusOf, FindSession;
    forall x | x in asked && x != slots[c].value.uin && Gone(slots, x)
      ensures Away(Some(StatusOf(FindSession(slots, x))))
    {
      AskerHears(s.users, slots, c, e.packet, e.env, s.wire, x);
      AskerKeepsNumber(s.users, slots, c, e.packet, e.env);
      AskedOnList(s.users, slots, c, e.packet, e.env);
      AskerLeavesGone(s.users, slots, c, e.packet, e.env, x);
      KnowsGoneAt(h.slots, s.wire + h.sent, NextAnswered(s, e, a), c, x);
    }
  }

  lemma KnowsGoneAt(slots: Slots, wire: seq<Sent>, a: Answered, w: nat, x: u32)
    requires AllKnowGone(slots, wire, a) && w < MAX_CLIENTS
    ensures KnowsGone(slots, wire, a, w, x)
  {
    hide KnowsGone;
  }

  /** c has number x and nobody is logged in as x: c is marked now, and was logged in before. */
  lemma LeaverIsGone(s: Server, e: Event, x: u32)
    requires Inv(s) && Enabled(s, e) && e.Deliver? && Unmarked(s.slots, e.c)
    requires var after := Handle(s.users, s.slots, e.c, e.packet, e.env).slots;
             && Live(after, e.c) && Gone(after, x)
             && after[e.c].value.state == LoginOk && after[e.c].value.uin == x
    ensures Known(s.slots, e.c) && s.slots[e.c].value.uin == x
    ensures Handle(s.users, s.slots, e.c, e.packet, e.env).slots[e.c].value.remove
  {
    HandleSplits(s.users, s.slots, e.c, e.packet, e.env);
    HandleIsTame(s.users, s.slots, e.c, e.packet, e.env);
    hide Handle, LoginAccepted, WordAt, Find;
    var after := Handle(s.users, s.slots, e.c, e.packet, e.env).slots;
    assert !Known(after, e.c);
  }

  lemma OnListStill(s: Server, e: Event, a: Answered, w: nat, x: u32)
    requires Inv(s) && Enabled(s, e) && e.Deliver? && w < MAX_CLIENTS && w != e.c && AnsweredInList(s.slots, a)
    requires Live(Next(s, e).slots, w) && x in NextAnswered(s, e, a)[w]
    ensures OnList(Next(s, e).slots, w, x)
  {
    HandleIsTame(s.users, s.slots, e.c, e.packet, e.env);
    hide Handle, Uins, Asked;
  }

  lemma NotItself(s: Server, e: Event, a: Answered, w: nat, x: u32)
    requires Inv(s) && Enabled(s, e) && e.Deliver? && w < MAX_CLIENTS && AnsweredInList(s.slots, a)
    requires Live(Next(s, e).slots, w) && x in NextAnswered(s, e, a)[w] && x != Next(s, e).slots[w].value.uin
    requires !(w == e.c && x in Asked(s.slots[w].value, e.packet))
    ensures Live(s.slots, w) && Next(s, e).slots[w].value.fd == s.slots[w].value.fd
    ensures x in a[w] && x != s.slots[w].value.uin
    ensures w != e.c ==> s.slots[w].value.fd != s.slots[e.c].value.fd
  {
    HandleIsTame(s.users, s.slots, e.c, e.packet, e.env);
    hide Handle, Asked;
  }

  // ---- the other events, and runs ----

  lemma AcceptKnowsGone(s: Server, e: Event, a: Answered, w: nat, x: u32)
    requires Enabled(s, e) && e.Accept? && w < MAX_CLIENTS && KnowsGone(s.slots, s.wire, a, w, x)
    ensures KnowsGone(Next(s, e).slots, Next(s, e).wire, NextAnswered(s, e, a), w, x)
  {
    hide FreeSlot, LastTold, Away;
    var t := Next(s, e);
    if s.count < MAX_CLIENTS && Live(t.slots, w) && x in NextAnswered(s, e, a)[w] && Gone(t.slots, x) {
      WelcomeTellsNothing(s.wire, e.fd, e.seed, t.slots[w].value.fd, x);
      forall u | 0 <= u < MAX_CLIENTS && Known(s.slots, u) ensures s.slots[u].value.uin != x {
        assert t.slots[u] == s.slots[u];
      }
    }
  }

  lemma CloseKnowsGone(s: Server, e: Event, a: Answered, w: nat, x: u32)
    requires Enabled(s, e) && e.Close? && w < MAX_CLIENTS && DropsNobody(s.slots, e.c, a)
    requires KnowsGone(s.slots, s.wire, a, w, x)
    ensures KnowsGone(Next(s, e).slots, Next(s, e).wire, a, w, x)
  {
    hide LastTold, Away;
    var t := Next(s, e);
    if Live(t.slots, w) && x in a[w] && x != t.slots[w].value.uin && Gone(t.slots, x) {
      forall u | 0 <= u < MAX_CLIENTS && Known(s.slots, u) ensures s.slots[u].value.uin != x {
        assert u != e.c ==> t.slots[u] == s.slots[u];
      }
    }
  }

  /** Nobody learns of a dropped connection: who knew the status of c still believes it. */
  lemma DropIsNotTold(s: Server, e: Event, a: Answered, w: nat)
    requires Agreed(s, a) && Enabled(s, e) && e.Close? && Known(s.slots, e.c)
    requires w != e.c && Live(s.slots, w) && s.slots[e.c].value.uin in a[w]
    ensures Gone(Next(s, e).slots, s.slots[e.c].value.uin)
    ensures Live(Next(s, e).slots, w) && Next(s, e).slots[w] == s.slots[w]
    ensures LastTold(Next(s, e).wire, s.slots[w].value.fd, s.slots[e.c].value.uin) == Some(s.slots[e.c].value.status)
    ensures !Away(LastTold(Next(s, e).wire, s.slots[w].value.fd, s.slots[e.c].value.uin))
  {
    hide LastTold, AnsweredInList, Taken;
    assert Agrees(s.slots, s.wire, a, e.c, w);
    assert Healthy(s.users, s.slots[e.c].value);
    var t := Next(s, e);
    forall u | 0 <= u < MAX_CLIENTS && Known(t.slots, u) ensures t.slots[u].value.uin != s.slots[e.c].value.uin {
      assert Known(s.slots, u) && u != e.c;
    }
  }

  lemma DropsNobodyIfKnown(s: Server, e: Event, a: Answered)
    requires Agreed(s, a) && Enabled(s, e) && e.Close? && AllKnowGone(Next(s, e).slots, Next(s, e).wire, a)
    ensures DropsNobody(s.slots, e.c, a)
  {
    hide Agreed, Next, LastTold, Away, Gone, AllKnowGone;
    if Known(s.slots, e.c) {
      forall w | 0 <= w < MAX_CLIENTS && w != e.c && Live(s.slots, w) && s.slots[e.c].value.uin in a[w]
        ensures s.slots[w].value.uin == s.slots[e.c].value.uin
      {
        DropIsNotTold(s, e, a, w);
        KnowsGoneAt(Next(s, e).slots, Next(s, e).wire, a, w, s.slots[e.c].value.uin);
      }
    }
  }

  lemma AllKnowGoneIs(slots: Slots, wire: seq<Sent>, a: Answered)
    requires forall w, x: u32 :: 0 <= w < MAX_CLIENTS ==> KnowsGone(slots, wire, a, w, x)
    ensures AllKnowGone(slots, wire, a)
  {
    hide KnowsGone;
  }

  lemma EventKnowsGone(s: Server, e: Event, a: Answered, w: nat, x: u32)
    requires Inv(s) && Enabled(s, e) && TellsGoneAt(s, e, a) && w < MAX_CLIENTS
    requires AnsweredInList(s.slots, a) && AllKnowGone(s.slots, s.wire, a)
    ensures KnowsGone(Next(s, e).slots, Next(s, e).wire, NextAnswered(s, e, a), w, x)
  {
    hide KnowsGone, AllKnowGone, AnsweredInList, Inv, AnswersGone, DropsNobody, Handle, Asked, Uins;
    KnowsGoneAt(s.slots, s.wire, a, w, x);
    match e
    case Accept(_, _, _) => AcceptKnowsGone(s, e, a, w, x);
    case Deliver(c, _, _) =>
      if Unmarked(s.slots, c) {
        DeliverKnowsGone(s, e, a, w, x);
      } else {
        MarkedKnowsGone(s, e, a, w, x);
      }
    case Close(_) => CloseKnowsGone(s, e, a, w, x);
    case SignUp(_, _) =>
  }

  /** While all agrees, the next state knows who is gone iff the answers of the event are right
      and it drops nobody that others got an answer about. */
  lemma StepAbsenceIff(s: Server, e: Event, a: Answered)
    requires Agreed(s, a) && Enabled(s, e) && AllKnowGone(s.slots, s.wire, a)
    ensures AllKnowGone(Next(s, e).slots, Next(s, e).wire, NextAnswered(s, e, a)) <==> TellsGoneAt(s, e, a)
  {
    hide Inv, OnePerUin, AllAgree, Next, NextAnswered, AnsweredInList, KnowsGone, AllKnowGone, AnswersGone, DropsNobody;
    if TellsGoneAt(s, e, a) {
      forall w, x: u32 | 0 <= w < MAX_CLIENTS
        ensures KnowsGone(Next(s, e).slots, Next(s, e).wire, NextAnswered(s, e, a), w, x)
      {
        EventKnowsGone(s, e, a, w, x);
      }
      AllKnowGoneIs(Next(s, e).slots, Next(s, e).wire, NextAnswered(s, e, a));
    }
    if AllKnowGone(Next(s, e).slots, Next(s, e).wire, NextAnswered(s, e, a)) {
      if e.Deliver? {
        AnswersGoneIfKnown(s, e, a);
      } else if e.Close? {
        CloseAnswers(s, e, a);
        DropsNobodyIfKnown(s, e, a);
      }
    }
  }

  lemma CloseAnswers(s: Server, e: Event, a: Answered)
    requires Enabled(s, e) && e.Close?
    ensures NextAnswered(s, e, a) == a
  {}

  // ---- runs ----

  /** In state k every session was last told the truth about each contact it got an answer
      about: its status if it is logged in, and else that it is not available. */
  ghost predicate KnowsAllAt(ss: seq<Server>, es: seq<Event>, k: nat)
    requires Run(ss, es) && k < |ss|
  {
    AgreesAt(ss, es, k) && AllKnowGone(ss[k].slots, ss[k].wire, AnsweredAt(ss, es, k))
  }

  /** The first k events tell right, also about contacts that are gone. */
  ghost predicate ToldUpTo(ss: seq<Server>, es: seq<Event>, k: nat)
    requires Run(ss, es) && k <= |es|
  {
    && RightUpTo(ss, es, k)
    && forall n :: 0 <= n < k ==> Steps(ss[n], es[n], ss[n + 1]) && TellsGoneAt(ss[n], es[n], AnsweredAt(ss, es, n))
  }

  lemma NobodyYet(s: Server)
    requires Initial(s)
    ensures AllKnowGone(s.slots, s.wire, seq(MAX_CLIENTS, _ => {}))
  {}

  lemma InitialKnows(ss: seq<Server>, es: seq<Event>)
    requires Run(ss, es)
    ensures KnowsAllAt(ss, es, 0) && ToldUpTo(ss, es, 0)
  {
    hide OnePerUin, AllAgree, AllKnowGone, Next, Enabled;
    InitialAgrees(ss[0]);
    NobodyYet(ss[0]);
  }

  lemma ToldNext(ss: seq<Server>, es: seq<Event>, k: nat)
    requires Run(ss, es) && 0 < k <= |es| && Steps(ss[k - 1], es[k - 1], ss[k])
    ensures ToldUpTo(ss, es, k)
       <==> ToldUpTo(ss, es, k - 1) && SafeLogin(ss[k - 1], es[k - 1]) && TellsRightAt(ss[k - 1], es[k - 1])
            && TellsGoneAt(ss[k - 1], es[k - 1], AnsweredAt(ss, es, k - 1))
  {
    hide Next, NextAnswered, Enabled, SafeLogin, TellsRightAt, TellsGoneAt, AnsweredAt, Initial;
  }

  lemma StepKnowledgeIff(ss: seq<Server>, es: seq<Event>, k: nat)
    requires Run(ss, es) && 0 < k <= |es| && KnowsAllAt(ss, es, k - 1) && Steps(ss[k - 1], es[k - 1], ss[k])
    ensures KnowsAllAt(ss, es, k)
       <==> SafeLogin(ss[k - 1], es[k - 1]) && TellsRightAt(ss[k - 1], es[k - 1])
            && TellsGoneAt(ss[k - 1], es[k - 1], AnsweredAt(ss, es, k - 1))
  {
    hide OnePerUin, AllAgree, AllKnowGone, AnsweredInList, Next, NextAnswered, Enabled, Inv, SafeLogin, TellsRightAt,
         TellsGoneAt;
    var s, e, a := ss[k - 1], es[k - 1], AnsweredAt(ss, es, k - 1);
    Reachable(ss, es, k - 1);
    RunKeepsAnswered(ss, es, k - 1);
    StepUniqueIff(s, e);
    StepAbsenceIff(s, e, a);
    if SafeLogin(s, e) {
      StepPresenceIff(s, e, a);
    }
  }

  /** All that watchers know, exactly: everyone was told the truth about everyone in every
      state up to k iff every login before k is safe, every answer before k is right, and nobody
      is dropped before k that another session got an answer about. */
  lemma {:induction false} RunKnowledgeIff(ss: seq<Server>, es: seq<Event>, k: nat)
    requires Run(ss, es) && k <= |es|
    ensures (forall n :: 0 <= n <= k ==> KnowsAllAt(ss, es, n)) <==> ToldUpTo(ss, es, k)
  {
    hide KnowsAllAt, ToldUpTo, Next, Enabled, SafeLogin, TellsRightAt, TellsGoneAt, AnsweredAt;
    InitialKnows(ss, es);
    if k > 0 {
      RunKnowledgeIff(ss, es, k - 1);
      assert Steps(ss[k - 1], es[k - 1], ss[k]);
      ToldNext(ss, es, k);
      if KnowsAllAt(ss, es, k - 1) {
        StepKnowledgeIff(ss, es, k);
      }
    }
  }

  /** The other half of presence: of a number that nobody is logged in as, every session that
      got an answer about it was last told that it is not available. A marked session may have
      its own number on its list; nobody is told about itself. */
  lemma AbsenceIsTold(ss: seq<Server>, es: seq<Event>, k: nat, w: nat, x: u32)
    requires Run(ss, es) && k <= |es| && ToldUpTo(ss, es, k) && Live(ss[k].slots, w) && Gone(ss[k].slots, x)
    requires x in AnsweredAt(ss, es, k)[w] && x != ss[k].slots[w].value.uin
    ensures Away(LastTold(ss[k].wire, ss[k].slots[w].value.fd, x))
  {
    hide Away, LastTold, Gone, ToldUpTo, Next, Enabled;
    RunKnowledgeIff(ss, es, k);
    assert KnowsAllAt(ss, es, k);
    KnowsGoneAt(ss[k].slots, ss[k].wire, AnsweredAt(ss, es, k), w, x);
  }

  /** No logged-in session is just dropped. */
  ghost predicate Orderly(s: Server, e: Event)
  {
    e.Close? ==> !Known(s.slots, e.c)
  }

  /** Reap-first runs in which nobody is dropped tell the truth about all. */
  lemma OrderlyIsTold(ss: seq<Server>, es: seq<Event>)
    requires ReapFirstRun(ss, es) && forall n :: 0 <= n < |es| ==> Orderly(ss[n], es[n])
    ensures ToldUpTo(ss, es, |es|)
  {
    ReapFirstIsRight(ss, es);
    hide RightUpTo, Next, Enabled, Inv, ReapFirst, Orderly, TellsGoneAt, AnsweredAt, Initial;
    forall n | 0 <= n < |es|
      ensures Steps(ss[n], es[n], ss[n + 1]) && TellsGoneAt(ss[n], es[n], AnsweredAt(ss, es, n))
    {
      assert Steps(ss[n], es[n], ss[n + 1]);
      Reachable(ss, es, n);
      OrderlyTellsGone(ss[n], es[n], AnsweredAt(ss, es, n));
    }
  }

  lemma OrderlyTellsGone(s: Server, e: Event, a: Answered)
    requires Inv(s) && Enabled(s, e) && ReapFirst(s, e) && Orderly(s, e)
    ensures TellsGoneAt(s, e, a)
  {
    hide Asked, FindSession, StatusOf, Away, Gone, AllHealthy;
    if e.Deliver? {
      forall x | Gone(s.slots, x) ensures Away(Some(StatusOf(FindSession(s.slots, x)))) {
        NobodyFound(s.users, s.slots, x);
      }
    }
  }

  /** Of a number that nobody is logged in as, client_find finds no status but the first. */
  lemma NobodyFound(users: Table, slots: Slots, x: u32)
    requires AllHealthy(users, slots) && NoneMarked(slots) && Gone(slots, x)
    ensures Away(Some(StatusOf(FindSession(slots, x))))
  {
    hide FindFrom;
    var f := Find(slots, x);
    if f.Some? {
      assert !Known(slots, f.value);
    }
  }
}

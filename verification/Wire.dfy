/** src/chat/protocol.h and the framing of src/chat/client.c and src/chat/chat_server.c:
    packets, their byte layout, and the stream they travel in. Here a byte and a word are
    numbers; only the digests look at their bits. */
module Wire {
  type u8 = x: int | 0 <= x < 0x100
  type u16 = x: int | 0 <= x < 0x1_0000
  type u32 = x: int | 0 <= x < 0x1_0000_0000

  type Octets = seq<u8>

  function Octet(n: nat): u8
  {
    n % 0x100
  }

  function LE16(w: u16): (b: Octets)
    ensures |b| == 2
  {
    [Octet(w), Octet(w / 0x100)]
  }

  /** An x86 word on the wire, least significant byte first. */
  function LE32(w: u32): (b: Octets)
    ensures |b| == 4
  {
    [Octet(w), Octet(w / 0x100), Octet(w / 0x1_0000), Octet(w / 0x100_0000)]
  }

  /** The word stored at offset i of a packed struct. */
  function WordAt(b: Octets, i: nat): u32
    requires i + 4 <= |b|
  {
    b[i] as int + 0x100 * (b[i + 1] as int) + 0x1_0000 * (b[i + 2] as int) + 0x100_0000 * (b[i + 3] as int)
  }

  lemma Digits(w: u32)
    ensures w == w % 0x100 + 0x100 * (w / 0x100 % 0x100) + 0x1_0000 * (w / 0x1_0000 % 0x100)
              + 0x100_0000 * (w / 0x100_0000)
  {
    assert w / 0x1_0000 == w / 0x100 / 0x100 && w / 0x100_0000 == w / 0x1_0000 / 0x100;
  }

  lemma WordOfLE32(b: Octets, i: nat, w: u32)
    requires i + 4 <= |b| && b[i..i + 4] == LE32(w)
    ensures WordAt(b, i) == w
  {
    Digits(w);
    assert b[i] == b[i..i + 4][0] && b[i + 1] == b[i..i + 4][1];
    assert b[i + 2] == b[i..i + 4][2] && b[i + 3] == b[i..i + 4][3];
  }

  lemma DigitsOf(p: u8, q: u8, r: u8, t: u8)
    ensures var n := p as int + 0x100 * (q as int) + 0x1_0000 * (r as int) + 0x100_0000 * (t as int);
            && n % 0x100 == p as int && n / 0x100 % 0x100 == q as int
            && n / 0x1_0000 % 0x100 == r as int && n / 0x100_0000 == t as int
  {
    var n := p as int + 0x100 * (q as int) + 0x1_0000 * (r as int) + 0x100_0000 * (t as int);
    assert n / 0x100 == q as int + 0x100 * (r as int) + 0x1_0000 * (t as int);
    assert n / 0x1_0000 == r as int + 0x100 * (t as int);
  }

  lemma LE32OfWord(b: Octets)
    requires |b| == 4
    ensures LE32(WordAt(b, 0)) == b
  {
    DigitsOf(b[0], b[1], b[2], b[3]);
  }

  /** Byte k of a word on the wire weighs 256^k. */
  lemma LowByteFirst(b: Octets, i: nat)
    requires i + 4 <= |b|
    ensures WordAt(b, i) % 0x100 == b[i]
    ensures WordAt(b, i) / 0x100 % 0x100 == b[i + 1]
    ensures WordAt(b, i) / 0x1_0000 % 0x100 == b[i + 2]
    ensures WordAt(b, i) / 0x100_0000 == b[i + 3]
  {
    DigitsOf(b[i], b[i + 1], b[i + 2], b[i + 3]);
  }

  // packet types, server to client
  const WELCOME: u32 := 0x0001
  const LOGIN_OK: u32 := 0x0003
  const LOGIN_FAILED: u32 := 0x0009
  const DISCONNECTING: u32 := 0x000d
  const NOTIFY_REPLY: u32 := 0x000c
  const USERLIST_REPLY: u32 := 0x0010
  const RECV_MSG: u32 := 0x000a
  const SEND_MSG_ACK: u32 := 0x0005
  // packet types, client to server
  const LOGIN31: u32 := 0x0001
  const LOGIN50: u32 := 0x000c
  const LOGIN60: u32 := 0x0015
  const LOGIN70: u32 := 0x0019
  const NOTIFY_FIRST: u32 := 0x000f
  const NOTIFY_LAST: u32 := 0x0010
  const USERLIST_REQUEST: u32 := 0x0016
  const LIST_EMPTY: u32 := 0x0012
  const ADD_NOTIFY: u32 := 0x000d
  const REMOVE_NOTIFY: u32 := 0x000e
  const SEND_MSG: u32 := 0x000b
  const PING: u32 := 0x0008
  // both ways
  const NEW_STATUS: u32 := 0x0002

  const STATUS_NOT_AVAIL: u32 := 0x0001
  const STATUS_AVAIL: u32 := 0x0002
  const STATUS_NOT_AVAIL_DESCR: u32 := 0x0015
  const STATUS_FRIENDS_MASK: u32 := 0x8000

  const HASH_GG32: u8 := 0x01
  const HASH_SHA1: u8 := 0x02

  const USERLIST_PUT: u8 := 0x00
  const USERLIST_PUT_MORE: u8 := 0x01
  const USERLIST_GET: u8 := 0x02
  const USERLIST_PUT_REPLY: u8 := 0x00
  const USERLIST_GET_REPLY: u8 := 0x06

  const ACK_DELIVERED: u32 := 0x0002
  const ACK_QUEUED: u32 := 0x0003

  /** The numbers of src/chat/protocol.h, as a client has them. */
  lemma TypesAre()
    ensures WELCOME == LOGIN31 == 1 && NEW_STATUS == 2 && LOGIN_OK == 3 && SEND_MSG_ACK == 5 && PING == 8
    ensures LOGIN_FAILED == 9 && RECV_MSG == 10 && SEND_MSG == 11 && NOTIFY_REPLY == LOGIN50 == 12
    ensures DISCONNECTING == ADD_NOTIFY == 13 && REMOVE_NOTIFY == 14 && NOTIFY_FIRST == 15
    ensures USERLIST_REPLY == NOTIFY_LAST == 16 && LIST_EMPTY == 18 && LOGIN60 == 21 && USERLIST_REQUEST == 22
    ensures LOGIN70 == 25 && ACK_DELIVERED == 2 && ACK_QUEUED == 3
  {}

  datatype Packet = Packet(kind: u32, body: Octets)

  /** gg_header_t: the length field has 32 bits. */
  function Header(p: Packet): (b: Octets)
    ensures |b| == 8
  {
    LE32(p.kind) + LE32(|p.body| % 0x1_0000_0000)
  }

  /** A packet as it goes over a connection. */
  function Encode(p: Packet): (b: Octets)
    ensures |b| == 8 + |p.body|
  {
    Header(p) + p.body
  }

  ghost predicate Sendable(ps: seq<Packet>)
  {
    forall i :: 0 <= i < |ps| ==> |ps[i].body| < 0x1_0000_0000
  }

  function EncodeAll(ps: seq<Packet>): Octets
  {
    if ps == [] then [] else Encode(ps[0]) + EncodeAll(ps[1..])
  }

  datatype Received = Closed | Got(packet: Packet, rest: Octets)

  /** The two recv calls of one turn of client_thread's loop, when every recv gets all
      the bytes it asks for: a stream that ends inside a packet counts as closed. */
  function Receive(stream: Octets): (r: Received)
    ensures r.Got? ==> |r.rest| + 8 <= |stream|
  {
    if |stream| < 8 then Closed
    else
      var length := WordAt(stream, 4);
      if |stream| - 8 < length then Closed
      else Got(Packet(WordAt(stream, 0), stream[8..8 + length]), stream[8 + length..])
  }

  /** All the packets the reader loop can take out of a stream. */
  function ReceiveAll(stream: Octets): seq<Packet>
    decreases |stream|
  {
    match Receive(stream)
    case Closed => []
    case Got(p, rest) => [p] + ReceiveAll(rest)
  }

  /** The two words of a header. */
  lemma HeaderWords(p: Packet, rest: Octets)
    requires |p.body| < 0x1_0000_0000
    ensures var s := Header(p) + rest; WordAt(s, 0) == p.kind && WordAt(s, 4) == |p.body|
  {
    hide LE32, WordAt;
    var s := Header(p) + rest;
    assert s[0..4] == LE32(p.kind);
    assert s[4..8] == LE32(|p.body|);
    WordOfLE32(s, 0, p.kind);
    WordOfLE32(s, 4, |p.body|);
  }

  lemma ReceiveEncoded(p: Packet, rest: Octets)
    requires |p.body| < 0x1_0000_0000
    ensures Receive(Encode(p) + rest) == Got(p, rest)
  {
    HeaderWords(p, p.body + rest);
    hide Header, WordAt;
    var s := Encode(p) + rest;
    assert s == Header(p) + (p.body + rest);
    assert s[8..8 + |p.body|] == p.body;
    assert s[8 + |p.body|..] == rest;
  }

  /** Where things are in an encoded packet: the type in the first four bytes, the length of the
      body in the next four, then the body. */
  lemma EncodedLayout(p: Packet)
    requires |p.body| < 0x1_0000_0000
    ensures WordAt(Encode(p), 0) == p.kind && WordAt(Encode(p), 4) == |p.body| && Encode(p)[8..] == p.body
  {
    HeaderWords(p, p.body);
    hide Header, WordAt;
  }

  /** Framing loses nothing: parsing the stream of any list of packets, also with bytes
      of an unfinished packet behind, gives back exactly that list. */
  lemma {:induction false} FramingRoundTrip(ps: seq<Packet>, tail: Octets)
    requires Sendable(ps) && Receive(tail) == Closed
    ensures ReceiveAll(EncodeAll(ps) + tail) == ps
  {
    hide Receive, Encode;
    if ps == [] {
      assert EncodeAll(ps) + tail == tail;
    } else {
      assert ps == [ps[0]] + ps[1..];
      assert EncodeAll(ps) + tail == Encode(ps[0]) + (EncodeAll(ps[1..]) + tail);
      ReceiveEncoded(ps[0], EncodeAll(ps[1..]) + tail);
      FramingRoundTrip(ps[1..], tail);
    }
  }

  lemma BytesOfWord(s: Octets, i: nat)
    requires i + 4 <= |s|
    ensures LE32(WordAt(s, i)) == s[i..i + 4]
  {
    var b := s[i..i + 4];
    assert WordAt(b, 0) == WordAt(s, i);
    hide LE32, WordAt;
    LE32OfWord(b);
  }

  lemma EncodedReceive(stream: Octets)
    requires Receive(stream).Got?
    ensures |Receive(stream).packet.body| < 0x1_0000_0000
    ensures stream == Encode(Receive(stream).packet) + Receive(stream).rest
  {
    hide LE32, WordAt;
    BytesOfWord(stream, 0);
    BytesOfWord(stream, 4);
    var n := 8 + WordAt(stream, 4);
    assert stream[..8] == stream[0..4] + stream[4..8];
    assert stream == stream[..8] + stream[8..n] + stream[n..];
  }

  /** And nothing is made up: whatever the loop takes out of a stream is what the
      consumed bytes encode. */
  lemma {:induction false} ReceivedIsEncoded(stream: Octets)
    ensures Sendable(ReceiveAll(stream))
    ensures exists tail :: Receive(tail) == Closed && stream == EncodeAll(ReceiveAll(stream)) + tail
    decreases |stream|
  {
    hide Receive, Encode;
    match Receive(stream)
    case Closed =>
      assert stream == EncodeAll([]) + stream;
    case Got(p, rest) =>
      ReceivedIsEncoded(rest);
      var ps := ReceiveAll(rest);
      var tail :| Receive(tail) == Closed && rest == EncodeAll(ps) + tail;
      EncodedReceive(stream);
      assert ([p] + ps)[1..] == ps;
      hide ReceiveAll;
      assert stream == EncodeAll([p] + ps) + tail;
  }
}

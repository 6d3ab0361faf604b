/** The bytes on the connections: src/chat/client.c lines 157 to 174. */
module Network {
  import opened Wire
  import opened Sessions

  /** One call of send(). */
  datatype Call = Call(fd: nat, bytes: Octets)

  /** The calls write_full_packet makes: the header, and the body unless it is empty. */
  function CallsFor(x: Sent): seq<Call>
  {
    [Call(x.fd, Header(x.packet))] + (if x.packet.body == [] then [] else [Call(x.fd, x.packet.body)])
  }

  function CallsOf(wire: seq<Sent>): seq<Call>
  {
    if wire == [] then [] else CallsOf(wire[..|wire| - 1]) + CallsFor(wire[|wire| - 1])
  }

  lemma CallsSnoc(wire: seq<Sent>, x: Sent)
    ensures CallsOf(wire + [x]) == CallsOf(wire) + CallsFor(x)
  {
    assert (wire + [x])[..|wire|] == wire;
  }

  /** All that goes over connection fd, in order. */
  function BytesTo(calls: seq<Call>, fd: nat): Octets
  {
    if calls == [] then []
    else
      var last := calls[|calls| - 1];
      BytesTo(calls[..|calls| - 1], fd) + (if last.fd == fd then last.bytes else [])
  }

  lemma BytesSnoc(calls: seq<Call>, c: Call, fd: nat)
    ensures BytesTo(calls + [c], fd) == BytesTo(calls, fd) + (if c.fd == fd then c.bytes else [])
  {
    assert (calls + [c])[..|calls|] == calls;
  }

  /** One packet adds its encoding to its connection, and nothing to any other. */
  lemma PacketAddsItsEncoding(calls: seq<Call>, x: Sent, fd: nat)
    ensures BytesTo(calls + CallsFor(x), fd) == BytesTo(calls, fd) + (if x.fd == fd then Encode(x.packet) else [])
  {
    hide Header, BytesTo;
    var header := Call(x.fd, Header(x.packet));
    BytesSnoc(calls, header, fd);
    if x.packet.body == [] {
      assert CallsFor(x) == [header];
      assert Encode(x.packet) == header.bytes;
    } else {
      var body := Call(x.fd, x.packet.body);
      assert calls + CallsFor(x) == calls + [header] + [body];
      BytesSnoc(calls + [header], body, fd);
      assert BytesTo(calls, fd) + header.bytes + body.bytes == BytesTo(calls, fd) + Encode(x.packet);
    }
  }

  function PacketsTo(wire: seq<Sent>, fd: nat): seq<Packet>
  {
    if wire == [] then []
    else
      var last := wire[|wire| - 1];
      PacketsTo(wire[..|wire| - 1], fd) + (if last.fd == fd then [last.packet] else [])
  }

  lemma {:induction false} EncodeSnoc(ps: seq<Packet>, p: Packet)
    ensures EncodeAll(ps + [p]) == EncodeAll(ps) + Encode(p)
  {
    hide Encode;
    if ps == [] {
      assert EncodeAll([p]) == Encode(p) + EncodeAll([]);
      assert [] + [p] == [p];
    } else {
      assert (ps + [p])[1..] == ps[1..] + [p];
      EncodeSnoc(ps[1..], p);
    }
  }

  lemma {:induction false} BytesAreEncoded(wire: seq<Sent>, fd: nat)
    ensures BytesTo(CallsOf(wire), fd) == EncodeAll(PacketsTo(wire, fd))
  {
    hide CallsFor, Encode, EncodeAll, BytesTo;
    if wire == [] {
      NoBytes(fd);
    } else {
      var front, last := wire[..|wire| - 1], wire[|wire| - 1];
      BytesAreEncoded(front, fd);
      PacketAddsItsEncoding(CallsOf(front), last, fd);
      EncodeSnoc(PacketsTo(front, fd), last.packet);
      assert last.fd != fd ==> PacketsTo(wire, fd) == PacketsTo(front, fd);
    }
  }

  lemma NoBytes(fd: nat)
    ensures BytesTo([], fd) == [] == EncodeAll([])
  {}

  /** What a client reads off its connection, by the framing the server itself uses, is
      exactly the list of packets it was sent. */
  lemma WhatArrives(wire: seq<Sent>, fd: nat)
    requires Sendable(PacketsTo(wire, fd))
    ensures ReceiveAll(BytesTo(CallsOf(wire), fd)) == PacketsTo(wire, fd)
  {
    hide *;
    BytesAreEncoded(wire, fd);
    var b := BytesTo(CallsOf(wire), fd);
    assert b + [] == b;
    NothingIsClosed();
    FramingRoundTrip(PacketsTo(wire, fd), []);
  }

  lemma NothingIsClosed()
    ensures Receive([]) == Closed
  {}
}

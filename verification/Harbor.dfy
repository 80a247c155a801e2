/**
  The harbor's side of a connection to another node (service_harbor.c): a handshake byte, then
  messages with four-byte headers and a cookie at the end of each.
 */
module Harbor {
  import opened Common
  import opened Framing

  const COOKIE := 12

  /** struct remote_message_header. */
  datatype Header = Header(source: nat, destination: nat, session: nat)

  /** What a message is sent on as, inside this node. */
  datatype Message = Message(source: nat, destination: nat, kind: nat, session: nat, data: Bytes)

  datatype Status = Wait | Handshake | ReadHeader | ReadContent | Down

  // ---------------------------------------------------------------- the stream

  /** Every header that is reached either refuses the stream or announces room for a cookie. */
  predicate Fit(s: Bytes)
    decreases |s|
  {
    |s| >= 4 && Number(s[..4]) < TOO_LONG ==> Number(s[..4]) >= COOKIE && (Complete(4, s) ==> Fit(Behind(4, s)))
  }

  /** What comes later does not unfit what is there, and what is left with it is fit too. */
  lemma {:induction false} FitPrefix(s: Bytes, t: Bytes)
    requires Fit(s + t)
    ensures Fit(s) && Fit(Left(4, s) + t)
    decreases |s|
  {
    if |s| >= 4 {
      assert (s + t)[..4] == s[..4];
      if Takes(4, s) {
        CompleteStays(4, s, t);
        FitPrefix(Behind(4, s), t);
      }
    }
  }

  /** forward_local_messsage, up to sending, at the node `home`. */
  function Local(home: nat, msg: Bytes): Message
    requires |msg| >= COOKIE
  {
    var n := |msg| - COOKIE;
    var destination := Number(msg[n + 4..n + 8]);
    Message(Number(msg[n..n + 4]), destination % TOO_LONG + home * TOO_LONG, destination / TOO_LONG, Number(msg[n + 8..]), msg[..n])
  }

  function LocalAll(home: nat, ps: seq<Bytes>): (m: seq<Message>)
    requires forall i :: 0 <= i < |ps| ==> |ps[i]| >= COOKIE
    ensures |m| == |ps|
  {
    if ps == [] then [] else [Local(home, ps[0])] + LocalAll(home, ps[1..])
  }

  lemma {:induction false} FitPackets(s: Bytes)
    requires Fit(s)
    ensures Sized(s)
    decreases |s|
  {
    if Takes(4, s) {
      FitPackets(Behind(4, s));
    }
  }

  /** The connection of the node `home` to the node `peer`. */
  class Slave {
    const home: nat
    const peer: nat
    var status: Status
    var length: int
    var read: int
    var size: Bytes
    var received: Bytes

    ghost predicate Valid()
      reads this
    {
      && 1 <= peer < 256 && 0 <= home < 256 && |size| == 4
      && match status
         case Handshake => read == 0
         case ReadHeader => 0 <= read < 4
         case ReadContent => 0 <= read == |received| && read < length < TOO_LONG && length >= COOKIE && length == Number(size) && size[0] == 0
         case _ => true
    }

    ghost predicate Reading()
      reads this
    {
      status == ReadHeader || status == ReadContent
    }

    /** The bytes received and not yet forwarded. */
    ghost function Pending(): Bytes
      reads this
      requires Valid()
    {
      match status
      case ReadHeader => size[..read]
      case ReadContent => size + received
      case _ => []
    }

    /** The fd has been handed over: of a connection made from here the handshake byte is awaited, of an accepted one not. */
    constructor (home: nat, peer: nat, accepted: bool)
      requires 0 <= home < 256 && 1 <= peer < 256
      ensures Valid() && this.home == home && this.peer == peer
      ensures if accepted then status == ReadHeader && Pending() == [] else status == Handshake
    {
      this.home, this.peer, status := home, peer, if accepted then ReadHeader else Handshake;
      length, read, size, received := 0, 0, [0, 0, 0, 0], [];
    }

    /** The header state: more of the four bytes, or all of them. */
    method TakeHeader(buffer: Bytes) returns (rest: Bytes, stop: bool)
      requires Valid() && status == ReadHeader && Fit(Pending() + buffer)
      modifies this
      ensures Valid()
      ensures stop ==> status == Down || (status != Down && Pending() == old(Pending()) + buffer && !Complete(4, Pending()))
      ensures status == Down ==> stop && |old(Pending()) + buffer| >= 4 && (old(Pending()) + buffer)[0] != 0
      ensures status == ReadHeader ==> stop
      ensures status == Down || status == ReadHeader || status == ReadContent
      ensures !stop ==> status == ReadContent && rest != [] && read == 0 && Pending() + rest == old(Pending()) + buffer
    {
      ghost var all := Pending() + buffer;
      rest, stop := buffer, true;
      var need := 4 - read;
      if |buffer| < need {
        ghost var had := size[..read];
        size := size[..read] + buffer + size[read + |buffer|..];
        read := read + |buffer|;
        assert size[..read] == had + buffer;
        return;
      }
      size := size[..read] + buffer[..need];
      rest := buffer[need..];
      assert all == size + rest && all[..4] == size;
      if size[0] != 0 {
        status := Down;
        return;
      }
      length := (size[1] as int) * 0x1_0000 + (size[2] as int) * 0x100 + size[3] as int;
      HeaderNumber(size);
      read := 0;
      received := [];
      status := ReadContent;
      if rest == [] {
        return;
      }
      stop := false;
    }

    /** The content state: more of a message, or the end of it, which is forwarded. */
    method TakeContent(buffer: Bytes) returns (rest: Bytes, out: seq<Message>)
      requires Valid() && status == ReadContent
      modifies this
      ensures Valid() && (status == ReadContent || status == ReadHeader)
      ensures status == ReadContent ==> out == [] && Pending() == old(Pending()) + buffer && !Complete(4, Pending())
      ensures status == ReadHeader ==> Complete(4, old(Pending()) + buffer) && Pending() == [] && rest == Behind(4, old(Pending()) + buffer)
      ensures status == ReadHeader ==> |Frame(4, old(Pending()) + buffer)| >= COOKIE && out == [Local(home, Frame(4, old(Pending()) + buffer))]
    {
      ghost var all := Pending() + buffer;
      assert all[..4] == size;
      var need := length - read;
      if |buffer| < need {
        assert Pending() + buffer == size + (received + buffer);
        received := received + buffer;
        read := read + |buffer|;
        return [], [];
      }
      var msg := received + buffer[..need];
      assert Frame(4, all) == msg && Behind(4, all) == buffer[need..];
      out := [Local(home, msg)];
      length, read, received := 0, 0, [];
      rest := buffer[need..];
      status := ReadHeader;
    }

    /** One turn of the loop of push_socket_data: a whole message, or the end of the chunk, or of the connection. */
    method Turn(buffer: Bytes) returns (rest: Bytes, out: seq<Message>, done: bool)
      requires Valid() && (status == ReadHeader || status == ReadContent) && Fit(Pending() + buffer)
      modifies this
      ensures Valid()
      ensures done ==> out == [] && (status == Down || status == ReadHeader || status == ReadContent)
      ensures done && status == Down ==> |old(Pending()) + buffer| >= 4 && (old(Pending()) + buffer)[0] != 0
      ensures done && status != Down ==> Pending() == old(Pending()) + buffer && !Complete(4, Pending()) && (|Pending()| >= 4 ==> Pending()[0] == 0)
      ensures !done ==> status == ReadHeader && Pending() == [] && Complete(4, old(Pending()) + buffer) && rest == Behind(4, old(Pending()) + buffer)
      ensures !done ==> (old(Pending()) + buffer)[0] == 0 && |Frame(4, old(Pending()) + buffer)| >= COOKIE
                        && out == [Local(home, Frame(4, old(Pending()) + buffer))]
    {
      ghost var u := Pending() + buffer;
      rest, done := buffer, false;
      if status == ReadHeader {
        rest, done := TakeHeader(rest);
        if done {
          return rest, [], true;
        }
      }
      assert u[0] == size[0];
      rest, out := TakeContent(rest);
      done := status == ReadContent;
    }

    /** push_socket_data after the handshake: every whole message is forwarded, and the rest is kept; a header of 16M or more closes the connection. */
    method Feed(buffer: Bytes) returns (out: seq<Message>)
      requires Valid() && (status == ReadHeader || status == ReadContent) && Fit(Pending() + buffer)
      modifies this
      ensures Valid() && Sized(old(Pending()) + buffer) && out == LocalAll(home, Accepted(4, old(Pending()) + buffer))
      ensures status == Down <==> !Short(4, old(Pending()) + buffer)
      ensures status != Down ==> (status == ReadHeader || status == ReadContent) && Pending() == Left(4, old(Pending()) + buffer)
    {
      hide Fit, Short, Number, Accepted, Left;
      ghost var total := Pending() + buffer;
      FitPackets(total);
      var rest, done := buffer, false;
      out := [];
      while !done
        invariant Valid() && OnTrack(total, if done then Left(4, total) else Pending() + rest, out, home, done, status == Down)
        invariant !(done && status == Down) ==> status == ReadHeader || status == ReadContent
        invariant done && status != Down ==> Pending() == Left(4, total)
        decreases !done, |Pending() + rest|
      {
        ghost var u := Pending() + rest;
        var o;
        rest, o, done := Turn(rest);
        if done {
          Stopped(total, u, out, home, status == Down);
        } else {
          Advanced(total, u, out, home);
          assert Pending() + rest == Behind(4, u);
        }
        out := out + o;
      }
    }

    /** push_socket_data for the socket of this slave. */
    method PushSocketData(buffer: Bytes) returns (out: seq<Message>)
      requires Valid() && buffer != []
      requires (status == Handshake ==> Fit(buffer[1..])) && (Reading() ==> Fit(Pending() + buffer))
      modifies this
      ensures Valid()
      ensures old(status) == Handshake && buffer[0] != peer ==> status == Down && out == []
      ensures old(status) == Handshake && buffer[0] == peer ==>
                Sized(buffer[1..]) && out == LocalAll(home, Accepted(4, buffer[1..])) && (status == Down <==> !Short(4, buffer[1..]))
                && (status != Down ==> Reading() && Pending() == Left(4, buffer[1..]))
      ensures old(status) == ReadHeader || old(status) == ReadContent ==>
                Sized(old(Pending()) + buffer) && out == LocalAll(home, Accepted(4, old(Pending()) + buffer)) && (status == Down <==> !Short(4, old(Pending()) + buffer))
                && (status != Down ==> Reading() && Pending() == Left(4, old(Pending()) + buffer))
      ensures old(status) == Wait || old(status) == Down ==> out == [] && status == old(status)
    {
      out := [];
      if status == Handshake {
        if buffer[0] != peer {
          status := Down;
          return;
        }
        status := ReadHeader;
        assert Pending() + buffer[1..] == buffer[1..];
        out := Feed(buffer[1..]);
      } else if status == ReadHeader || status == ReadContent {
        out := Feed(buffer);
      }
    }
  }

  /**
    All that a peer sends, in any number of chunks: after its handshake byte, the messages of the
    stream up to the first header of 16M or more, which takes the connection down wherever it comes.
   */
  method PushAll(h: Slave, chunks: seq<Bytes>) returns (out: seq<Message>)
    requires h.Valid() && h.status == Handshake
    requires chunks != [] && forall i :: 0 <= i < |chunks| ==> chunks[i] != []
    requires |Flat(chunks)| > 0 && Fit(Flat(chunks)[1..])
    modifies h
    ensures Flat(chunks)[0] != h.peer ==> out == [] && h.status == Down
    ensures Flat(chunks)[0] == h.peer ==>
      var s := Flat(chunks)[1..];
      Sized(s) && out == LocalAll(h.home, Accepted(4, s)) && (h.status == Down <==> !Short(4, s))
  {
    hide Fit, Flat, Accepted, Left, Short, LocalAll, Sized;
    ghost var all := Flat(chunks);
    FlatNone();
    out := [];
    var i := 0;
    while i < |chunks|
      invariant 0 <= i <= |chunks| && h.Valid()
      invariant if i == 0 then h.status == Handshake && out == [] else Received(h, Flat(chunks[..i]), out)
    {
      ghost var u := Flat(chunks[..i]);
      FlatNext(chunks, i);
      FlatPrefix(chunks, i + 1);
      if i == 0 {
        assert chunks[..0] == [] && u + chunks[0] == chunks[0];
        FitPart([], chunks[0], all);
      } else {
        FitPart(u, chunks[i], all);
        NextReceived(u, chunks[i], h.home);
      }
      var o := h.PushSocketData(chunks[i]);
      out := out + o;
      i := i + 1;
    }
    assert chunks[..|chunks|] == chunks;
  }

  /** Where the connection stands when the bytes u have come. */
  ghost predicate Received(h: Slave, u: Bytes, out: seq<Message>)
    reads h
  {
    && u != [] && h.Valid()
    && if u[0] != h.peer then out == [] && h.status == Down
       else
         && Sized(u[1..]) && out == LocalAll(h.home, Accepted(4, u[1..])) && (h.status == Down <==> !Short(4, u[1..]))
         && (h.status != Down ==> h.Reading() && h.Pending() == Left(4, u[1..]))
  }

  /** The part of a fit stream that a chunk completes is fit. */
  lemma FitPart(u: Bytes, c: Bytes, all: Bytes)
    requires c != [] && u + c <= all && Fit(all[1..])
    ensures u == [] ==> Fit(c[1..])
    ensures u != [] ==> Fit(u[1..] + c) && Fit(Left(4, u[1..]) + c)
  {
    var s, t := (u + c)[1..], all[|u + c|..];
    assert all[1..] == s + t;
    FitPrefix(s, t);
    if u == [] {
      assert u + c == c;
    } else {
      assert s == u[1..] + c;
      FitPrefix(u[1..], c);
    }
  }

  lemma {:induction false} LocalSum(home: nat, a: seq<Bytes>, b: seq<Bytes>)
    requires (forall i :: 0 <= i < |a| ==> |a[i]| >= COOKIE) && (forall i :: 0 <= i < |b| ==> |b[i]| >= COOKIE)
    ensures LocalAll(home, a + b) == LocalAll(home, a) + LocalAll(home, b)
  {
    if a == [] {
      assert a + b == b;
    } else {
      LocalSum(home, a[1..], b);
      assert (a + b)[1..] == a[1..] + b;
    }
  }

  /** One more chunk: what it adds to the messages, and to what is left. */
  lemma NextReceived(u: Bytes, c: Bytes, home: nat)
    requires u != [] && Fit(u[1..] + c) && Fit(Left(4, u[1..]) + c)
    ensures (u + c)[0] == u[0] && (u + c)[1..] == u[1..] + c
    ensures var s, v := u[1..], Left(4, u[1..]) + c;
            && Sized(s) && Sized(v) && Sized(s + c)
            && Left(4, s + c) == Left(4, v) && (Short(4, s + c) <==> Short(4, v))
            && LocalAll(home, Accepted(4, s + c)) == LocalAll(home, Accepted(4, s)) + LocalAll(home, Accepted(4, v))
            && (!Short(4, s) ==> !Short(4, s + c) && Accepted(4, s + c) == Accepted(4, s))
  {
    hide Accepted, Left, LocalAll, Number;
    var s, v := u[1..], Left(4, u[1..]) + c;
    FitPrefix(s, c);
    hide Fit;
    FitPackets(s);
    FitPackets(v);
    FitPackets(s + c);
    ResumeAccepted(4, s, c);
    LocalSum(home, Accepted(4, s), Accepted(4, v));
    if !Short(4, s) {
      LongStays(4, s, c);
    }
  }

  ghost predicate Sized(s: Bytes) {
    forall i :: 0 <= i < |Accepted(4, s)| ==> |Accepted(4, s)[i]| >= COOKIE
  }

  /** What part of a stream, from u on, still has to give, once `out` has been forwarded; and what it comes to. */
  ghost predicate OnTrack(total: Bytes, u: Bytes, out: seq<Message>, home: nat, done: bool, down: bool) {
    && Sized(total)
    && if done then out == LocalAll(home, Accepted(4, total)) && (down <==> !Short(4, total))
       else
         && Fit(u) && Left(4, u) == Left(4, total) && Sized(u)
         && out + LocalAll(home, Accepted(4, u)) == LocalAll(home, Accepted(4, total))
  }

  /** The chunk is used up, or a header refuses the stream. */
  lemma Stopped(total: Bytes, u: Bytes, out: seq<Message>, home: nat, down: bool)
    requires OnTrack(total, u, out, home, false, false)
    requires if down then |u| >= 4 && u[0] != 0 else !Complete(4, u) && (|u| >= 4 ==> u[0] == 0)
    ensures OnTrack(total, Left(4, total), out + [], home, true, down) && (!down ==> Left(4, total) == u)
  {
    if |u| >= 4 { HeaderByte(u[..4]); }
    assert Accepted(4, u) == [] && out + [] == out;
  }

  lemma Advanced(total: Bytes, u: Bytes, out: seq<Message>, home: nat)
    requires OnTrack(total, u, out, home, false, false) && Complete(4, u) && u[0] == 0
    ensures |Frame(4, u)| >= COOKIE && OnTrack(total, Behind(4, u), out + [Local(home, Frame(4, u))], home, false, false)
  {
    HeaderByte(u[..4]);
    var v := Behind(4, u);
    FitPackets(v);
    assert Accepted(4, u)[0] == Frame(4, u) && Accepted(4, u)[1..] == Accepted(4, v);
    Assoc(out, [Local(home, Frame(4, u))], LocalAll(home, Accepted(4, v)));
  }

  /** The first byte of a header tells whether it announces 16M or more. */
  lemma HeaderByte(h: Bytes)
    requires |h| == 4
    ensures h[0] == 0 <==> Number(h) < TOO_LONG
  {
    var n := Number(h);
    NumberIs(h);
    assert Pow(256, 4) == 0x1_0000_0000;
    assert h[0] == Encoded(4, n)[0] == Encoded(3, n / 256)[0] == Encoded(2, n / 256 / 256)[0] == Encoded(1, n / 256 / 256 / 256)[0] == n / 256 / 256 / 256 % 256;
  }

  // ---------------------------------------------------------------- from one node to another

  /** header_to_message. */
  function Cookie(h: Header): (c: Bytes)
    ensures |c| == COOKIE
  {
    Encoded(4, h.source) + Encoded(4, h.destination) + Encoded(4, h.session)
  }

  /** send_remote, for a message of n bytes that it does not refuse. */
  function Sent(data: Bytes, h: Header): Bytes {
    Framed(4, data + Cookie(h))
  }

  predicate U32(n: nat) {
    n < 0x1_0000_0000
  }

  lemma CookieBack(data: Bytes, h: Header, home: nat)
    requires U32(h.source) && U32(h.destination) && U32(h.session)
    ensures Local(home, data + Cookie(h)) ==
            Message(h.source, h.destination % TOO_LONG + home * TOO_LONG, h.destination / TOO_LONG, h.session, data)
  {
    var m, n := data + Cookie(h), |data|;
    assert Pow(256, 4) == 0x1_0000_0000;
    EncodedIs(4, h.source);
    EncodedIs(4, h.destination);
    EncodedIs(4, h.session);
    assert m[n..n + 4] == Encoded(4, h.source) && m[n + 4..n + 8] == Encoded(4, h.destination) && m[n + 8..] == Encoded(4, h.session);
    assert m[..n] == data;
  }

  /** Four bytes from a place on, the first of them the highest. */
  function BigEndian(c: Bytes, i: nat): nat
    requires i + 4 <= |c|
  {
    (c[i] as int) * 0x100_0000 + (c[i + 1] as int) * 0x1_0000 + (c[i + 2] as int) * 0x100 + c[i + 3] as int
  }

  /** Source, destination and session, in this order. */
  lemma CookieBytes(h: Header)
    requires U32(h.source) && U32(h.destination) && U32(h.session)
    ensures BigEndian(Cookie(h), 0) == h.source && BigEndian(Cookie(h), 4) == h.destination && BigEndian(Cookie(h), 8) == h.session
  {
    assert Pow(256, 4) == 0x1_0000_0000;
    var c := Cookie(h);
    FourBytes(c, 0, h.source);
    FourBytes(c, 4, h.destination);
    FourBytes(c, 8, h.session);
  }

  lemma FourBytes(c: Bytes, i: nat, n: nat)
    requires U32(n) && i + 4 <= |c| && c[i..i + 4] == Encoded(4, n)
    ensures BigEndian(c, i) == n
  {
    assert Pow(256, 4) == 0x1_0000_0000;
    EncodedIs(4, n);
    HeaderNumber(c[i..i + 4]);
  }

  /** The header remote_send_handle makes for a message of some kind to a handle of another node. */
  function HeaderFor(source: nat, handle: nat, kind: nat, session: nat): Header {
    Header(source, handle % TOO_LONG + kind * TOO_LONG, session)
  }

  /**
    A message that is sent to a handle of the node `home` is forwarded there to that handle, exactly if
    it and its cookie stay below 16M; send_remote itself refuses only from 4G on, and the other node
    closes the connection on what is in between.
   */
  lemma SentArrives(data: Bytes, source: nat, handle: nat, kind: nat, session: nat, home: nat)
    requires U32(source) && U32(handle) && U32(session) && kind < 256 && U32(|data| + COOKIE)
    requires handle / TOO_LONG == home
    ensures var s := Sent(data, HeaderFor(source, handle, kind, session));
            && (|data| + COOKIE < TOO_LONG <==> Short(4, s))
            && (|data| + COOKIE < TOO_LONG ==>
                  Fit(s) && Left(4, s) == [] && Sized(s) && LocalAll(home, Accepted(4, s)) == [Message(source, handle, kind, session, data)])
  {
    var h := HeaderFor(source, handle, kind, session);
    HandleParts(handle, kind);
    CookieBack(data, h, home);
    SentFrame(data, h);
    var ps := [data + Cookie(h)];
    assert LocalAll(home, ps) == [Local(home, ps[0])] + LocalAll(home, ps[1..]);
  }

  lemma HandleParts(handle: nat, kind: nat)
    requires U32(handle) && kind < 256
    ensures var d := handle % TOO_LONG + kind * TOO_LONG;
            U32(d) && d % TOO_LONG == handle % TOO_LONG && d / TOO_LONG == kind
    ensures handle % TOO_LONG + handle / TOO_LONG * TOO_LONG == handle
  {
  }

  /** What is written for one message is one frame. */
  lemma SentFrame(data: Bytes, h: Header)
    requires U32(|data| + COOKIE)
    ensures var s := Sent(data, h);
            && (|data| + COOKIE < TOO_LONG <==> Short(4, s))
            && (|data| + COOKIE < TOO_LONG ==> Fit(s) && Left(4, s) == [] && Accepted(4, s) == [data + Cookie(h)])
  {
    var m, s := data + Cookie(h), Sent(data, h);
    assert Pow(256, 4) == 0x1_0000_0000;
    OneFrame(4, m);
    EncodedIs(4, |m|);
    assert s[..4] == Encoded(4, |m|);
    assert Frame(4, s) == m && Behind(4, s) == [];
    assert Left(4, []) == [] && Accepted(4, []) == [];
    assert Left(4, s) == if |m| < TOO_LONG then Left(4, []) else s;
  }

  /** However its bytes are cut, the message arrives at the handle it was sent to, whatever the numbers of the two nodes. */
  method Deliver(h: Slave, chunks: seq<Bytes>, data: Bytes, source: nat, handle: nat, kind: nat, session: nat) returns (out: seq<Message>)
    requires h.Valid() && h.status == Handshake && handle / TOO_LONG == h.home
    requires U32(source) && U32(handle) && U32(session) && kind < 256 && |data| + COOKIE < TOO_LONG
    requires chunks != [] && forall i :: 0 <= i < |chunks| ==> chunks[i] != []
    requires Flat(chunks) == [h.peer] + Sent(data, HeaderFor(source, handle, kind, session))
    modifies h
    ensures out == [Message(source, handle, kind, session, data)] && h.status != Down
  {
    hide Fit, Short, Flat, Accepted, Left, LocalAll, Sent;
    SentArrives(data, source, handle, kind, session, h.home);
    assert Flat(chunks)[1..] == Sent(data, HeaderFor(source, handle, kind, session));
    out := PushAll(h, chunks);
  }
}

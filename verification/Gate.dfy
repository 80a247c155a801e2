/**
  The gate (service_gate.c) over its data buffers (databuffer.h): a connection's chunks in a list,
  read frame by frame and forwarded.
 */
module Gate {
  import opened Common
  import opened Framing

  lemma CutBehind(out: Bytes, rest: Bytes, all: Bytes)
    requires all == out + rest
    ensures out == all[..|out|] && rest == all[|out|..]
  {
  }

  /** Taking `sz` bytes that lie inside the first buffer. */
  lemma TakeInside(out: Bytes, list: seq<Bytes>, offset: int, sz: int, all: Bytes)
    requires list != [] && 0 <= offset <= |Flat(list)| && 0 <= sz <= |list[0]| - offset && all == out + Flat(list)[offset..]
    ensures |out| + sz <= |all| && out + list[0][offset..offset + sz] == all[..|out| + sz]
    ensures offset + sz <= |Flat(list)| && Flat(list)[offset + sz..] == all[|out| + sz..]
  {
    HeadFirst(list, offset);
    CutInside(out, list[0], offset, sz, Flat(list[1..]), all);
    HeadFirst(list, offset + sz);
  }

  /** Taking all that is left of the first buffer. */
  lemma TakeWhole(out: Bytes, list: seq<Bytes>, offset: int, all: Bytes)
    requires list != [] && 0 <= offset <= |Flat(list)| && offset <= |list[0]| && all == out + Flat(list)[offset..]
    ensures all == out + list[0][offset..] + Flat(list[1..])[0..]
    ensures var m := |out| + |list[0]| - offset; m <= |all| && out + list[0][offset..] == all[..m] && Flat(list[1..])[0..] == all[m..]
  {
    HeadFirst(list, offset);
    CutWhole(out, list[0], offset, Flat(list[1..]), all);
  }

  /** A connection's struct databuffer, its messages as a list of their buffers. `header` is a C int. */
  class DataBuffer {
    var header: int
    var offset: int
    var size: int
    var list: seq<Bytes>

    /** The bytes pushed and not yet read. */
    ghost function Content(): Bytes
      reads this
      requires 0 <= offset <= |Flat(list)|
    {
      Flat(list)[offset..]
    }

    ghost predicate Valid()
      reads this
    {
      && 0 <= offset <= |Flat(list)| && size == |Flat(list)| - offset
      && (forall i :: 0 <= i < |list| ==> list[i] != [])
      && (if list == [] then offset == 0 else offset < |list[0]|)
    }

    constructor ()
      ensures Valid() && Content() == [] && header == 0
    {
      header, offset, size, list := 0, 0, 0, [];
    }

    /** databuffer_push. */
    method Push(data: Bytes)
      requires Valid() && data != []
      modifies this`list, this`size
      ensures Valid() && Content() == old(Content()) + data
    {
      assert (list + [data])[..|list|] == list;
      list := list + [data];
      size := size + |data|;
    }

    /** databuffer_read: from one buffer, or across several. */
    method Read(n: int) returns (out: Bytes)
      requires Valid() && 1 <= n <= size
      modifies this`offset, this`size, this`list
      ensures Valid() && out == old(Content())[..n] && Content() == old(Content())[n..]
    {
      hide Flat;
      FlatNone();
      ghost var all := Content();
      size := size - n;
      out := [];
      var sz := n;
      while true
        invariant 1 <= sz <= n && sz == n - |out| && size == |all| - n >= 0
        invariant 0 <= offset <= |Flat(list)| && (if list == [] then offset == 0 else offset < |list[0]|)
        invariant all == out + Content() && (forall i :: 0 <= i < |list| ==> list[i] != [])
        decreases |list|
      {
        var bsz := |list[0]| - offset;
        if bsz > sz {
          TakeInside(out, list, offset, sz, all);
          out := out + list[0][offset..offset + sz];
          offset := offset + sz;
          CutBehind(out, Content(), all);
          return;
        }
        TakeWhole(out, list, offset, all);
        out := out + list[0][offset..];
        list := list[1..];
        offset := 0;
        if bsz == sz {
          CutBehind(out, Content(), all);
          return;
        }
        sz := sz - bsz;
      }
    }

    /** The stream from the frame that is being read on, its header included. */
    ghost function Unparsed(hs: nat): Bytes
      reads this
      requires Valid()
    {
      (if header == 0 then [] else Encoded(hs, Unsigned(header))) + Content()
    }

    ghost predicate Ready(hs: nat)
      reads this
    {
      Valid() && 2 <= hs <= 4 && -INT_LIMIT <= header < INT_LIMIT && Unsigned(header) < Pow(256, hs)
    }

    /** databuffer_readheader. A header of four bytes with the top bit set is a negative int. */
    method ReadHeader(hs: nat) returns (n: int)
      requires Ready(hs)
      modifies this
      ensures Ready(hs)
      ensures n < 0 ==> Unparsed(hs) == old(Unparsed(hs)) && !Readable(hs, Unparsed(hs))
      ensures n >= 0 ==> Readable(hs, old(Unparsed(hs))) && n == header == Number(old(Unparsed(hs))[..hs]) && Content() == old(Unparsed(hs))[hs..]
    {
      hide Flat, Number, Encoded;
      ghost var u := Unparsed(hs);
      if header == 0 {
        if size < hs {
          return -1;
        }
        var plen := Read(hs);
        header := HeaderOf(plen);
        NumberIs(plen);
        assert u == plen + Content();
      } else {
        EncodedIs(hs, Unsigned(header));
      }
      assert u[..hs] == Encoded(hs, Unsigned(header)) && u[hs..] == Content();
      if size < header {
        return -1;
      }
      return header;
    }

    /** databuffer_clear. */
    method Clear()
      modifies this
      ensures Valid() && header == 0 && Content() == []
    {
      header, offset, size, list := 0, 0, 0, [];
    }

    /** databuffer_reset. */
    method Reset()
      requires Valid()
      modifies this`header
      ensures Valid() && header == 0 && Content() == old(Content())
    {
      header := 0;
    }
  }

  const INT_LIMIT := 0x8000_0000

  /** The bits of an int as an unsigned number. */
  function Unsigned(n: int): nat {
    n % 0x1_0000_0000
  }

  /** A frame that databuffer_readheader reports: it is all there, and its length is not negative as an int. */
  predicate Readable(hs: nat, s: Bytes) {
    Complete(hs, s) && Number(s[..hs]) < INT_LIMIT
  }

  /** The header as databuffer_readheader puts it together. */
  method HeaderOf(plen: Bytes) returns (n: int)
    requires 2 <= |plen| <= 4
    ensures n == IntOf(Number(plen)) && Unsigned(n) == Number(plen) && -INT_LIMIT <= n < INT_LIMIT
  {
    HeaderNumber(plen);
    if |plen| == 2 {
      n := (plen[0] as int) * 0x100 + plen[1] as int;
    } else if |plen| == 3 {
      n := (plen[0] as int) * 0x1_0000 + (plen[1] as int) * 0x100 + plen[2] as int;
    } else {
      n := IntOf((plen[0] as int) * 0x100_0000 + (plen[1] as int) * 0x1_0000 + (plen[2] as int) * 0x100 + plen[3] as int);
    }
  }

  /** Where a connection's packets go. */
  datatype Receiver = Discard | Broker | Agent | Watchdog | Nobody

  function NonEmpty(ps: seq<Bytes>): seq<Bytes> {
    if ps == [] then [] else (if ps[0] == [] then [] else [ps[0]]) + NonEmpty(ps[1..])
  }

  /** _forward: the packet is read, and sent unless the connection's input is discarded. With no receiver it is not even read. */
  method Forward(b: DataBuffer, to: Receiver, n: int) returns (sent: seq<Bytes>)
    requires b.Valid() && 1 <= n <= b.size
    modifies b`offset, b`size, b`list
    ensures b.Valid()
    ensures to == Nobody ==> sent == [] && b.Content() == old(b.Content())
    ensures to != Nobody ==> b.Content() == old(b.Content())[n..]
    ensures to == Discard ==> sent == []
    ensures to != Nobody && to != Discard ==> sent == [old(b.Content())[..n]]
  {
    sent := [];
    if to == Discard {
      var size := n;
      ghost var c := b.Content();
      while size > 4096
        invariant 1 <= size <= n && size <= b.size && b.Valid() && b.Content() == c[n - size..]
        modifies b`offset, b`size, b`list
      {
        var skipped := b.Read(4096);
        size := size - 4096;
      }
      var last := b.Read(size);
    } else if to != Nobody {
      var packet := b.Read(n);
      sent := [packet];
    }
  }

  /** What is left of a stream when headers are taken off it and nothing else. */
  function Misread(hs: nat, s: Bytes): (r: Bytes)
    requires hs > 0
    ensures |r| <= |s|
    decreases |s|
  {
    if Takes(hs, s) then Misread(hs, s[hs..]) else s
  }

  /** What is left of a stream after as much of it as there is has been dealt with. */
  function Stays(hs: nat, to: Receiver, s: Bytes): Bytes
    requires hs > 0
  {
    if to == Nobody then Misread(hs, s) else Left(hs, s)
  }

  function Sends(hs: nat, to: Receiver, s: Bytes): seq<Bytes>
    requires hs > 0
  {
    if to == Nobody || to == Discard then [] else NonEmpty(Accepted(hs, s))
  }

  /** A frame of 16M or more, all of it, for which the connection is closed. */
  predicate Oversized(hs: nat, s: Bytes) {
    Readable(hs, s) && Number(s[..hs]) >= TOO_LONG
  }

  /** Part of a stream has been dealt with: what has been sent and what is left amount to all of it. */
  ghost predicate InStep(hs: nat, to: Receiver, total: Bytes, u: Bytes, sent: seq<Bytes>)
    requires hs > 0
  {
    Stays(hs, to, u) == Stays(hs, to, total) && sent + Sends(hs, to, u) == Sends(hs, to, total)
  }

  lemma FirstStep(hs: nat, to: Receiver, total: Bytes)
    requires hs > 0
    ensures InStep(hs, to, total, total, [])
  {
    assert [] + Sends(hs, to, total) == Sends(hs, to, total);
  }

  lemma FrontFrame(hs: nat, u: Bytes, c: Bytes, n: nat)
    requires hs > 0 && Takes(hs, u) && c == u[hs..] && n == Number(u[..hs])
    ensures n <= |c| && Accepted(hs, u) == [c[..n]] + Accepted(hs, c[n..]) && Left(hs, u) == Left(hs, c[n..])
  {
    assert Frame(hs, u) == c[..n] && Behind(hs, u) == c[n..];
  }

  /** What a frame at the front adds to what is sent. */
  lemma FrontSent(hs: nat, to: Receiver, u: Bytes, c: Bytes, n: nat)
    requires hs > 0 && Takes(hs, u) && c == u[hs..] && n == Number(u[..hs]) && to != Nobody
    ensures n <= |c| && Stays(hs, to, u) == Stays(hs, to, c[n..])
    ensures Sends(hs, to, u) == (if n == 0 || to == Discard then [] else [c[..n]]) + Sends(hs, to, c[n..])
  {
    hide Number, Takes, Accepted, Left;
    FrontFrame(hs, u, c, n);
    assert Accepted(hs, u)[1..] == Accepted(hs, c[n..]);
  }

  /** One frame taken off a stream. */
  lemma FrameTurn(hs: nat, to: Receiver, total: Bytes, u: Bytes, c: Bytes, n: nat, sent: seq<Bytes>)
    requires hs > 0 && Takes(hs, u) && c == u[hs..] && n == Number(u[..hs]) && InStep(hs, to, total, u, sent)
    ensures n <= |c|
    ensures n == 0 ==> InStep(hs, to, total, c, sent)
    ensures InStep(hs, to, total, if to == Nobody then c else c[n..], if n == 0 || to == Nobody || to == Discard then sent else sent + [c[..n]])
  {
    hide Number, Takes, Accepted, Left;
    FrontFrame(hs, u, c, n);
    assert n == 0 ==> c[n..] == c;
    if to != Nobody {
      hide Sends, Stays;
      FrontSent(hs, to, u, c, n);
      Assoc(sent, if n == 0 || to == Discard then [] else [c[..n]], Sends(hs, to, c[n..]));
      assert sent + [] == sent;
    }
  }

  lemma AllDone(hs: nat, to: Receiver, total: Bytes, u: Bytes, sent: seq<Bytes>)
    requires hs > 0 && InStep(hs, to, total, u, sent) && !Takes(hs, u)
    ensures u == Stays(hs, to, total) && sent == Sends(hs, to, total)
  {
    assert Accepted(hs, u) == [] && sent + [] == sent;
  }

  /** A header of two or three bytes never announces 16M, so there every packet is accepted. */
  lemma ShortHeaders(hs: nat, s: Bytes)
    requires 0 < hs <= 3
    ensures Accepted(hs, s) == Packets(hs, s) && Left(hs, s) == Rest(hs, s) && !Oversized(hs, s)
  {
    assert Pow(256, 3) == TOO_LONG && Pow(256, 2) < TOO_LONG && Pow(256, 1) < TOO_LONG;
    if hs <= |s| { NumberIs(s[..hs]); }
    if hs <= |Left(hs, s)| { NumberIs(Left(hs, s)[..hs]); }
    ShortIsAll(hs, s);
  }

  /**
    dispatch_message: every packet that is complete goes to the receiver, empty ones aside, and the
    rest is kept. One of 16M or more closes the connection once it is complete. With no receiver,
    packets are left in the stream and read as headers.
   */
  method Dispatch(b: DataBuffer, hs: nat, to: Receiver, data: Bytes) returns (sent: seq<Bytes>, closed: bool)
    requires b.Ready(hs) && data != []
    modifies b
    ensures b.Ready(hs)
    ensures sent == Sends(hs, to, old(b.Unparsed(hs)) + data)
    ensures closed <==> Oversized(hs, Stays(hs, to, old(b.Unparsed(hs)) + data))
    ensures b.Unparsed(hs) == if closed then [] else Stays(hs, to, old(b.Unparsed(hs)) + data)
  {
    hide Sends, Stays, InStep;
    ghost var total := b.Unparsed(hs) + data;
    b.Push(data);
    assert b.Unparsed(hs) == total;
    sent, closed := [], false;
    FirstStep(hs, to, total);
    while true
      invariant b.Ready(hs) && InStep(hs, to, total, b.Unparsed(hs), sent) && !closed
      decreases |b.Unparsed(hs)|
    {
      hide Flat, Encoded, Number, Accepted, Left, Misread;
      ghost var u := b.Unparsed(hs);
      var size := b.ReadHeader(hs);
      if size < 0 {
        AllDone(hs, to, total, u, sent);
        return;
      }
      if size >= TOO_LONG {
        AllDone(hs, to, total, u, sent);
        b.Clear();
        closed := true;
        return;
      }
      FrameTurn(hs, to, total, u, b.Content(), size, sent);
      if size > 0 {
        var s := Forward(b, to, size);
        b.Reset();
        assert to == Nobody || to == Discard ==> sent + s == sent;
        sent := sent + s;
      }
      assert b.Unparsed(hs) == b.Content();
    }
  }

  /** After a chunk that closes the connection nothing more is taken; otherwise parsing goes on with what is left. */
  lemma StaysOn(hs: nat, s: Bytes, t: Bytes)
    requires hs > 0
    ensures Accepted(hs, s + t) == Accepted(hs, s) + Accepted(hs, Left(hs, s) + t)
    ensures Left(hs, s + t) == Left(hs, Left(hs, s) + t)
    ensures Oversized(hs, Left(hs, s)) ==> Accepted(hs, s + t) == Accepted(hs, s) && Oversized(hs, Left(hs, s + t))
  {
    ResumeAccepted(hs, s, t);
    if Oversized(hs, Left(hs, s)) {
      LongStays(hs, s, t);
      CompleteStays(hs, Left(hs, s), t);
      assert (Left(hs, s) + t)[..hs] == Left(hs, s)[..hs];
    }
  }

  /** Every packet but the empty ones. */
  lemma {:induction false} NonEmptyIs(ps: seq<Bytes>)
    ensures multiset(NonEmpty(ps)) == multiset(ps)[[] := 0]
  {
    if ps != [] {
      NonEmptyIs(ps[1..]);
      assert ps == [ps[0]] + ps[1..];
    }
  }

  lemma {:induction false} NonEmptySum(a: seq<Bytes>, b: seq<Bytes>)
    ensures NonEmpty(a + b) == NonEmpty(a) + NonEmpty(b)
  {
    if a == [] {
      assert a + b == b;
    } else {
      NonEmptySum(a[1..], b);
      assert (a + b)[1..] == a[1..] + b;
      Assoc(if a[0] == [] then [] else [a[0]], NonEmpty(a[1..]), NonEmpty(b));
    }
  }

  // ---------------------------------------------------------------- chunk after chunk

  /** What is in the buffer after some chunks: a close empties it, and further chunks are parsed from there. */
  ghost function Kept(hs: nat, chunks: seq<Bytes>): Bytes
    requires hs > 0
  {
    if chunks == [] then [] else
      var left := Left(hs, Kept(hs, chunks[..|chunks| - 1]) + chunks[|chunks| - 1]);
      if Oversized(hs, left) then [] else left
  }

  /** What one chunk completes. */
  ghost function SentAt(hs: nat, to: Receiver, chunks: seq<Bytes>, i: nat): seq<Bytes>
    requires hs > 0 && i < |chunks|
  {
    Sends(hs, to, Kept(hs, chunks[..i]) + chunks[i])
  }

  ghost function SentAll(hs: nat, to: Receiver, chunks: seq<Bytes>): seq<Bytes>
    requires hs > 0
  {
    if chunks == [] then [] else
      SentAll(hs, to, chunks[..|chunks| - 1]) + SentAt(hs, to, chunks, |chunks| - 1)
  }

  /** A packet of 16M or more is complete in these chunks, taken as one stream. */
  ghost predicate Closing(hs: nat, chunks: seq<Bytes>)
    requires hs > 0
  {
    Oversized(hs, Left(hs, Flat(chunks)))
  }

  /** dispatch_message for one chunk after another. Asking for the close does not stop it. */
  method DispatchAll(hs: nat, to: Receiver, chunks: seq<Bytes>) returns (sent: seq<Bytes>, asked: bool)
    requires 2 <= hs <= 4 && to != Nobody && forall i :: 0 <= i < |chunks| ==> chunks[i] != []
    ensures sent == SentAll(hs, to, chunks) && (asked <==> Closing(hs, chunks))
    ensures !asked ==> sent == Sends(hs, to, Flat(chunks))
    ensures hs <= 3 ==> !asked && sent == if to == Discard then [] else NonEmpty(Packets(hs, Flat(chunks)))
  {
    hide Flat, Number, Accepted, Left, NonEmpty, Sends, Oversized, Packets, Stays, Kept, SentAll, SentAt, Closing, Pow, Encoded;
    NothingKept(hs, to);
    var b := new DataBuffer();
    PowersGrow(hs);
    sent, asked := [], false;
    var i := 0;
    while i < |chunks|
      invariant 0 <= i <= |chunks| && b.Ready(hs) && fresh(b) && b.Unparsed(hs) == Kept(hs, chunks[..i])
      invariant sent == SentAll(hs, to, chunks[..i]) && (asked <==> Closing(hs, chunks[..i]))
    {
      ghost var c := chunks[..i + 1];
      assert c[..i] == chunks[..i] && c[i] == chunks[i];
      KeptIs(hs, to, c, i);
      var more, closed := Dispatch(b, hs, to, chunks[i]);
      sent, asked := sent + more, asked || closed;
      i := i + 1;
    }
    assert chunks[..|chunks|] == chunks;
    NothingClosed(hs, to, chunks);
  }

  lemma NothingKept(hs: nat, to: Receiver)
    requires hs > 0
    ensures var none: seq<Bytes> := []; Kept(hs, none) == [] && SentAll(hs, to, none) == [] && !Closing(hs, none)
  {
    NothingYet(hs);
  }

  lemma NothingClosed(hs: nat, to: Receiver, chunks: seq<Bytes>)
    requires hs > 0 && to != Nobody
    ensures !Closing(hs, chunks) ==> SentAll(hs, to, chunks) == Sends(hs, to, Flat(chunks))
    ensures hs <= 3 ==> !Closing(hs, chunks) && Sends(hs, to, Flat(chunks)) == if to == Discard then [] else NonEmpty(Packets(hs, Flat(chunks)))
  {
    if !Closing(hs, chunks) { Together(hs, to, chunks); }
    if hs <= 3 {
      ShortHeaders(hs, Flat(chunks));
      ShortHeaders(hs, Left(hs, Flat(chunks)));
      ShortSends(hs, to, Flat(chunks));
    }
  }

  lemma ShortSends(hs: nat, to: Receiver, s: Bytes)
    requires 0 < hs <= 3 && to != Nobody
    ensures Sends(hs, to, s) == if to == Discard then [] else NonEmpty(Packets(hs, s))
  {
    ShortHeaders(hs, s);
  }

  lemma SendsSum(hs: nat, to: Receiver, s: Bytes, t: Bytes)
    requires hs > 0 && to != Nobody
    ensures Sends(hs, to, s + t) == Sends(hs, to, s) + Sends(hs, to, Left(hs, s) + t)
    ensures Oversized(hs, Left(hs, s)) ==> Sends(hs, to, s + t) == Sends(hs, to, s) && Oversized(hs, Left(hs, s + t))
  {
    StaysOn(hs, s, t);
    NonEmptySum(Accepted(hs, s), Accepted(hs, Left(hs, s) + t));
  }

  /** As long as nothing closes, parsing chunk after chunk is parsing the whole. */
  lemma {:induction false} Together(hs: nat, to: Receiver, chunks: seq<Bytes>)
    requires hs > 0 && to != Nobody && !Closing(hs, chunks)
    ensures Kept(hs, chunks) == Left(hs, Flat(chunks)) && SentAll(hs, to, chunks) == Sends(hs, to, Flat(chunks))
    decreases |chunks|
  {
    if chunks == [] {
      NothingYet(hs);
    } else {
      hide Flat, Accepted, Left, Sends, Oversized;
      var n := |chunks| - 1;
      var u, c := Flat(chunks[..n]), chunks[n];
      assert chunks[..n + 1] == chunks;
      FlatNext(chunks, n);
      SendsSum(hs, to, u, c);
      StaysOn(hs, u, c);
      Together(hs, to, chunks[..n]);
    }
  }

  /** What the next chunk does: the stream closes with it, or had closed before, or goes on. */
  lemma KeptIs(hs: nat, to: Receiver, c: seq<Bytes>, i: nat)
    requires hs > 0 && to != Nobody && i == |c| - 1
    ensures var t := Kept(hs, c[..i]) + c[i];
            && Stays(hs, to, t) == Left(hs, t) && Kept(hs, c) == (if Oversized(hs, Left(hs, t)) then [] else Left(hs, t))
            && SentAll(hs, to, c) == SentAll(hs, to, c[..i]) + Sends(hs, to, t)
            && (Closing(hs, c) <==> Closing(hs, c[..i]) || Oversized(hs, Left(hs, t)))
  {
    assert c[..i + 1] == c;
    FlatNext(c, i);
    SendsSum(hs, to, Flat(c[..i]), c[i]);
    StaysOn(hs, Flat(c[..i]), c[i]);
    if !Closing(hs, c[..i]) { Together(hs, to, c[..i]); }
  }

  /** What is sent for chunks that come when the close has been asked for. */
  ghost function SentBehind(hs: nat, to: Receiver, chunks: seq<Bytes>): seq<Bytes>
    requires hs > 0
  {
    if chunks == [] then [] else
      var n := |chunks| - 1;
      SentBehind(hs, to, chunks[..n]) + if Closing(hs, chunks[..n]) then SentAt(hs, to, chunks, n) else []
  }

  lemma {:induction false} NoneBehind(hs: nat, to: Receiver, chunks: seq<Bytes>)
    requires hs > 0 && to != Nobody && !Closing(hs, chunks)
    ensures SentBehind(hs, to, chunks) == []
    decreases |chunks|
  {
    if chunks != [] {
      KeptIs(hs, to, chunks, |chunks| - 1);
      NoneBehind(hs, to, chunks[..|chunks| - 1]);
    }
  }

  /** Chunk after chunk, the receiver gets what the whole stream sends up to the close, and then what is sent behind it. */
  lemma {:induction false} WholeStream(hs: nat, to: Receiver, chunks: seq<Bytes>)
    requires hs > 0 && to != Nobody
    ensures SentAll(hs, to, chunks) == Sends(hs, to, Flat(chunks)) + SentBehind(hs, to, chunks)
    decreases |chunks|
  {
    if !Closing(hs, chunks) {
      Together(hs, to, chunks);
      NoneBehind(hs, to, chunks);
    } else if chunks == [] {
      NothingYet(hs);
    } else {
      hide Flat, Accepted, Left, Sends, Oversized;
      var n := |chunks| - 1;
      var u, c, last := Flat(chunks[..n]), chunks[n], SentAt(hs, to, chunks, n);
      assert chunks[..n + 1] == chunks;
      FlatNext(chunks, n);
      SendsSum(hs, to, u, c);
      if Closing(hs, chunks[..n]) {
        WholeStream(hs, to, chunks[..n]);
        Assoc(Sends(hs, to, u), SentBehind(hs, to, chunks[..n]), last);
      } else {
        Together(hs, to, chunks[..n]);
        NoneBehind(hs, to, chunks[..n]);
      }
    }
  }

  /** The index behind the chunk that completes the packet of 16M or more. */
  ghost function PastClose(hs: nat, chunks: seq<Bytes>): (j: nat)
    requires hs > 0 && Closing(hs, chunks)
    ensures 0 < j <= |chunks| && Closing(hs, chunks[..j]) && !Closing(hs, chunks[..j - 1])
    decreases |chunks|
  {
    NothingYet(hs);
    var n := |chunks| - 1;
    assert chunks[..n + 1] == chunks;
    if n >= 0 && Closing(hs, chunks[..n]) then
      var j := PastClose(hs, chunks[..n]);
      assert chunks[..n][..j] == chunks[..j] && chunks[..n][..j - 1] == chunks[..j - 1];
      j
    else |chunks|
  }

  /** Behind the chunk that closes, parsing starts afresh. */
  lemma {:induction false} Afresh(hs: nat, to: Receiver, chunks: seq<Bytes>, j: nat)
    requires hs > 0 && to != Nobody && 0 < j <= |chunks| && Closing(hs, chunks[..j]) && !Closing(hs, chunks[..j - 1])
    ensures Closing(hs, chunks) && Kept(hs, chunks) == Kept(hs, chunks[j..]) && SentBehind(hs, to, chunks) == SentAll(hs, to, chunks[j..])
    decreases |chunks|
  {
    hide Flat, Accepted, Left, Sends, Stays, Oversized, Kept, SentAll, Closing;
    var n := |chunks| - 1;
    KeptIs(hs, to, chunks, n);
    assert chunks[..n + 1] == chunks;
    if j <= n {
      var rest := chunks[j..];
      assert chunks[..n][..j] == chunks[..j] && chunks[..n][..j - 1] == chunks[..j - 1] && chunks[..n][j..] == rest[..n - j];
      Afresh(hs, to, chunks[..n], j);
      assert rest[n - j] == chunks[n] && |rest| == n - j + 1;
      KeptIs(hs, to, rest, n - j);
    } else {
      assert chunks[j..] == [];
      NothingKept(hs, to);
      NoneBehind(hs, to, chunks[..n]);
    }
  }

  /** Read as a stream, and again behind each packet of 16M or more, these chunks complete no packet that is sent. */
  ghost predicate Silent(hs: nat, to: Receiver, chunks: seq<Bytes>)
    requires hs > 0
    decreases |chunks|
  {
    Sends(hs, to, Flat(chunks)) == [] && (Closing(hs, chunks) ==> Silent(hs, to, chunks[PastClose(hs, chunks)..]))
  }

  lemma {:induction false} SilentIs(hs: nat, to: Receiver, chunks: seq<Bytes>)
    requires hs > 0 && to != Nobody
    ensures SentAll(hs, to, chunks) == [] <==> Silent(hs, to, chunks)
    decreases |chunks|
  {
    WholeStream(hs, to, chunks);
    if Closing(hs, chunks) {
      var j := PastClose(hs, chunks);
      Afresh(hs, to, chunks, j);
      SilentIs(hs, to, chunks[j..]);
    } else {
      NoneBehind(hs, to, chunks);
    }
  }

  /** So that is all exactly if the chunks behind the one that closes, as a stream of their own, complete no packet that is sent. */
  lemma ClosedInTime(hs: nat, to: Receiver, chunks: seq<Bytes>)
    requires hs > 0 && to != Nobody
    ensures SentAll(hs, to, chunks) == Sends(hs, to, Flat(chunks)) <==>
              !Closing(hs, chunks) || Silent(hs, to, chunks[PastClose(hs, chunks)..])
  {
    WholeStream(hs, to, chunks);
    if Closing(hs, chunks) {
      var j := PastClose(hs, chunks);
      Afresh(hs, to, chunks, j);
      SilentIs(hs, to, chunks[j..]);
    } else {
      NoneBehind(hs, to, chunks);
    }
  }

  function Zeros(n: nat): (z: Bytes)
    ensures |z| == n && forall i :: 0 <= i < n ==> z[i] == 0
  {
    seq(n, i => 0)
  }

  lemma LongPacket() returns (big: Bytes)
    ensures big == [1, 0, 0, 0] + Zeros(TOO_LONG) && Oversized(4, Left(4, big)) && Accepted(4, big) == [] && Left(4, big) == big
  {
    big := [1, 0, 0, 0] + Zeros(TOO_LONG);
    assert big[..4] == [1, 0, 0, 0];
    HeaderNumber(big[..4]);
  }

  lemma OneByte()
    ensures var d: Bytes := [0, 0, 0, 1, 7]; Accepted(4, d) == [[7]] && Left(4, d) == []
  {
    var d: Bytes := [0, 0, 0, 1, 7];
    assert d[..4] == [0, 0, 0, 1];
    HeaderNumber(d[..4]);
    assert Takes(4, d) && Frame(4, d) == [7] && Behind(4, d) == [];
    assert !Takes(4, []);
  }

  /** A packet of 16M closes the connection, and one that comes in the next chunk is forwarded all the same. */
  lemma ReadAgain() returns (chunks: seq<Bytes>)
    ensures chunks == [[1, 0, 0, 0] + Zeros(TOO_LONG), [0, 0, 0, 1, 7]]
    ensures Sends(4, Agent, Flat(chunks)) == [] && SentAll(4, Agent, chunks) == [[7]]
  {
    var big := LongPacket();
    OneByte();
    var d: Bytes := [0, 0, 0, 1, 7];
    chunks := [big, d];
    hide Accepted, Left, Oversized, Flat;
    var first: seq<Bytes> := [big];
    assert chunks[..1] == first && chunks[..0] == [] && chunks[..2] == chunks && first[..0] == [];
    NothingYet(4);
    FlatNext(chunks, 0);
    FlatNext(chunks, 1);
    assert [] + big == big && [] + d == d;
    StaysOn(4, big, d);
    assert SentAt(4, Agent, first, 0) == Sends(4, Agent, big) == [];
    assert SentAll(4, Agent, first[..0]) == [];
    assert Kept(4, first) == [] && SentAll(4, Agent, first) == [];
    assert SentAt(4, Agent, chunks, 1) == [[7]];
  }

  lemma NothingYet(hs: nat)
    requires hs > 0
    ensures Flat([]) == [] && Accepted(hs, []) == [] && Left(hs, []) == [] && NonEmpty([]) == [] && !Oversized(hs, [])
  {
  }

  lemma PowersGrow(hs: nat)
    ensures Pow(256, hs) > 0
  {
    if hs > 0 { PowersGrow(hs - 1); }
  }

  /** A frame that nobody receives puts the connection out of step: its bytes are taken for the next header. */
  lemma OutOfStep()
    ensures Rest(2, [0, 2, 0, 9]) == [] && Misread(2, [0, 2, 0, 9]) == [0, 9]
    ensures Packets(2, [0, 2, 0, 9]) == [[0, 9]]
  {
    var s: Bytes := [0, 2, 0, 9];
    HeaderNumber(s[..2]);
    HeaderNumber([0, 9]);
    assert s[..2] == [0, 2] && s[2..] == [0, 9] && s[2..4] == [0, 9] && s[4..] == [];
    assert Frame(2, s) == [0, 9] && Behind(2, s) == [];
    var t: Bytes := [0, 9];
    assert t[..2] == t;
    assert !Complete(2, []);
  }

  /** What dispatch_message promises of a chunk: the packets it completes are sent, and the stream stays in step. */
  predicate Promised(hs: nat, s: Bytes, sent: seq<Bytes>, left: Bytes)
    requires hs > 0
  {
    sent == NonEmpty(Accepted(hs, s)) && left == Left(hs, s)
  }

  /** Without a receiver the promise is kept exactly when nothing but empty frames is completed. */
  lemma {:induction false} NobodyNeeded(hs: nat, s: Bytes)
    requires hs > 0
    ensures Promised(hs, s, [], Misread(hs, s)) <==> NonEmpty(Accepted(hs, s)) == []
    decreases |s|
  {
    if Takes(hs, s) {
      var p := Accepted(hs, s);
      assert p[0] == Frame(hs, s) && p[1..] == Accepted(hs, Behind(hs, s));
      if Number(s[..hs]) == 0 {
        assert Behind(hs, s) == s[hs..];
        NobodyNeeded(hs, s[hs..]);
      }
    }
  }

  /** Every group of hs bytes up to position p reads as the header of a frame that is all there. */
  ghost predicate HeadersTo(hs: nat, s: Bytes, p: nat)
    requires hs > 0
  {
    p <= |s| && p % hs == 0 && forall j :: 0 <= j < p && j % hs == 0 ==> Takes(hs, s[j..])
  }

  lemma ModLess(p: int, hs: int)
    requires 0 < hs <= p
    ensures (p - hs) % hs == p % hs
  {
    var q := p / hs;
    assert hs * (q - 1) == hs * q - hs;
    DivMod(p - hs, hs, q - 1, p % hs);
  }

  lemma HeadersNext(hs: nat, s: Bytes, p: nat)
    requires 0 < hs <= p <= |s| && Takes(hs, s)
    ensures HeadersTo(hs, s, p) <==> HeadersTo(hs, s[hs..], p - hs)
  {
    hide Takes;
    var t := s[hs..];
    ModLess(p, hs);
    if HeadersTo(hs, s, p) {
      forall j | 0 <= j < p - hs && j % hs == 0 ensures Takes(hs, t[j..]) {
        ModLess(j + hs, hs);
        assert t[j..] == s[j + hs..];
      }
    }
    if HeadersTo(hs, t, p - hs) {
      forall j | 0 <= j < p && j % hs == 0 ensures Takes(hs, s[j..]) {
        if j >= hs {
          ModLess(j, hs);
          assert s[j..] == t[j - hs..];
        } else {
          SmallMod(j, hs);
          assert s[0..] == s;
        }
      }
    }
  }

  /** Reading headers and nothing else stops at a place where none can be read exactly if it can be read up to there. */
  lemma {:induction false} StopsAt(hs: nat, s: Bytes, p: nat)
    requires hs > 0 && p <= |s| && !Takes(hs, s[p..])
    ensures Misread(hs, s) == s[p..] <==> HeadersTo(hs, s, p)
    decreases |s|
  {
    assert s[0..] == s;
    if p >= hs && Takes(hs, s) {
      HeadersNext(hs, s, p);
      assert s[hs..][p - hs..] == s[p..];
      hide Takes, HeadersTo;
      StopsAt(hs, s[hs..], p - hs);
    } else if 0 < p < hs {
      SmallMod(p, hs);
    } else if p > 0 {
      NoHeaders(hs, s, p);
    }
  }

  lemma NoHeaders(hs: nat, s: Bytes, p: nat)
    requires hs > 0 && 0 < p <= |s| && !Takes(hs, s)
    ensures !HeadersTo(hs, s, p)
  {
    SmallMod(0, hs);
    assert s[0..] == s;
  }

  lemma {:induction false} LeftIsSuffix(hs: nat, s: Bytes)
    requires hs > 0
    ensures |Left(hs, s)| <= |s| && Left(hs, s) == s[|s| - |Left(hs, s)|..] && !Takes(hs, Left(hs, s))
    decreases |s|
  {
    if Takes(hs, s) {
      LeftIsSuffix(hs, Behind(hs, s));
    }
  }

  /**
    With no receiver the connection is in step at the end of a chunk exactly if the frames it completes
    are a whole number of headers long and all of them, contents included, read as headers.
   */
  lemma InStepAgain(hs: nat, s: Bytes)
    requires hs > 0
    ensures |Left(hs, s)| <= |s| && (Misread(hs, s) == Left(hs, s) <==> HeadersTo(hs, s, |s| - |Left(hs, s)|))
  {
    LeftIsSuffix(hs, s);
    StopsAt(hs, s, |s| - |Left(hs, s)|);
  }
}

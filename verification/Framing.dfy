/**
  Length-prefixed framing: what a stream of bytes means, whoever reassembles it. The gate, netpack
  and the harbor are each proved to deliver this, however the stream is cut into chunks.
 */
module Framing {
  import opened Common

  /** A big-endian number. */
  function Number(h: Bytes): (n: nat) {
    if h == [] then 0 else Number(h[..|h| - 1]) * 256 + h[|h| - 1]
  }

  /** A whole frame stands at the front. */
  predicate Complete(hs: nat, s: Bytes) {
    hs <= |s| && Number(s[..hs]) <= |s| - hs
  }

  function Frame(hs: nat, s: Bytes): Bytes
    requires Complete(hs, s)
  {
    s[hs..hs + Number(s[..hs])]
  }

  function Behind(hs: nat, s: Bytes): Bytes
    requires Complete(hs, s)
  {
    s[hs + Number(s[..hs])..]
  }

  /** The frames of a stream, and the bytes after the last whole one. */
  function Packets(hs: nat, s: Bytes): seq<Bytes>
    requires hs > 0
    decreases |s|
  {
    if Complete(hs, s) then [Frame(hs, s)] + Packets(hs, Behind(hs, s)) else []
  }

  function Rest(hs: nat, s: Bytes): Bytes
    requires hs > 0
    decreases |s|
  {
    if Complete(hs, s) then Rest(hs, Behind(hs, s)) else s
  }

  /** More bytes behind do not change a whole frame. */
  lemma CompleteStays(hs: nat, s: Bytes, t: Bytes)
    requires Complete(hs, s)
    ensures Complete(hs, s + t) && Frame(hs, s + t) == Frame(hs, s) && Behind(hs, s + t) == Behind(hs, s) + t
  {
    assert (s + t)[..hs] == s[..hs];
  }

  /** Parsing can stop anywhere and go on with what is left and what comes. */
  lemma {:induction false} Resume(hs: nat, s: Bytes, t: Bytes)
    requires hs > 0
    ensures Packets(hs, s + t) == Packets(hs, s) + Packets(hs, Rest(hs, s) + t)
    ensures Rest(hs, s + t) == Rest(hs, Rest(hs, s) + t)
    decreases |s|
  {
    if Complete(hs, s) {
      CompleteStays(hs, s, t);
      Resume(hs, Behind(hs, s), t);
    }
  }

  // ---------------------------------------------------------------- frames that are too long

  const TOO_LONG := 0x100_0000

  /** A whole frame of less than 16M stands at the front. */
  predicate Takes(hs: nat, s: Bytes) {
    Complete(hs, s) && Number(s[..hs]) < TOO_LONG
  }

  /** The frames up to the first header that announces 16M or more, and the bytes from there. */
  function Accepted(hs: nat, s: Bytes): seq<Bytes>
    requires hs > 0
    decreases |s|
  {
    if Takes(hs, s) then [Frame(hs, s)] + Accepted(hs, Behind(hs, s)) else []
  }

  function Left(hs: nat, s: Bytes): Bytes
    requires hs > 0
    decreases |s|
  {
    if Takes(hs, s) then Left(hs, Behind(hs, s)) else s
  }

  /** No header announces 16M or more. */
  predicate Short(hs: nat, s: Bytes)
    requires hs > 0
  {
    var u := Left(hs, s);
    hs <= |u| ==> Number(u[..hs]) < TOO_LONG
  }

  /** What is accepted does not depend on where the stream is cut, also when a long header comes midway. */
  lemma {:induction false} ResumeAccepted(hs: nat, s: Bytes, t: Bytes)
    requires hs > 0
    ensures Accepted(hs, s + t) == Accepted(hs, s) + Accepted(hs, Left(hs, s) + t)
    ensures Left(hs, s + t) == Left(hs, Left(hs, s) + t)
    decreases |s|
  {
    if Takes(hs, s) {
      CompleteStays(hs, s, t);
      assert (s + t)[..hs] == s[..hs];
      ResumeAccepted(hs, Behind(hs, s), t);
    }
  }

  /** Once a long header stands at the front nothing behind it is taken. */
  lemma LongStays(hs: nat, s: Bytes, t: Bytes)
    requires hs > 0 && !Short(hs, s)
    ensures !Short(hs, s + t) && Accepted(hs, s + t) == Accepted(hs, s) && Left(hs, s + t) == Left(hs, s) + t
  {
    var u := Left(hs, s);
    assert (u + t)[..hs] == u[..hs];
    ResumeAccepted(hs, s, t);
    assert Accepted(hs, s) + [] == Accepted(hs, s);
  }

  lemma {:induction false} ShortIsAll(hs: nat, s: Bytes)
    requires hs > 0 && Short(hs, s)
    ensures Accepted(hs, s) == Packets(hs, s) && Left(hs, s) == Rest(hs, s)
    decreases |s|
  {
    if Takes(hs, s) {
      ShortIsAll(hs, Behind(hs, s));
    }
  }

  function Flat(chunks: seq<Bytes>): Bytes {
    if chunks == [] then [] else Flat(chunks[..|chunks| - 1]) + chunks[|chunks| - 1]
  }

  lemma {:induction false} FlatPrefix(chunks: seq<Bytes>, i: nat)
    requires i <= |chunks|
    ensures Flat(chunks[..i]) <= Flat(chunks)
  {
    if i < |chunks| {
      var before := chunks[..|chunks| - 1];
      FlatPrefix(before, i);
      assert before[..i] == chunks[..i];
    } else {
      assert chunks[..i] == chunks;
    }
  }

  lemma FlatNext(chunks: seq<Bytes>, i: nat)
    requires i < |chunks|
    ensures Flat(chunks[..i + 1]) == Flat(chunks[..i]) + chunks[i]
  {
    assert chunks[..i + 1][..i] == chunks[..i];
  }

  // ---------------------------------------------------------------- lists of buffers

  lemma HeadFirst(list: seq<Bytes>, offset: int)
    requires list != [] && 0 <= offset <= |list[0]|
    ensures offset <= |Flat(list)| && Flat(list)[offset..] == list[0][offset..] + Flat(list[1..])
  {
    FlatHead(list);
  }

  lemma FlatNone()
    ensures Flat([]) == []
  {
  }

  lemma {:induction false} FlatHead(list: seq<Bytes>)
    requires list != []
    ensures Flat(list) == list[0] + Flat(list[1..])
  {
    if |list| > 1 {
      var n := |list| - 1;
      FlatHead(list[..n]);
      assert list[..n][1..] == list[1..][..n - 1] && list[1..][n - 1] == list[n];
      Assoc(list[0], Flat(list[1..n]), list[n]);
      assert list[..n][1..] == list[1..n];
    }
  }

  lemma CutInside(out: Bytes, a: Bytes, offset: nat, sz: nat, r: Bytes, all: Bytes)
    requires offset + sz <= |a| && all == out + (a[offset..] + r)
    ensures all[..|out| + sz] == out + a[offset..offset + sz] && all[|out| + sz..] == a[offset + sz..] + r
  {
    assert a[offset..] == a[offset..offset + sz] + a[offset + sz..];
  }

  lemma CutWhole(out: Bytes, a: Bytes, offset: nat, r: Bytes, all: Bytes)
    requires offset <= |a| && all == out + (a[offset..] + r)
    ensures all == out + a[offset..] + r
    ensures all[..|out + a[offset..]|] == out + a[offset..] && all[|out + a[offset..]|..] == r
  {
  }

  // ---------------------------------------------------------------- chunks

  /** What a reassembler that keeps the rest delivers for a sequence of chunks. */
  function ByChunks(hs: nat, chunks: seq<Bytes>): (seq<Bytes>, Bytes)
    requires hs > 0
  {
    if chunks == [] then ([], []) else
      var p := ByChunks(hs, chunks[..|chunks| - 1]);
      var s := p.1 + chunks[|chunks| - 1];
      (p.0 + Packets(hs, s), Rest(hs, s))
  }

  /** However the stream is cut, what is delivered is the stream's frames. */
  lemma {:induction false} ChunksDoNotMatter(hs: nat, chunks: seq<Bytes>)
    requires hs > 0
    ensures ByChunks(hs, chunks) == (Packets(hs, Flat(chunks)), Rest(hs, Flat(chunks)))
  {
    if chunks != [] {
      var before := chunks[..|chunks| - 1];
      ChunksDoNotMatter(hs, before);
      Resume(hs, Flat(before), chunks[|chunks| - 1]);
    }
  }

  // ---------------------------------------------------------------- writing

  function Encoded(hs: nat, n: nat): (h: Bytes)
    ensures |h| == hs
  {
    if hs == 0 then [] else Encoded(hs - 1, n / 256) + [n % 256]
  }

  lemma {:induction false} EncodedIs(hs: nat, n: nat)
    requires n < Pow(256, hs)
    ensures Number(Encoded(hs, n)) == n
  {
    if hs > 0 {
      EncodedIs(hs - 1, n / 256);
      assert Encoded(hs, n)[..hs - 1] == Encoded(hs - 1, n / 256);
    }
  }

  lemma {:induction false} NumberIs(h: Bytes)
    ensures Encoded(|h|, Number(h)) == h && Number(h) < Pow(256, |h|)
  {
    if h != [] {
      var n := |h| - 1;
      NumberIs(h[..n]);
      assert h == h[..n] + [h[n]];
    }
  }

  /** The headers in use, byte by byte. */
  lemma HeaderNumber(h: Bytes)
    ensures |h| == 2 ==> Number(h) == (h[0] as int) * 0x100 + h[1] as int
    ensures |h| == 3 ==> Number(h) == (h[0] as int) * 0x1_0000 + (h[1] as int) * 0x100 + h[2] as int
    ensures |h| == 4 ==> Number(h) == (h[0] as int) * 0x100_0000 + (h[1] as int) * 0x1_0000 + (h[2] as int) * 0x100 + h[3] as int
  {
    if 2 <= |h| <= 4 {
      assert h[..1][..0] == [] && Number(h[..1][..0]) == 0;
      assert Number(h[..1]) == h[0] as int;
      assert h[..2][..1] == h[..1] && Number(h[..2]) == Number(h[..1]) * 256 + h[1];
      if |h| > 2 {
        assert h[..3][..2] == h[..2] && Number(h[..3]) == Number(h[..2]) * 256 + h[2];
      }
      if |h| > 3 {
        assert h[..4][..3] == h[..3] && Number(h[..4]) == Number(h[..3]) * 256 + h[3];
      }
      assert h[..|h|] == h;
    }
  }

  function Framed(hs: nat, p: Bytes): Bytes {
    Encoded(hs, |p|) + p
  }

  function FramedAll(hs: nat, ps: seq<Bytes>): Bytes {
    if ps == [] then [] else FramedAll(hs, ps[..|ps| - 1]) + Framed(hs, ps[|ps| - 1])
  }

  lemma OneFrame(hs: nat, p: Bytes)
    requires hs > 0 && |p| < Pow(256, hs)
    ensures Packets(hs, Framed(hs, p)) == [p] && Rest(hs, Framed(hs, p)) == []
  {
    EncodedIs(hs, |p|);
    var f := Framed(hs, p);
    assert f[..hs] == Encoded(hs, |p|) && Frame(hs, f) == p && Behind(hs, f) == [];
    assert !Complete(hs, []);
  }

  /** Packets that were framed one after another come out as they went in, with nothing left. */
  lemma {:induction false} RoundTrip(hs: nat, ps: seq<Bytes>)
    requires hs > 0 && forall i :: 0 <= i < |ps| ==> |ps[i]| < Pow(256, hs)
    ensures Packets(hs, FramedAll(hs, ps)) == ps && Rest(hs, FramedAll(hs, ps)) == []
  {
    if ps == [] {
      NothingInNothing(hs);
    } else {
      var before, p := ps[..|ps| - 1], ps[|ps| - 1];
      RoundTrip(hs, before);
      OneMore(hs, FramedAll(hs, before), before, p);
      assert ps == before + [p];
    }
  }

  lemma NothingInNothing(hs: nat)
    requires hs > 0
    ensures Packets(hs, []) == [] && Rest(hs, []) == []
  {
    assert !Complete(hs, []);
  }

  lemma OneMore(hs: nat, s: Bytes, before: seq<Bytes>, p: Bytes)
    requires hs > 0 && |p| < Pow(256, hs) && Packets(hs, s) == before && Rest(hs, s) == []
    ensures Packets(hs, s + Framed(hs, p)) == before + [p] && Rest(hs, s + Framed(hs, p)) == []
  {
    Resume(hs, s, Framed(hs, p));
    OneFrame(hs, p);
    assert [] + Framed(hs, p) == Framed(hs, p);
  }
}

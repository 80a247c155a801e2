/**
  What the peer reads: where the bytes of each buffer stand on the wire, and when the wire is one
  message after another.
 */
module SocketWire {
  import opened Common
  import opened SocketSend

  /** What may stand behind a byte: the next one of its message, or the first of another if it was the last. */
  ghost predicate Next(m: Mark, m': Mark) {
    if m.at + 1 < |m.of.bytes| then m' == Mark(m.of, m.at + 1) else m'.at == 0
  }

  /** Whole messages one after another; the last may have been begun only. */
  ghost predicate WholeMessages(w: seq<Mark>) {
    (w != [] ==> w[0].at == 0) && forall i :: 0 < i < |w| ==> Next(w[i - 1], w[i])
  }

  /** All bytes of a message stand before place j. */
  ghost predicate WhollyBefore(w: seq<Mark>, x: Request, j: int) {
    exists p :: StandsAt(w, x, j, p)
  }

  ghost predicate StandsAt(w: seq<Mark>, x: Request, j: int, p: int) {
    0 <= p && p + |x.bytes| <= j <= |w| && w[p..p + |x.bytes|] == Piece(x, 0, |x.bytes|)
  }

  lemma LastMark(w: seq<Mark>, x: Request, j: int, p: int)
    requires StandsAt(w, x, j, p) && x.bytes != []
    ensures w[p + |x.bytes| - 1] == Mark(x, |x.bytes| - 1)
  {
    var n := |x.bytes|;
    assert w[p..p + n][n - 1] == w[p + n - 1];
    assert Piece(x, 0, n)[n - 1] == Mark(x, n - 1);
  }

  /** The buffers with bytes on the wire, in the order of those bytes. */
  ghost function OnWire(s: Sock): seq<Buf> {
    s.done + (if Partial(s).Some? && Partial(s).value.sent > 0 then [Partial(s).value] else [])
  }

  lemma WireIs(s: Sock)
    requires Whole(s)
    ensures s.wire == Flat(OnWire(s))
  {
    assert s.done + [] == s.done;
    if Partial(s).Some? {
      FlatDone(s.done, Partial(s).value);
    }
  }

  /** Where the bytes of buffer k begin, and where they end. */
  ghost function Place(l: seq<Buf>, k: nat): nat
    requires k <= |l|
  {
    |Flat(l[..k])|
  }

  ghost function End(l: seq<Buf>, k: nat): nat
    requires k < |l|
  {
    Place(l, k) + l[k].sent
  }

  lemma PlaceNext(l: seq<Buf>, k: nat)
    requires k < |l|
    ensures Place(l, k + 1) == End(l, k) && Flat(l[..k + 1]) == Flat(l[..k]) + Piece(l[k].key, 0, l[k].sent)
  {
    assert l[..k] + [l[k]] == l[..k + 1];
    FlatDone(l[..k], l[k]);
  }

  lemma PlaceOrder(l: seq<Buf>, k: nat, m: nat)
    requires k <= m <= |l|
    ensures Place(l, k) <= Place(l, m) && Flat(l[..k]) <= Flat(l[..m])
  {
    assert l[..m] == l[..k] + l[k..m];
    FlatAppend(l[..k], l[k..m]);
  }

  /** The bytes of an earlier buffer end before those of a later one begin. */
  lemma Apart(l: seq<Buf>, k: nat, m: nat)
    requires k < m <= |l|
    ensures End(l, k) <= Place(l, m)
  {
    PlaceNext(l, k);
    PlaceOrder(l, k + 1, m);
  }

  lemma Ends(l: seq<Buf>, k: nat)
    requires k < |l|
    ensures End(l, k) <= |Flat(l)|
  {
    Apart(l, k, |l|);
    assert l[..|l|] == l;
  }

  /** The bytes of buffer k are at its place. */
  lemma Segment(l: seq<Buf>, k: nat)
    requires k < |l|
    ensures End(l, k) <= |Flat(l)| && Flat(l)[Place(l, k)..End(l, k)] == Piece(l[k].key, 0, l[k].sent)
  {
    PlaceNext(l, k);
    PlaceOrder(l, k + 1, |l|);
    assert l[..|l|] == l;
  }

  /** Which buffer a byte on the wire is from. */
  lemma {:induction false} Locate(l: seq<Buf>, j: int) returns (k: nat)
    requires 0 <= j < |Flat(l)|
    ensures k < |l| && Place(l, k) <= j < End(l, k) && Flat(l)[j] == Mark(l[k].key, j - Place(l, k))
    decreases |l|
  {
    var n := |l| - 1;
    assert l[..n + 1] == l;
    PlaceNext(l, n);
    if j < |Flat(l[..n])| {
      k := Locate(l[..n], j);
      assert l[..n][..k] == l[..k];
    } else {
      k := n;
    }
  }

  /** Bytes of a message from its first on, behind a wire. */
  lemma PieceBehind(w: seq<Mark>, x: Request, n: nat)
    requires n <= |x.bytes|
    ensures WholeMessages(w + Piece(x, 0, n)) <==>
              WholeMessages(w) && (w == [] || n == 0 || w[|w| - 1].at + 1 >= |w[|w| - 1].of.bytes|)
  {
    var v := w + Piece(x, 0, n);
    if WholeMessages(v) {
      forall i | 0 < i < |w| ensures Next(w[i - 1], w[i]) {
        assert Next(v[i - 1], v[i]);
      }
      if w != [] && n > 0 {
        assert Next(v[|w| - 1], v[|w|]) && v[|w|] == Mark(x, 0);
      }
      assert w != [] ==> w[0] == v[0];
    }
    if WholeMessages(w) && (w == [] || n == 0 || w[|w| - 1].at + 1 >= |w[|w| - 1].of.bytes|) {
      forall i | 0 < i < |v| ensures Next(v[i - 1], v[i]) {
        if i < |w| {
          assert Next(w[i - 1], w[i]);
        }
      }
    }
  }

  /** The last byte on the wire is the last of its message unless it is the end of a stump. */
  lemma LastByte(l: seq<Buf>)
    requires Ended(l) && Flat(l) != []
    ensures var m := Flat(l)[|Flat(l)| - 1];
            m.at + 1 < |m.of.bytes| <==> exists k :: 0 <= k < |l| && Stump(l[k]) && End(l, k) == |Flat(l)|
  {
    var k := Locate(l, |Flat(l)| - 1);
    Ends(l, k);
    assert End(l, k) == |Flat(l)|;
    forall i | 0 <= i < |l| && Stump(l[i]) && End(l, i) == |Flat(l)| ensures i == k {
      if i < k { Apart(l, i, k); }
      if k < i { Apart(l, k, i); }
    }
  }

  ghost predicate StumpInside(l: seq<Buf>, k: int) {
    0 <= k < |l| && Stump(l[k]) && End(l, k) < |Flat(l)|
  }

  /** The wire is one message after another exactly if nothing stands behind a stump. */
  lemma {:induction false} WholeIff(l: seq<Buf>)
    requires Ended(l)
    ensures WholeMessages(Flat(l)) <==> forall k :: !StumpInside(l, k)
    decreases |l|
  {
    if l != [] {
      var n := |l| - 1;
      var i, b, w := l[..n], l[n], Flat(l[..n]);
      assert l[..n + 1] == l;
      PlaceNext(l, n);
      WholeIff(i);
      PieceBehind(w, b.key, b.sent);
      StumpsBehind(l, n);
      if w != [] { LastByte(i); }
    }
  }

  /** How the stumps inside change with one more buffer. */
  lemma StumpsBehind(l: seq<Buf>, n: nat)
    requires n == |l| - 1 && Ended(l)
    ensures Ended(l[..n])
    ensures forall k {:trigger l[..n][k]} :: 0 <= k < n ==> l[..n][k] == l[k] && End(l[..n], k) == End(l, k) <= |Flat(l[..n])|
    ensures !StumpInside(l, n)
    ensures (forall k :: !StumpInside(l, k)) <==>
              (forall k :: !StumpInside(l[..n], k)) && (l[n].sent == 0 || forall k :: 0 <= k < n ==> !(Stump(l[k]) && End(l[..n], k) == |Flat(l[..n])|))
  {
    var i := l[..n];
    assert l[..n + 1] == l;
    PlaceNext(l, n);
    forall k {:trigger i[k]} | 0 <= k < n ensures i[k] == l[k] && End(i, k) == End(l, k) <= |Flat(i)| {
      assert i[..k] == l[..k];
      Ends(i, k);
    }
    forall k | 0 <= k < n ensures StumpInside(l, k) <==> Stump(l[k]) && End(i, k) < |Flat(i)| + l[n].sent {
      assert i[k] == l[k];
    }
    forall k | 0 <= k < n ensures StumpInside(i, k) <==> Stump(l[k]) && End(i, k) < |Flat(i)| {
      assert i[k] == l[k];
    }
  }
}

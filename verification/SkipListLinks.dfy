/**
  The order of elements, and the links and spans of the skip list (skiplist.c), level by level.

  Nodes live in a heap of their own, `nodes`, from address to node; `order` is the sequence of
  addresses, header first, so that an element's position in it is its rank.
 */
module SkipListLinks {
  import opened ByteOrder
  import opened Common

  const MAXLEVEL := 32
  const NIL := -1
  const HEADER := 0

  datatype Elem = Elem(score: real, obj: Bytes)

  datatype Node = Node(elem: Elem, back: int, fwd: seq<int>, span: seq<int>)

  // ---------------------------------------------------------------- the order of elements

  predicate Less(a: Elem, b: Elem) {
    a.score < b.score || (a.score == b.score && Compare(a.obj, b.obj) < 0)
  }

  /** By score; at equal scores as in a dictionary, by the first byte that differs, a string before its extensions. */
  lemma LessIs(a: Elem, b: Elem)
    ensures a.score != b.score ==> (Less(a, b) <==> a.score < b.score)
    ensures a.score == b.score ==> (Less(a, b) <==> (a.obj <= b.obj && a.obj != b.obj) || exists k :: FirstDiffers(a.obj, b.obj, k))
  {
    CompareIs(a.obj, b.obj);
  }

  /** This is a total order. */
  lemma LessIsTotal(a: Elem, b: Elem, c: Elem)
    ensures !Less(a, a)
    ensures Less(a, b) || Less(b, a) || a == b
    ensures !(Less(a, b) && Less(b, a))
    ensures Less(a, b) && !Less(c, b) ==> Less(a, c)
    ensures !Less(b, a) && Less(b, c) ==> Less(a, c)
  {
    CompareEqual(a.obj, a.obj);
    CompareEqual(a.obj, b.obj);
    CompareFlips(a.obj, b.obj);
    CompareFlips(b.obj, c.obj);
    CompareFlips(c.obj, b.obj);
    CompareFlips(a.obj, c.obj);
    CompareFlips(b.obj, a.obj);
    if Compare(a.obj, b.obj) <= 0 && Compare(b.obj, c.obj) <= 0 {
      CompareTransitive(a.obj, b.obj, c.obj);
    }
  }

  // ---------------------------------------------------------------- the sorted sequence

  ghost predicate Sorted(s: seq<Elem>) {
    forall i, j :: 0 <= i < j < |s| ==> !Less(s[j], s[i])
  }

  /** The comparisons the searches make. */
  datatype Query =
    | Under(e: Elem)          // slInsert, slDelete: elements below e
    | UpTo(e: Elem)           // slGetRank: elements not above e
    | ScoreUnder(score: real) // slFirstInRange
    | ScoreUpTo(score: real)  // slLastInRange

  predicate Takes(q: Query, x: Elem) {
    match q
    case Under(e) => x.score < e.score || (x.score == e.score && Compare(x.obj, e.obj) < 0)
    case UpTo(e) => x.score < e.score || (x.score == e.score && Compare(x.obj, e.obj) <= 0)
    case ScoreUnder(score) => x.score < score
    case ScoreUpTo(score) => x.score <= score
  }

  /** How many elements a search passes. */
  function Count(s: seq<Elem>, q: Query): (n: nat)
    ensures n <= |s|
  {
    if s == [] then 0 else Count(s[..|s| - 1], q) + if Takes(q, s[|s| - 1]) then 1 else 0
  }

  /** How many elements are below e. */
  function Below(s: seq<Elem>, e: Elem): (n: nat)
    ensures n <= |s|
  {
    Count(s, Under(e))
  }

  lemma TakesDown(q: Query, x: Elem, y: Elem)
    requires Takes(q, y) && !Less(y, x)
    ensures Takes(q, x)
  {
    if q.Under? || q.UpTo? {
      LessIsTotal(x, y, q.e);
      CompareFlips(x.obj, y.obj);
      CompareFlips(y.obj, x.obj);
      if x.score == y.score == q.e.score {
        CompareTransitive(x.obj, y.obj, q.e.obj);
      }
    }
  }

  /** In a sorted sequence, those a search passes come first. */
  lemma {:induction false} CountSplits(s: seq<Elem>, q: Query)
    requires Sorted(s)
    ensures forall i :: 0 <= i < |s| ==> (Takes(q, s[i]) <==> i < Count(s, q))
  {
    if s != [] {
      var t := s[..|s| - 1];
      CountSplits(t, q);
      forall i | 0 <= i < |t| ensures Takes(q, s[|s| - 1]) ==> Takes(q, s[i]) {
        if Takes(q, s[|s| - 1]) {
          TakesDown(q, s[i], s[|s| - 1]);
        }
      }
      assert forall i :: 0 <= i < |t| ==> s[i] == t[i];
    }
  }

  lemma BelowSplits(s: seq<Elem>, e: Elem)
    requires Sorted(s)
    ensures forall i :: 0 <= i < |s| ==> (Less(s[i], e) <==> i < Below(s, e))
  {
    CountSplits(s, Under(e));
    assert forall i :: 0 <= i < |s| ==> (Takes(Under(e), s[i]) <==> Less(s[i], e));
  }

  function Inserted(s: seq<Elem>, e: Elem): seq<Elem> {
    s[..Below(s, e)] + [e] + s[Below(s, e)..]
  }

  function Without(s: seq<Elem>, i: nat): seq<Elem>
    requires i < |s|
  {
    s[..i] + s[i + 1..]
  }

  predicate Has(s: seq<Elem>, e: Elem) {
    Below(s, e) < |s| && s[Below(s, e)] == e
  }

  lemma SplitBag(s: seq<Elem>, r: nat, e: Elem)
    requires r <= |s|
    ensures multiset(s[..r] + [e] + s[r..]) == multiset(s) + multiset{e}
  {
    assert s == s[..r] + s[r..];
  }

  /** The sequence is kept sorted, and gains exactly the one element. */
  lemma InsertedSorted(s: seq<Elem>, e: Elem)
    requires Sorted(s)
    ensures Sorted(Inserted(s, e)) && multiset(Inserted(s, e)) == multiset(s) + multiset{e}
  {
    BelowSplits(s, e);
    var r, t := Below(s, e), Inserted(s, e);
    SplitBag(s, r, e);
    hide Below;
    forall i, j | 0 <= i < j < |t| ensures !Less(t[j], t[i]) {
      if j == r {
        LessIsTotal(t[i], e, e);
      } else if i == r {
        assert t[j] == s[j - 1];
      } else {
        assert t[i] == s[if i < r then i else i - 1] && t[j] == s[if j < r then j else j - 1];
      }
    }
  }

  lemma WithoutSorted(s: seq<Elem>, i: nat)
    requires Sorted(s) && i < |s|
    ensures Sorted(Without(s, i)) && multiset(Without(s, i)) == multiset(s) - multiset{s[i]}
  {
    assert s == s[..i] + [s[i]] + s[i + 1..];
    assert forall k :: 0 <= k < |s| - 1 ==> Without(s, i)[k] == s[if k < i then k else k + 1];
  }

  function Removed(s: seq<Elem>, e: Elem): seq<Elem> {
    if Has(s, e) then Without(s, Below(s, e)) else s
  }

  lemma RemovedIsGone(s: seq<Elem>, e: Elem)
    requires Sorted(s)
    ensures Sorted(Removed(s, e)) && multiset(Removed(s, e)) == multiset(s) - multiset{e}
  {
    HasMeansIn(s, e);
    if Has(s, e) {
      WithoutSorted(s, Below(s, e));
    }
  }

  /** Where the element would go is where it is, if it is there at all. */
  lemma HasMeansIn(s: seq<Elem>, e: Elem)
    requires Sorted(s)
    ensures Has(s, e) <==> e in s
  {
    BelowSplits(s, e);
    if e in s {
      var k :| 0 <= k < |s| && s[k] == e;
      LessIsTotal(e, e, e);
      var r := Below(s, e);
      assert r <= k;
      if r < k {
        LessIsTotal(s[r], e, e);
        assert !Less(s[k], s[r]);
      }
    }
  }

  // ---------------------------------------------------------------- links and spans

  /** The header comes first; every node has a level, and as many spans as links. */
  ghost predicate Shape(nodes: map<int, Node>, order: seq<int>) {
    && order != [] && order[0] == HEADER
    && (forall p :: 0 <= p < |order| ==> NodeOK(nodes, order[p]))
    && |nodes[HEADER].fwd| == MAXLEVEL
  }

  predicate NodeOK(nodes: map<int, Node>, id: int) {
    id != NIL && id in nodes && 1 <= |nodes[id].fwd| == |nodes[id].span| <= MAXLEVEL
  }

  function Height(nodes: map<int, Node>, id: int): int {
    if id in nodes then |nodes[id].fwd| else 0
  }

  function Heights(nodes: map<int, Node>, order: seq<int>): (h: seq<int>)
    ensures |h| == |order|
    ensures forall p :: 0 <= p < |h| ==> h[p] == Height(nodes, order[p])
  {
    seq(|order|, p requires 0 <= p < |order| => Height(nodes, order[p]))
  }

  /** The first position behind p whose node reaches above level l is q, or there is none and q is the end. */
  ghost predicate NextIs(h: seq<int>, l: int, p: int, q: int) {
    0 <= p < q <= |h| && (q < |h| ==> h[q] > l) && Gap(h, l, p, q)
  }

  /** No node strictly between the positions reaches above level l. */
  ghost predicate Gap(h: seq<int>, l: int, p: int, q: int) {
    forall k :: 0 <= k < |h| && p < k < q ==> h[k] <= l
  }

  function NextOf(n: Node, l: int, p: int): int
    requires 0 <= l < |n.fwd| == |n.span|
  {
    p + n.span[l] + if n.fwd[l] == NIL then 1 else 0
  }

  function At(order: seq<int>, q: int): int {
    if 0 <= q < |order| then order[q] else NIL
  }

  /** A link of node n, at position p, leads to the next node of its level, and its span is the distance. */
  ghost predicate LinkOK(n: Node, order: seq<int>, h: seq<int>, l: int, p: int)
    requires 0 <= l < |n.fwd| == |n.span|
  {
    NextIs(h, l, p, NextOf(n, l, p)) && n.fwd[l] == At(order, NextOf(n, l, p))
  }

  ghost predicate Linked(nodes: map<int, Node>, order: seq<int>, l: int, p: int)
    requires Shape(nodes, order) && 0 <= l < MAXLEVEL
  {
    0 <= p < |order| && l < Height(nodes, order[p]) ==> LinkOK(nodes[order[p]], order, Heights(nodes, order), l, p)
  }

  ghost predicate LevelOK(nodes: map<int, Node>, order: seq<int>, l: int)
    requires Shape(nodes, order) && 0 <= l < MAXLEVEL
  {
    forall p {:trigger Linked(nodes, order, l, p)} :: Linked(nodes, order, l, p)
  }

  // ---------------------------------------------------------------- putting one in, taking one out

  function Put<T>(s: seq<T>, r: int, x: T): seq<T>
    requires 0 <= r < |s|
  {
    s[..r + 1] + [x] + s[r + 1..]
  }

  function Cut<T>(s: seq<T>, r: int): seq<T>
    requires 0 <= r < |s| - 1
  {
    s[..r + 1] + s[r + 2..]
  }

  lemma NextBefore(h: seq<int>, h': seq<int>, l: int, k: int, q: int, r: int)
    requires NextIs(h, l, k, q) && q <= r < |h| && r < |h'| && h'[..r + 1] == h[..r + 1]
    ensures NextIs(h', l, k, q)
  {
    assert forall j :: 0 <= j <= r ==> h'[j] == h'[..r + 1][j] && h[j] == h[..r + 1][j];
  }

  lemma NextPutAfter(h: seq<int>, l: int, k: int, q: int, r: int, y: int)
    requires NextIs(h, l, k, q) && 0 <= r < k
    ensures NextIs(Put(h, r, y), l, k + 1, q + 1)
  {
  }

  lemma NextPutIn(h: seq<int>, l: int, p: int, q: int, r: int, y: int)
    requires NextIs(h, l, p, q) && 0 <= p <= r < q && r < |h| && y > l
    ensures NextIs(Put(h, r, y), l, p, r + 1) && NextIs(Put(h, r, y), l, r + 1, q + 1)
  {
  }

  lemma NextPutOver(h: seq<int>, l: int, p: int, q: int, r: int, y: int)
    requires NextIs(h, l, p, q) && 0 <= p <= r < q && r < |h| && y <= l
    ensures NextIs(Put(h, r, y), l, p, q + 1)
  {
  }

  lemma NextCutAfter(h: seq<int>, l: int, k: int, q: int, r: int)
    requires NextIs(h, l, k, q) && 0 <= r && r + 1 < k
    ensures NextIs(Cut(h, r), l, k - 1, q - 1)
  {
  }

  lemma NextCutOut(h: seq<int>, l: int, p: int, q: int, r: int)
    requires 0 <= p <= r < |h| - 1 && NextIs(h, l, p, r + 1) && NextIs(h, l, r + 1, q)
    ensures NextIs(Cut(h, r), l, p, q - 1)
  {
  }

  lemma NextCutOver(h: seq<int>, l: int, p: int, q: int, r: int)
    requires 0 <= p <= r < |h| - 1 && NextIs(h, l, p, q) && r + 1 < q
    ensures NextIs(Cut(h, r), l, p, q - 1)
  {
  }

  // ---------------------------------------------------------------- one level at a time

  /** The two heaps agree on the listed nodes' heights, and on their links of one level save one node's. */
  ghost predicate SameLevel(nodes: map<int, Node>, nodes': map<int, Node>, order: seq<int>, l: int, but: int) {
    forall p :: 0 <= p < |order| ==>
      && NodeOK(nodes, order[p]) && NodeOK(nodes', order[p])
      && Height(nodes', order[p]) == Height(nodes, order[p])
      && (order[p] != but && 0 <= l < Height(nodes, order[p]) ==>
            nodes'[order[p]].fwd[l] == nodes[order[p]].fwd[l] && nodes'[order[p]].span[l] == nodes[order[p]].span[l])
  }

  lemma FrameLevel(nodes: map<int, Node>, nodes': map<int, Node>, order: seq<int>, l: int)
    requires Shape(nodes, order) && Shape(nodes', order) && 0 <= l < MAXLEVEL
    requires SameLevel(nodes, nodes', order, l, NIL) && LevelOK(nodes, order, l)
    ensures LevelOK(nodes', order, l)
  {
    assert Heights(nodes', order) == Heights(nodes, order);
    forall p ensures Linked(nodes', order, l, p) {
      assert Linked(nodes, order, l, p);
    }
  }

  lemma HeightsPut(nodes: map<int, Node>, nodes': map<int, Node>, order: seq<int>, l: int, but: int, r: int, x: int)
    requires 0 <= r < |order| && SameLevel(nodes, nodes', order, l, but)
    ensures Heights(nodes', Put(order, r, x)) == Put(Heights(nodes, order), r, Height(nodes', x))
  {
  }

  lemma HeightsCut(nodes: map<int, Node>, nodes': map<int, Node>, order: seq<int>, l: int, but: int, r: int)
    requires 0 <= r < |order| - 1 && SameLevel(nodes, nodes', order, l, but)
    ensures Heights(nodes', Cut(order, r)) == Cut(Heights(nodes, order), r)
  {
  }

  /** Linking a new node in at one level: the node before it, and the spans on both sides. */
  lemma LinkIn(nodes: map<int, Node>, nodes': map<int, Node>, order: seq<int>, l: int, p: int, r: int, x: int)
    requires Shape(nodes, order) && Distinct(order) && 0 <= l < MAXLEVEL && LevelOK(nodes, order, l)
    requires 0 <= p <= r < |order| && l < Height(nodes, order[p]) && Gap(Heights(nodes, order), l, p, r + 1)
    requires Shape(nodes', Put(order, r, x)) && NodeOK(nodes', x) && l < Height(nodes', x)
    requires SameLevel(nodes, nodes', order, l, order[p])
    requires nodes'[x].fwd[l] == nodes[order[p]].fwd[l] && nodes'[x].span[l] == nodes[order[p]].span[l] - (r - p)
    requires nodes'[order[p]].fwd[l] == x && nodes'[order[p]].span[l] == r - p + 1
    ensures LevelOK(nodes', Put(order, r, x), l)
  {
    HeightsPut(nodes, nodes', order, l, order[p], r, x);
    LinkInHere(nodes, nodes', order, l, p, r, x);
    forall k | k != p && k != r + 1 ensures Linked(nodes', Put(order, r, x), l, k) {
      LinkAway(nodes, nodes', order, l, k, p, r, x);
    }
  }

  lemma PutPrefix<T>(s: seq<T>, r: int, x: T)
    requires 0 <= r < |s|
    ensures Put(s, r, x)[..r + 1] == s[..r + 1]
  {
  }

  lemma LinkAway(nodes: map<int, Node>, nodes': map<int, Node>, order: seq<int>, l: int, k: int, p: int, r: int, x: int)
    requires Shape(nodes, order) && Distinct(order) && 0 <= l < MAXLEVEL && LevelOK(nodes, order, l)
    requires 0 <= p <= r < |order| && l < Height(nodes, order[p]) && Gap(Heights(nodes, order), l, p, r + 1)
    requires Shape(nodes', Put(order, r, x)) && SameLevel(nodes, nodes', order, l, order[p])
    requires Heights(nodes', Put(order, r, x)) == Put(Heights(nodes, order), r, Height(nodes', x))
    requires k != p && k != r + 1
    ensures Linked(nodes', Put(order, r, x), l, k)
  {
    hide LevelOK, Gap, SameLevel, NextOf;
    if 0 <= k <= r {
      PutPrefix(order, r, x);
      PutPrefix(Heights(nodes, order), r, Height(nodes', x));
      KeepBefore(nodes, nodes', order, Put(order, r, x), l, k, p, r);
    } else if r + 1 < k <= |order| {
      MoveAfterPut(nodes, nodes', order, l, k - 1, p, r, x);
    }
  }

  lemma LinkInHere(nodes: map<int, Node>, nodes': map<int, Node>, order: seq<int>, l: int, p: int, r: int, x: int)
    requires Shape(nodes, order) && Distinct(order) && 0 <= l < MAXLEVEL && LevelOK(nodes, order, l)
    requires 0 <= p <= r < |order| && l < Height(nodes, order[p]) && Gap(Heights(nodes, order), l, p, r + 1)
    requires Shape(nodes', Put(order, r, x)) && NodeOK(nodes', x) && l < Height(nodes', x)
    requires NodeOK(nodes', order[p]) && l < Height(nodes', order[p])
    requires Heights(nodes', Put(order, r, x)) == Put(Heights(nodes, order), r, Height(nodes', x))
    requires nodes'[x].fwd[l] == nodes[order[p]].fwd[l] && nodes'[x].span[l] == nodes[order[p]].span[l] - (r - p)
    requires nodes'[order[p]].fwd[l] == x && nodes'[order[p]].span[l] == r - p + 1
    ensures Linked(nodes', Put(order, r, x), l, p) && Linked(nodes', Put(order, r, x), l, r + 1)
  {
    var order', h := Put(order, r, x), Heights(nodes, order);
    var u := nodes[order[p]];
    assert Linked(nodes, order, l, p);
    var q := NextOf(u, l, p);
    assert q > r;
    NextPutIn(h, l, p, q, r, Height(nodes', x));
    assert order'[r + 1] == x && order'[p] == order[p];
    assert At(order', q + 1) == At(order, q);
  }

  lemma KeepBefore(nodes: map<int, Node>, nodes': map<int, Node>, order: seq<int>, order': seq<int>, l: int, k: int, p: int, r: int)
    requires Shape(nodes, order) && Distinct(order) && 0 <= l < MAXLEVEL && LevelOK(nodes, order, l)
    requires 0 <= p <= r < |order| && l < Height(nodes, order[p]) && Gap(Heights(nodes, order), l, p, r + 1)
    requires SameLevel(nodes, nodes', order, l, order[p])
    requires Shape(nodes', order') && r < |order'| && order'[..r + 1] == order[..r + 1]
    requires Heights(nodes', order')[..r + 1] == Heights(nodes, order)[..r + 1]
    requires 0 <= k <= r && k != p
    ensures Linked(nodes', order', l, k)
  {
    var h, h' := Heights(nodes, order), Heights(nodes', order');
    assert order'[k] == order'[..r + 1][k] && order[k] == order[..r + 1][k];
    assert h[k] == Height(nodes', order[k]);
    if k < p && l < Height(nodes, order[k]) {
      assert order[k] != order[p];
      var n := nodes[order[k]];
      assert Linked(nodes, order, l, k);
      var q := NextOf(n, l, k);
      assert h[p] > l;
      assert q <= p;
      NextBefore(h, h', l, k, q, r);
      assert order'[q] == order'[..r + 1][q] && order[q] == order[..r + 1][q];
    }
  }

  lemma MoveAfterPut(nodes: map<int, Node>, nodes': map<int, Node>, order: seq<int>, l: int, k: int, p: int, r: int, x: int)
    requires Shape(nodes, order) && Distinct(order) && 0 <= l < MAXLEVEL && LevelOK(nodes, order, l)
    requires 0 <= p <= r < k < |order| && SameLevel(nodes, nodes', order, l, order[p])
    requires Shape(nodes', Put(order, r, x))
    requires Heights(nodes', Put(order, r, x)) == Put(Heights(nodes, order), r, Height(nodes', x))
    ensures Linked(nodes', Put(order, r, x), l, k + 1)
  {
    var order' := Put(order, r, x);
    assert order[k] != order[p] && order'[k + 1] == order[k];
    if l < Height(nodes, order[k]) {
      var n, h := nodes[order[k]], Heights(nodes, order);
      assert Linked(nodes, order, l, k);
      hide LevelOK, Gap;
      var q := NextOf(n, l, k);
      NextPutAfter(h, l, k, q, r, Height(nodes', x));
      assert At(order', q + 1) == At(order, q);
    }
  }

  /** At a level the new node does not reach, the link that passes over it grows by one. */
  lemma LinkOver(nodes: map<int, Node>, nodes': map<int, Node>, order: seq<int>, l: int, p: int, r: int, x: int)
    requires Shape(nodes, order) && Distinct(order) && 0 <= l < MAXLEVEL && LevelOK(nodes, order, l)
    requires 0 <= p <= r < |order| && l < Height(nodes, order[p]) && Gap(Heights(nodes, order), l, p, r + 1)
    requires Shape(nodes', Put(order, r, x)) && l >= Height(nodes', x)
    requires SameLevel(nodes, nodes', order, l, order[p])
    requires nodes'[order[p]].fwd[l] == nodes[order[p]].fwd[l] && nodes'[order[p]].span[l] == nodes[order[p]].span[l] + 1
    ensures LevelOK(nodes', Put(order, r, x), l)
  {
    HeightsPut(nodes, nodes', order, l, order[p], r, x);
    LinkOverHere(nodes, nodes', order, l, p, r, x);
    assert Linked(nodes', Put(order, r, x), l, r + 1);
    forall k | k != p && k != r + 1 ensures Linked(nodes', Put(order, r, x), l, k) {
      LinkAway(nodes, nodes', order, l, k, p, r, x);
    }
  }

  lemma LinkOverHere(nodes: map<int, Node>, nodes': map<int, Node>, order: seq<int>, l: int, p: int, r: int, x: int)
    requires Shape(nodes, order) && Distinct(order) && 0 <= l < MAXLEVEL && LevelOK(nodes, order, l)
    requires 0 <= p <= r < |order| && l < Height(nodes, order[p]) && Gap(Heights(nodes, order), l, p, r + 1)
    requires Shape(nodes', Put(order, r, x)) && l >= Height(nodes', x)
    requires NodeOK(nodes', order[p]) && l < Height(nodes', order[p])
    requires Heights(nodes', Put(order, r, x)) == Put(Heights(nodes, order), r, Height(nodes', x))
    requires nodes'[order[p]].fwd[l] == nodes[order[p]].fwd[l] && nodes'[order[p]].span[l] == nodes[order[p]].span[l] + 1
    ensures Linked(nodes', Put(order, r, x), l, p)
  {
    var order', h := Put(order, r, x), Heights(nodes, order);
    var u := nodes[order[p]];
    assert Linked(nodes, order, l, p);
    var q := NextOf(u, l, p);
    assert q > r;
    NextPutOver(h, l, p, q, r, Height(nodes', x));
    assert order'[p] == order[p];
    assert At(order', q + 1) == At(order, q);
  }

  /** What slDeleteNode does to the link before the node it takes out. */
  ghost predicate Unlinked(u: Node, u': Node, x: Node, id: int, l: int)
    requires 0 <= l < |u.fwd| == |u.span| && l < |u'.fwd| == |u'.span| && |x.fwd| == |x.span|
  {
    if u.fwd[l] == id then l < |x.fwd| && u'.fwd[l] == x.fwd[l] && u'.span[l] == u.span[l] + x.span[l] - 1
    else u'.fwd[l] == u.fwd[l] && u'.span[l] == u.span[l] - 1
  }

  /** Taking the node at position r + 1 out at one level. */
  lemma LinkOut(nodes: map<int, Node>, nodes': map<int, Node>, order: seq<int>, l: int, p: int, r: int)
    requires Shape(nodes, order) && Distinct(order) && 0 <= l < MAXLEVEL && LevelOK(nodes, order, l)
    requires 0 <= p <= r < |order| - 1 && l < Height(nodes, order[p]) && Gap(Heights(nodes, order), l, p, r + 1)
    requires Shape(nodes', Cut(order, r))
    requires SameLevel(nodes, nodes', order, l, order[p])
    requires Unlinked(nodes[order[p]], nodes'[order[p]], nodes[order[r + 1]], order[r + 1], l)
    ensures LevelOK(nodes', Cut(order, r), l)
  {
    HeightsCut(nodes, nodes', order, l, order[p], r);
    LinkClosed(nodes, nodes', order, l, p, r);
    hide Gap, SameLevel, Unlinked, Shape, Distinct, Linked, Heights;
    forall k ensures Linked(nodes', Cut(order, r), l, k) {
      if 0 <= k <= r && k != p {
        KeepBefore(nodes, nodes', order, Cut(order, r), l, k, p, r);
      } else if r < k < |order| - 1 {
        MoveAfterCut(nodes, nodes', order, l, k + 1, p, r);
      }
    }
  }

  /** The link before a gap leads to the node right behind it, if that node reaches the level, and past it if not. */
  lemma LinkTarget(nodes: map<int, Node>, order: seq<int>, l: int, p: int, r: int)
    requires Shape(nodes, order) && Distinct(order) && 0 <= l < MAXLEVEL && LevelOK(nodes, order, l)
    requires 0 <= p <= r < |order| - 1 && l < Height(nodes, order[p]) && Gap(Heights(nodes, order), l, p, r + 1)
    ensures nodes[order[p]].fwd[l] == order[r + 1] <==> Height(nodes, order[r + 1]) > l
    ensures Height(nodes, order[r + 1]) > l <==> NextOf(nodes[order[p]], l, p) == r + 1
    ensures NextOf(nodes[order[p]], l, p) > r
  {
    var u, h := nodes[order[p]], Heights(nodes, order);
    assert Linked(nodes, order, l, p);
    var q := NextOf(u, l, p);
    assert q > r + 1 ==> h[r + 1] <= l;
  }

  lemma LinkClosed(nodes: map<int, Node>, nodes': map<int, Node>, order: seq<int>, l: int, p: int, r: int)
    requires Shape(nodes, order) && Distinct(order) && 0 <= l < MAXLEVEL && LevelOK(nodes, order, l)
    requires 0 <= p <= r < |order| - 1 && l < Height(nodes, order[p]) && Gap(Heights(nodes, order), l, p, r + 1)
    requires NodeOK(nodes', order[p]) && l < Height(nodes', order[p])
    requires Shape(nodes', Cut(order, r)) && Heights(nodes', Cut(order, r)) == Cut(Heights(nodes, order), r)
    requires Unlinked(nodes[order[p]], nodes'[order[p]], nodes[order[r + 1]], order[r + 1], l)
    ensures Linked(nodes', Cut(order, r), l, p)
  {
    var u, x, h := nodes[order[p]], nodes[order[r + 1]], Heights(nodes, order);
    LinkTarget(nodes, order, l, p, r);
    assert Linked(nodes, order, l, p);
    assert Cut(order, r)[p] == order[p];
    if Height(nodes, order[r + 1]) > l {
      assert Linked(nodes, order, l, r + 1);
      var q := NextOf(x, l, r + 1);
      NextCutOut(h, l, p, q, r);
      assert At(Cut(order, r), q - 1) == At(order, q);
    } else {
      var q := NextOf(u, l, p);
      NextCutOver(h, l, p, q, r);
      assert At(Cut(order, r), q - 1) == At(order, q);
    }
  }

  lemma MoveAfterCut(nodes: map<int, Node>, nodes': map<int, Node>, order: seq<int>, l: int, k: int, p: int, r: int)
    requires Shape(nodes, order) && Distinct(order) && 0 <= l < MAXLEVEL && LevelOK(nodes, order, l)
    requires 0 <= p <= r && r + 1 < k < |order| && SameLevel(nodes, nodes', order, l, order[p])
    requires Shape(nodes', Cut(order, r)) && Heights(nodes', Cut(order, r)) == Cut(Heights(nodes, order), r)
    ensures Linked(nodes', Cut(order, r), l, k - 1)
  {
    assert order[k] != order[p] && Cut(order, r)[k - 1] == order[k];
    if l < Height(nodes, order[k]) {
      var n, h := nodes[order[k]], Heights(nodes, order);
      assert Linked(nodes, order, l, k);
      var q := NextOf(n, l, k);
      NextCutAfter(h, l, k, q, r);
      assert At(Cut(order, r), q - 1) == At(order, q);
    }
  }

  // ---------------------------------------------------------------- all levels together

  /** Levels below i are linked in the order `done`, the rest in the order `todo`. */
  ghost predicate LevelsOK(nodes: map<int, Node>, done: seq<int>, todo: seq<int>, i: int, level: int)
    requires Shape(nodes, done) && Shape(nodes, todo) && 0 <= level <= MAXLEVEL
  {
    && (forall l :: 0 <= l < level && l < i ==> LevelOK(nodes, done, l))
    && (forall l :: 0 <= l < level && i <= l ==> LevelOK(nodes, todo, l))
  }

  ghost predicate Core(nodes: map<int, Node>, order: seq<int>, level: int) {
    && Shape(nodes, order) && Distinct(order) && 1 <= level <= MAXLEVEL
    && LevelsOK(nodes, order, order, 0, level)
    && (forall p :: 0 < p < |order| ==> Height(nodes, order[p]) <= level)
    && BareTop(nodes, level)
  }

  /** Above the list's level the header leads nowhere. */
  ghost predicate BareTop(nodes: map<int, Node>, level: int)
    requires HEADER in nodes && |nodes[HEADER].fwd| == MAXLEVEL && 0 <= level
  {
    forall l :: level <= l < MAXLEVEL ==> nodes[HEADER].fwd[l] == NIL
  }

  /** The nodes listed keep all but their links. */
  ghost predicate SameData(nodes: map<int, Node>, nodes': map<int, Node>, order: seq<int>) {
    forall p :: 0 <= p < |order| ==>
      && NodeOK(nodes, order[p]) && NodeOK(nodes', order[p])
      && nodes'[order[p]].elem == nodes[order[p]].elem && nodes'[order[p]].back == nodes[order[p]].back
      && |nodes'[order[p]].fwd| == |nodes[order[p]].fwd|
  }

  function SetFwd(nodes: map<int, Node>, id: int, l: int, f: int): map<int, Node>
    requires NodeOK(nodes, id) && 0 <= l < |nodes[id].fwd|
  {
    nodes[id := nodes[id].(fwd := nodes[id].fwd[l := f])]
  }

  function SetSpan(nodes: map<int, Node>, id: int, l: int, s: int): map<int, Node>
    requires NodeOK(nodes, id) && 0 <= l < |nodes[id].span|
  {
    nodes[id := nodes[id].(span := nodes[id].span[l := s])]
  }

  /** Where a search for the place behind position r leaves each level: at the last node not behind r. */
  ghost predicate OnPath(nodes: map<int, Node>, order: seq<int>, id: int, l: int, p: int, r: int) {
    && 0 <= p <= r < |order| && order[p] == id && l < Height(nodes, id)
    && Gap(Heights(nodes, order), l, p, r + 1)
  }

  ghost predicate Path(nodes: map<int, Node>, order: seq<int>, level: int, update: seq<int>, rank: seq<int>, r: int) {
    && |update| == |rank| == MAXLEVEL && level <= MAXLEVEL
    && forall l :: 0 <= l < level ==> OnPath(nodes, order, update[l], l, rank[l], r)
  }

  lemma SameHeights(nodes: map<int, Node>, nodes': map<int, Node>, order: seq<int>)
    requires SameData(nodes, nodes', order)
    ensures Heights(nodes', order) == Heights(nodes, order)
  {
  }

  /** Where a link of the node at position p leads. */
  ghost predicate LeadsOn(nodes: map<int, Node>, order: seq<int>, l: int, p: int) {
    && 0 <= p < |order| && NodeOK(nodes, order[p]) && 0 <= l < Height(nodes, order[p])
    && var n := nodes[order[p]];
       if n.fwd[l] == NIL then Gap(Heights(nodes, order), l, p, |order|) && n.span[l] == |order| - 1 - p
       else p < p + n.span[l] < |order| && order[p + n.span[l]] == n.fwd[l] && l < Height(nodes, n.fwd[l])
            && Gap(Heights(nodes, order), l, p, p + n.span[l])
  }

  /** What the search loops learn from one link. */
  lemma StepAlong(nodes: map<int, Node>, order: seq<int>, level: int, l: int, p: int)
    requires Core(nodes, order, level) && 0 <= l < level && 0 <= p < |order| && l < Height(nodes, order[p])
    ensures LeadsOn(nodes, order, l, p)
  {
    assert LevelOK(nodes, order, l);
    assert Linked(nodes, order, l, p);
  }

  /** One turn of the linking loop of slInsert. */
  function Spliced(nodes: map<int, Node>, l: int, u: int, x: int, d: int): map<int, Node>
    requires NodeOK(nodes, u) && NodeOK(nodes, x) && u != x && 0 <= l < |nodes[u].fwd| && l < |nodes[x].fwd|
  {
    var n1 := SetFwd(nodes, x, l, nodes[u].fwd[l]);
    var n2 := SetFwd(n1, u, l, x);
    var n3 := SetSpan(n2, x, l, n2[u].span[l] - d);
    SetSpan(n3, u, l, d + 1)
  }

  lemma SplicedKeeps(nodes: map<int, Node>, order: seq<int>, level: int, l: int, p: int, r: int, x: int)
    requires Shape(nodes, order) && Distinct(order) && x !in order && NodeOK(nodes, x)
    requires 0 <= r < |order| && Shape(nodes, Put(order, r, x)) && 0 <= level <= MAXLEVEL
    requires LevelsOK(nodes, Put(order, r, x), order, l, level)
    requires 0 <= l < level && l < Height(nodes, x) && 0 <= p < |order| && OnPath(nodes, order, order[p], l, p, r)
    requires BareTop(nodes, level)
    ensures var nodes' := Spliced(nodes, l, order[p], x, r - p);
            && Shape(nodes', order) && NodeOK(nodes', x) && Shape(nodes', Put(order, r, x))
            && SameData(nodes, nodes', order) && nodes'[x].elem == nodes[x].elem && nodes'[x].back == nodes[x].back
            && Height(nodes', x) == Height(nodes, x)
            && LevelsOK(nodes', Put(order, r, x), order, l + 1, level) && BareTop(nodes', level)
  {
    var nodes' := Spliced(nodes, l, order[p], x, r - p);
    var order' := Put(order, r, x);
    SplicedShape(nodes, order, l, p, r, x);
    LinkIn(nodes, nodes', order, l, p, r, x);
    forall k | 0 <= k < l ensures LevelOK(nodes', order', k) {
      FrameLevel(nodes, nodes', order', k);
    }
    forall k | l < k < level ensures LevelOK(nodes', order, k) {
      FrameLevel(nodes, nodes', order, k);
    }
  }

  lemma SplicedShape(nodes: map<int, Node>, order: seq<int>, l: int, p: int, r: int, x: int)
    requires Shape(nodes, order) && x !in order && NodeOK(nodes, x)
    requires 0 <= p <= r < |order| && 0 <= l < Height(nodes, order[p]) && l < Height(nodes, x)
    ensures var nodes' := Spliced(nodes, l, order[p], x, r - p);
            && NodeOK(nodes', x) && Shape(nodes', order) && Shape(nodes', Put(order, r, x))
            && SameData(nodes, nodes', order) && nodes'[x].elem == nodes[x].elem && nodes'[x].back == nodes[x].back
            && Height(nodes', x) == Height(nodes, x)
            && SameLevel(nodes, nodes', order, l, order[p])
            && (forall k :: 0 <= k < MAXLEVEL && k != l ==> SameLevel(nodes, nodes', order, k, NIL) && SameLevel(nodes, nodes', Put(order, r, x), k, NIL))
  {
    var nodes' := Spliced(nodes, l, order[p], x, r - p);
    assert forall k :: 0 <= k < |order| ==> order[k] in order;
    assert forall k :: 0 <= k < |Put(order, r, x)| ==> Put(order, r, x)[k] == x || Put(order, r, x)[k] in order;
    SplicedLevels(nodes, order, l, p, r, x);
    hide SameLevel;
  }

  lemma SplicedLevels(nodes: map<int, Node>, order: seq<int>, l: int, p: int, r: int, x: int)
    requires Shape(nodes, order) && x !in order && NodeOK(nodes, x)
    requires 0 <= p <= r < |order| && 0 <= l < Height(nodes, order[p]) && l < Height(nodes, x)
    ensures var nodes' := Spliced(nodes, l, order[p], x, r - p);
            && SameLevel(nodes, nodes', order, l, order[p])
            && (forall k :: 0 <= k < MAXLEVEL && k != l ==> SameLevel(nodes, nodes', order, k, NIL) && SameLevel(nodes, nodes', Put(order, r, x), k, NIL))
  {
    var nodes' := Spliced(nodes, l, order[p], x, r - p);
    forall k, id | (id in order || id == x) && (k != l || (id != x && id != order[p]))
      ensures SameAt(nodes, nodes', id, k)
    {
      assert NodeOK(nodes, id);
      SplicedAt(nodes, l, order[p], x, r - p, id, k);
    }
    hide Spliced;
    assert forall k :: 0 <= k < |order| ==> order[k] in order;
    assert forall k :: 0 <= k < |Put(order, r, x)| ==> Put(order, r, x)[k] == x || Put(order, r, x)[k] in order;
    assert SameAt(nodes, nodes', order[p], l + 1);
  }

  ghost predicate SameAt(nodes: map<int, Node>, nodes': map<int, Node>, id: int, k: int) {
    && NodeOK(nodes, id) && NodeOK(nodes', id) && Height(nodes', id) == Height(nodes, id)
    && (0 <= k < Height(nodes, id) ==> nodes'[id].fwd[k] == nodes[id].fwd[k] && nodes'[id].span[k] == nodes[id].span[k])
  }

  lemma SplicedAt(nodes: map<int, Node>, l: int, u: int, x: int, d: int, id: int, k: int)
    requires NodeOK(nodes, u) && NodeOK(nodes, x) && u != x && 0 <= l < |nodes[u].fwd| && l < |nodes[x].fwd| && NodeOK(nodes, id)
    requires k != l || (id != x && id != u)
    ensures SameAt(nodes, Spliced(nodes, l, u, x, d), id, k)
  {
  }

  /** One turn of the loop over the levels the new node does not reach. */
  lemma GrownKeeps(nodes: map<int, Node>, order: seq<int>, level: int, l: int, p: int, r: int, x: int)
    requires Shape(nodes, order) && Distinct(order) && x !in order && NodeOK(nodes, x)
    requires 0 <= r < |order| && Shape(nodes, Put(order, r, x)) && 0 <= level <= MAXLEVEL
    requires LevelsOK(nodes, Put(order, r, x), order, l, level)
    requires Height(nodes, x) <= l < level && 0 <= p < |order| && OnPath(nodes, order, order[p], l, p, r)
    requires BareTop(nodes, level)
    ensures var nodes' := SetSpan(nodes, order[p], l, nodes[order[p]].span[l] + 1);
            && Shape(nodes', order) && NodeOK(nodes', x) && Shape(nodes', Put(order, r, x))
            && SameData(nodes, nodes', order) && nodes'[x] == nodes[x]
            && LevelsOK(nodes', Put(order, r, x), order, l + 1, level) && BareTop(nodes', level)
  {
    var nodes' := SetSpan(nodes, order[p], l, nodes[order[p]].span[l] + 1);
    var order' := Put(order, r, x);
    assert forall k :: 0 <= k < |order| ==> order[k] in order;
    assert forall k :: 0 <= k < |order'| ==> order'[k] == x || order'[k] in order;
    LinkOver(nodes, nodes', order, l, p, r, x);
    forall k | 0 <= k < l ensures LevelOK(nodes', order', k) {
      FrameLevel(nodes, nodes', order', k);
    }
    forall k | l < k < level ensures LevelOK(nodes', order, k) {
      FrameLevel(nodes, nodes', order, k);
    }
  }

  /** The list's level rises: the header's links there, which lead nowhere, get the span of the whole list. */
  lemma RaisedKeeps(nodes: map<int, Node>, order: seq<int>, level: int, r: int)
    requires Core(nodes, order, level) && level < MAXLEVEL && 0 <= r < |order|
    ensures var nodes' := SetSpan(nodes, HEADER, level, |order| - 1);
            Core(nodes', order, level + 1) && SameData(nodes, nodes', order) && OnPath(nodes', order, HEADER, level, 0, r)
  {
    var nodes' := SetSpan(nodes, HEADER, level, |order| - 1);
    SameHeights(nodes, nodes', order);
    forall k | 0 <= k < level ensures LevelOK(nodes', order, k) {
      FrameLevel(nodes, nodes', order, k);
    }
    forall k ensures Linked(nodes', order, level, k) {
      assert 0 < k < |order| ==> Height(nodes, order[k]) <= level;
    }
  }

  /** One turn of the loop of slDeleteNode. */
  function Unspliced(nodes: map<int, Node>, l: int, u: int, x: int): map<int, Node>
    requires NodeOK(nodes, u) && NodeOK(nodes, x) && u != x && 0 <= l < |nodes[u].fwd|
    requires nodes[u].fwd[l] == x ==> l < |nodes[x].fwd|
  {
    if nodes[u].fwd[l] == x then
      SetFwd(SetSpan(nodes, u, l, nodes[u].span[l] + nodes[x].span[l] - 1), u, l, nodes[x].fwd[l])
    else
      SetSpan(nodes, u, l, nodes[u].span[l] - 1)
  }

  lemma UnsplicedKeeps(nodes: map<int, Node>, order: seq<int>, level: int, l: int, p: int, r: int)
    requires Shape(nodes, order) && Distinct(order) && 0 <= r < |order| - 1 && Shape(nodes, Cut(order, r))
    requires 0 <= l < level <= MAXLEVEL && LevelsOK(nodes, Cut(order, r), order, l, level)
    requires 0 <= p < |order| && OnPath(nodes, order, order[p], l, p, r) && BareTop(nodes, level)
    ensures nodes[order[p]].fwd[l] == order[r + 1] ==> l < Height(nodes, order[r + 1])
    ensures var nodes' := Unspliced(nodes, l, order[p], order[r + 1]);
            && Shape(nodes', order) && Shape(nodes', Cut(order, r))
            && SameData(nodes, nodes', order) && nodes'[order[r + 1]] == nodes[order[r + 1]]
            && LevelsOK(nodes', Cut(order, r), order, l + 1, level) && BareTop(nodes', level)
  {
    LinkTarget(nodes, order, l, p, r);
    UnsplicedShape(nodes, order, l, p, r);
    var nodes', order' := Unspliced(nodes, l, order[p], order[r + 1]), Cut(order, r);
    LinkOut(nodes, nodes', order, l, p, r);
    forall k | 0 <= k < l ensures LevelOK(nodes', order', k) {
      FrameLevel(nodes, nodes', order', k);
    }
    forall k | l < k < level ensures LevelOK(nodes', order, k) {
      FrameLevel(nodes, nodes', order, k);
    }
  }

  lemma UnsplicedShape(nodes: map<int, Node>, order: seq<int>, l: int, p: int, r: int)
    requires Shape(nodes, order) && Distinct(order) && 0 <= p <= r < |order| - 1 && Shape(nodes, Cut(order, r))
    requires 0 <= l < Height(nodes, order[p])
    requires nodes[order[p]].fwd[l] == order[r + 1] ==> l < Height(nodes, order[r + 1])
    ensures var nodes' := Unspliced(nodes, l, order[p], order[r + 1]);
            && Shape(nodes', order) && Shape(nodes', Cut(order, r))
            && SameData(nodes, nodes', order) && nodes'[order[r + 1]] == nodes[order[r + 1]]
            && SameLevel(nodes, nodes', order, l, order[p])
            && (forall k :: 0 <= k < MAXLEVEL && k != l ==> SameLevel(nodes, nodes', order, k, NIL) && SameLevel(nodes, nodes', Cut(order, r), k, NIL))
  {
    var order' := Cut(order, r);
    assert forall k :: 0 <= k < |order'| ==> order'[k] == order[if k <= r then k else k + 1];
  }

  /** The header leads nowhere at the top level: the level can fall. */
  lemma FallenKeeps(nodes: map<int, Node>, order: seq<int>, level: int)
    requires Core(nodes, order, level) && level > 1 && nodes[HEADER].fwd[level - 1] == NIL
    ensures Core(nodes, order, level - 1)
  {
    StepAlong(nodes, order, level, level - 1, 0);
    var h := Heights(nodes, order);
    assert forall p :: 0 < p < |order| ==> h[p] <= level - 1;
  }

  /** The lowest level links every node to the next. */
  lemma LevelZero(nodes: map<int, Node>, order: seq<int>, p: int)
    requires Shape(nodes, order) && LevelOK(nodes, order, 0) && 0 <= p < |order|
    ensures nodes[order[p]].fwd[0] == At(order, p + 1)
  {
    assert Linked(nodes, order, 0, p);
    var h := Heights(nodes, order);
    assert p + 1 < |order| ==> h[p + 1] > 0;
  }

  // ---------------------------------------------------------------- elements and backward links

  function ElemAt(nodes: map<int, Node>, id: int): Elem {
    if id in nodes then nodes[id].elem else Elem(0.0, [])
  }

  /** The elements in order of rank. */
  function ElemsOf(nodes: map<int, Node>, order: seq<int>): (s: seq<Elem>)
    requires order != []
    ensures |s| == |order| - 1
    ensures forall i :: 0 <= i < |s| ==> s[i] == ElemAt(nodes, order[i + 1])
  {
    seq(|order| - 1, i requires 0 <= i < |order| - 1 => ElemAt(nodes, order[i + 1]))
  }

  lemma CountAt(nodes: map<int, Node>, order: seq<int>, q: Query, p: int)
    requires Shape(nodes, order) && Sorted(ElemsOf(nodes, order)) && 0 < p < |order|
    ensures Takes(q, nodes[order[p]].elem) <==> p <= Count(ElemsOf(nodes, order), q)
  {
    var s := ElemsOf(nodes, order);
    CountSplits(s, q);
    assert s[p - 1] == nodes[order[p]].elem;
  }

  lemma ElemsPut(nodes: map<int, Node>, nodes': map<int, Node>, order: seq<int>, r: int, x: int)
    requires 0 <= r < |order| && (forall p :: 0 <= p < |order| ==> ElemAt(nodes', order[p]) == ElemAt(nodes, order[p]))
    ensures ElemsOf(nodes', Put(order, r, x)) == ElemsOf(nodes, order)[..r] + [ElemAt(nodes', x)] + ElemsOf(nodes, order)[r..]
  {
    var o := Put(order, r, x);
    assert forall k :: 0 <= k < |o| ==> o[k] == if k <= r then order[k] else if k == r + 1 then x else order[k - 1];
  }

  lemma ElemsCut(nodes: map<int, Node>, nodes': map<int, Node>, order: seq<int>, r: int)
    requires 0 <= r < |order| - 1 && (forall p :: 0 <= p < |order| ==> ElemAt(nodes', order[p]) == ElemAt(nodes, order[p]))
    ensures ElemsOf(nodes', Cut(order, r)) == Without(ElemsOf(nodes, order), r)
  {
    var o := Cut(order, r);
    assert forall k :: 0 <= k < |o| ==> o[k] == order[if k <= r then k else k + 1];
  }

  function BackAt(order: seq<int>, p: int): int {
    if 2 <= p < |order| then order[p - 1] else NIL
  }

  ghost predicate BackOK(nodes: map<int, Node>, order: seq<int>, p: int) {
    0 <= p < |order| ==> order[p] in nodes && nodes[order[p]].back == BackAt(order, p)
  }

  ghost predicate Backs(nodes: map<int, Node>, order: seq<int>) {
    forall p {:trigger BackOK(nodes, order, p)} :: BackOK(nodes, order, p)
  }

  /** The backward links after an insertion: the new node's, and its follower's. */
  lemma BacksPut(nodes: map<int, Node>, nodes': map<int, Node>, order: seq<int>, r: int, x: int)
    requires 0 <= r < |order| && Backs(nodes, order) && x !in order
    requires x in nodes' && nodes'[x].back == (if r == 0 then NIL else order[r])
    requires forall p :: 0 <= p < |order| ==> order[p] in nodes && order[p] in nodes' && nodes'[order[p]].back == if p == r + 1 then x else nodes[order[p]].back
    ensures Backs(nodes', Put(order, r, x))
  {
    var o := Put(order, r, x);
    forall k ensures BackOK(nodes', o, k) {
      if 0 <= k < |o| && k != r + 1 {
        var k0 := if k <= r then k else k - 1;
        assert BackOK(nodes, order, k0) && o[k] == order[k0];
        assert k > 0 ==> o[k - 1] == if k <= r then order[k - 1] else if k == r + 2 then x else order[k - 2];
      }
    }
  }

  lemma BacksCut(nodes: map<int, Node>, nodes': map<int, Node>, order: seq<int>, r: int)
    requires 0 <= r < |order| - 1 && Backs(nodes, order)
    requires forall p :: 0 <= p < |order| ==> order[p] in nodes && order[p] in nodes' && nodes'[order[p]].back == if p == r + 2 then BackAt(order, r + 1) else nodes[order[p]].back
    ensures Backs(nodes', Cut(order, r))
  {
    var o := Cut(order, r);
    forall k ensures BackOK(nodes', o, k) {
      if 0 <= k < |o| {
        var k0 := if k <= r then k else k + 1;
        assert BackOK(nodes, order, k0) && o[k] == order[k0];
        assert k > 0 ==> o[k - 1] == order[if k - 1 <= r then k - 1 else k];
      }
    }
  }

  lemma PathKept(nodes: map<int, Node>, nodes': map<int, Node>, order: seq<int>, level: int, update: seq<int>, rank: seq<int>, r: int)
    requires Path(nodes, order, level, update, rank, r) && SameData(nodes, nodes', order)
    ensures Path(nodes', order, level, update, rank, r)
  {
    SameHeights(nodes, nodes', order);
    forall l | 0 <= l < level ensures OnPath(nodes', order, update[l], l, rank[l], r) {
      assert OnPath(nodes, order, update[l], l, rank[l], r);
    }
  }

  lemma SameDataChain(a: map<int, Node>, b: map<int, Node>, c: map<int, Node>, order: seq<int>)
    requires SameData(a, b, order) && SameData(b, c, order)
    ensures SameData(a, c, order)
  {
  }
}

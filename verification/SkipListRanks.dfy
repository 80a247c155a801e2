/**
  The rank slGetRank answers (skiplist.c), for any heights the nodes were given: when it is right,
  and what it answers for a pair that is not in the list.
 */
module SkipListRanks {
  import opened ByteOrder
  import opened Common
  import opened SkipListLinks

  /** The last position up to r whose node reaches above level l. */
  ghost function Pause(nodes: map<int, Node>, order: seq<int>, l: int, r: int): (p: int)
    requires r < |order|
    ensures 0 <= p && (0 < p ==> p <= r)
    decreases r
  {
    if r <= 0 then 0 else if Height(nodes, order[r]) > l then r else Pause(nodes, order, l, r - 1)
  }

  /** Where slGetRank stops: at the highest level below i that pauses at a node with the object. */
  ghost function RankFound(nodes: map<int, Node>, order: seq<int>, i: int, obj: Bytes, r: int): int
    requires r < |order|
    decreases i
  {
    if i <= 0 then 0 else
      var p := Pause(nodes, order, i - 1, r);
      if 0 < p && ElemAt(nodes, order[p]).obj == obj then p else RankFound(nodes, order, i - 1, obj, r)
  }

  lemma {:induction false} PauseIs(nodes: map<int, Node>, order: seq<int>, id: int, l: int, p: int, r: int)
    requires OnPath(nodes, order, id, l, p, r)
    ensures Pause(nodes, order, l, r) == p
    decreases r
  {
    if p < r {
      var h := Heights(nodes, order);
      assert h[r] <= l;
      PauseIs(nodes, order, id, l, p, r - 1);
    }
  }

  /** An object is in the set at most once. */
  ghost predicate UniqueObjs(s: seq<Elem>) {
    forall i, j :: 0 <= i < j < |s| ==> s[i].obj != s[j].obj
  }

  /** The search pauses, on some level, at a node with the object. */
  ghost predicate Meets(nodes: map<int, Node>, order: seq<int>, i: int, obj: Bytes, r: int)
    requires r < |order|
  {
    exists l :: 0 <= l < i && MeetsAt(nodes, order, l, obj, r)
  }

  ghost predicate MeetsAt(nodes: map<int, Node>, order: seq<int>, l: int, obj: Bytes, r: int)
    requires r < |order|
  {
    var p := Pause(nodes, order, l, r);
    0 < p && ElemAt(nodes, order[p]).obj == obj
  }

  lemma {:induction false} RankFoundIs(nodes: map<int, Node>, order: seq<int>, i: int, obj: Bytes, r: int)
    requires 0 <= r < |order|
    ensures var k := RankFound(nodes, order, i, obj, r);
            && 0 <= k <= r && (k > 0 <==> Meets(nodes, order, i, obj, r))
            && (k > 0 ==> ElemAt(nodes, order[k]).obj == obj)
    decreases i
  {
    if i > 0 {
      RankFoundIs(nodes, order, i - 1, obj, r);
      if 0 < Pause(nodes, order, i - 1, r) && ElemAt(nodes, order[Pause(nodes, order, i - 1, r)]).obj == obj {
        assert MeetsAt(nodes, order, i - 1, obj, r);
      }
    }
  }

  /** At the lowest level the search ends on the element itself. */
  lemma RankOfPresent(nodes: map<int, Node>, order: seq<int>, level: int, e: Elem)
    requires Core(nodes, order, level) && Sorted(ElemsOf(nodes, order)) && e in ElemsOf(nodes, order)
    ensures Meets(nodes, order, level, e.obj, Count(ElemsOf(nodes, order), UpTo(e)))
  {
    var s := ElemsOf(nodes, order);
    var r := Count(s, UpTo(e));
    var j :| 0 <= j < |s| && s[j] == e;
    CountSplits(s, UpTo(e));
    CompareEqual(e.obj, e.obj);
    assert Takes(UpTo(e), s[j]) && j < r;
    assert Takes(UpTo(e), s[r - 1]);
    assert !Less(s[r - 1], s[j]) by {
      LessIsTotal(s[j], s[r - 1], e);
      assert j < r - 1 ==> !Less(s[r - 1], s[j]);
    }
    CompareEqual(s[r - 1].obj, e.obj);
    LessIsTotal(e, s[r - 1], e);
    assert s[r - 1] == e;
    assert NodeOK(nodes, order[r]);
    assert Pause(nodes, order, 0, r) == r;
    assert MeetsAt(nodes, order, 0, e.obj, r);
  }

  /** On level l the search pauses at p: the last node up to r that reaches it. */
  lemma {:induction false} PauseAt(nodes: map<int, Node>, order: seq<int>, l: int, p: int, r: int)
    requires 1 <= p <= r < |order| && 0 <= l
    ensures Pause(nodes, order, l, r) == p <==>
      Height(nodes, order[p]) > l && forall q :: p < q <= r ==> Height(nodes, order[q]) <= l
    decreases r
  {
    if p < r {
      PauseAt(nodes, order, l, p, r - 1);
    }
  }

  /** A node with the object that stands at p, at or before r, taller than every node between. */
  ghost predicate Shows(nodes: map<int, Node>, order: seq<int>, p: int, obj: Bytes, r: int)
    requires r < |order|
  {
    1 <= p <= r && ElemAt(nodes, order[p]).obj == obj && forall q :: p < q <= r ==> Height(nodes, order[q]) < Height(nodes, order[p])
  }

  /** In terms of heights: the search meets the object exactly at a node that shows. */
  lemma MeetsIsShows(nodes: map<int, Node>, order: seq<int>, level: int, obj: Bytes, r: int)
    requires Core(nodes, order, level) && 0 <= r < |order|
    ensures Meets(nodes, order, level, obj, r) <==> exists p :: Shows(nodes, order, p, obj, r)
  {
    if Meets(nodes, order, level, obj, r) {
      var l :| 0 <= l < level && MeetsAt(nodes, order, l, obj, r);
      var p := Pause(nodes, order, l, r);
      PauseAt(nodes, order, l, p, r);
      assert Shows(nodes, order, p, obj, r);
    }
    if p :| Shows(nodes, order, p, obj, r) {
      var l := Height(nodes, order[p]) - 1;
      assert NodeOK(nodes, order[p]);
      PauseAt(nodes, order, l, p, r);
      assert MeetsAt(nodes, order, l, obj, r);
    }
  }

  /**
    With objects unique, slGetRank finds the rank of every pair that is present. Asked for an absent
    one it answers the rank of the element with that object if that comes at or before the place of
    the pair and is taller than every node from there to the place, and 0 otherwise.
   */
  lemma RankIsRight(nodes: map<int, Node>, order: seq<int>, level: int, e: Elem)
    requires Core(nodes, order, level) && Sorted(ElemsOf(nodes, order)) && UniqueObjs(ElemsOf(nodes, order))
    ensures var s := ElemsOf(nodes, order); var r := Count(s, UpTo(e)); var k := RankFound(nodes, order, level, e.obj, r);
            && (e in s ==> 1 <= k <= |s| && s[k - 1] == e && k == Below(s, e) + 1)
            && (k != 0 <==> exists p :: Shows(nodes, order, p, e.obj, r))
            && (forall p :: Shows(nodes, order, p, e.obj, r) ==> k == p)
  {
    var s := ElemsOf(nodes, order);
    var r := Count(s, UpTo(e));
    var k := RankFound(nodes, order, level, e.obj, r);
    RankFoundIs(nodes, order, level, e.obj, r);
    MeetsIsShows(nodes, order, level, e.obj, r);
    forall p | Shows(nodes, order, p, e.obj, r) ensures k == p {
      assert s[p - 1].obj == s[k - 1].obj;
    }
    if e in s {
      RankOfPresent(nodes, order, level, e);
      HasMeansIn(s, e);
      assert s[Below(s, e)] == e && s[k - 1].obj == e.obj;
    }
  }

  // ---------------------------------------------------------------- any heights

  /** The first position from q on whose node reaches above level l, or the end. */
  function NextAt(h: seq<int>, l: int, q: nat): (n: nat)
    ensures q < |h| ==> q <= n <= |h| && (n < |h| ==> h[n] > l) && forall k :: q <= k < n ==> h[k] <= l
    decreases |h| - q
  {
    if q >= |h| then |h| else if h[q] > l then q else NextAt(h, l, q + 1)
  }

  function BuiltNode(s: seq<Elem>, h: seq<int>, i: nat): Node
    requires |h| == |s| + 1 && i < |h| && 0 <= h[i]
  {
    Node(if i == 0 then Elem(0.0, []) else s[i - 1], NIL,
         seq(h[i], l requires 0 <= l < h[i] => if NextAt(h, l, i + 1) < |h| then NextAt(h, l, i + 1) else NIL),
         seq(h[i], l requires 0 <= l < h[i] => NextAt(h, l, i + 1) - i - if NextAt(h, l, i + 1) < |h| then 0 else 1))
  }

  ghost predicate HeightsFit(h: seq<int>, level: int) {
    && 1 <= level <= MAXLEVEL && h != [] && h[0] == MAXLEVEL
    && forall i :: 0 < i < |h| ==> 1 <= h[i] <= level
  }

  /** A list of the elements of s whose nodes have the heights h: node i is at address i. */
  function Built(s: seq<Elem>, h: seq<int>): map<int, Node>
    requires |h| == |s| + 1 && forall i :: 0 <= i < |h| ==> 0 <= h[i]
  {
    map i: int | 0 <= i < |h| :: BuiltNode(s, h, i)
  }

  function Positions(n: nat): seq<int> {
    seq(n, i => i)
  }

  /** Whatever heights are drawn, there is a list with them. */
  lemma AnyHeights(s: seq<Elem>, h: seq<int>, level: int)
    requires |h| == |s| + 1 && HeightsFit(h, level)
    ensures var nodes, order := Built(s, h), Positions(|h|);
            Core(nodes, order, level) && ElemsOf(nodes, order) == s && Heights(nodes, order) == h
  {
    var nodes, order := Built(s, h), Positions(|h|);
    BuiltShape(s, h, level);
    forall l | 0 <= l < level ensures LevelOK(nodes, order, l) {
      forall p ensures Linked(nodes, order, l, p) {
        BuiltLinked(s, h, level, l, p);
      }
    }
    forall l | level <= l < MAXLEVEL ensures nodes[HEADER].fwd[l] == NIL {
      assert NextAt(h, l, 1) == |h|;
    }
  }

  lemma BuiltShape(s: seq<Elem>, h: seq<int>, level: int)
    requires |h| == |s| + 1 && HeightsFit(h, level)
    ensures var nodes, order := Built(s, h), Positions(|h|);
            Shape(nodes, order) && Distinct(order) && ElemsOf(nodes, order) == s && Heights(nodes, order) == h
  {
    var nodes, order := Built(s, h), Positions(|h|);
    forall p | 0 <= p < |order| ensures NodeOK(nodes, order[p]) {
      assert order[p] == p && nodes[p] == BuiltNode(s, h, p);
    }
  }

  lemma BuiltLinked(s: seq<Elem>, h: seq<int>, level: int, l: int, p: int)
    requires |h| == |s| + 1 && HeightsFit(h, level) && 0 <= l < level
    requires Shape(Built(s, h), Positions(|h|)) && Heights(Built(s, h), Positions(|h|)) == h
    ensures Linked(Built(s, h), Positions(|h|), l, p)
  {
    var nodes, order := Built(s, h), Positions(|h|);
    if 0 <= p < |order| && l < h[p] {
      var q := NextAt(h, l, p + 1);
      assert nodes[p] == BuiltNode(s, h, p);
      assert NextOf(nodes[p], l, p) == q;
      assert nodes[p].fwd[l] == At(order, q);
      assert NextIs(h, l, p, q);
    }
  }

  // ---------------------------------------------------------------- an absent pair, over all heights

  /** In every list of these elements the pair gets rank 0. */
  ghost predicate NeverFound(s: seq<Elem>, e: Elem) {
    forall nodes: map<int, Node>, order: seq<int>, level: int ::
      Core(nodes, order, level) && ElemsOf(nodes, order) == s ==>
        RankFound(nodes, order, level, e.obj, Count(s, UpTo(e))) == 0
  }

  /** An element with a smaller score, and heights with which it is taken for the pair. */
  lemma TallIsFound(s: seq<Elem>, e: Elem, i: nat)
    requires Sorted(s) && UniqueObjs(s) && i < |s| && s[i].obj == e.obj && s[i].score < e.score
    ensures !NeverFound(s, e)
  {
    var h := seq(|s| + 1, p => if p == 0 then MAXLEVEL else if p == i + 1 then 2 else 1);
    AnyHeights(s, h, 2);
    hide Sorted, UniqueObjs, Core, Built, Positions, NeverFound;
    TallFound(Built(s, h), Positions(|h|), s, h, e, i);
  }

  lemma TallFound(nodes: map<int, Node>, order: seq<int>, s: seq<Elem>, h: seq<int>, e: Elem, i: nat)
    requires Core(nodes, order, 2) && ElemsOf(nodes, order) == s && Heights(nodes, order) == h
    requires Sorted(s) && UniqueObjs(s) && i < |s| && s[i].obj == e.obj && s[i].score < e.score
    requires h[i + 1] == 2 && forall q :: 1 <= q < |h| && q != i + 1 ==> h[q] == 1
    ensures !NeverFound(s, e)
  {
    var r := Count(s, UpTo(e));
    SmallerComesFirst(s, e, i);
    assert ElemAt(nodes, order[i + 1]) == s[i];
    TallShows(nodes, order, h, i + 1, e.obj, r);
    RankIsRight(nodes, order, 2, e);
    assert RankFound(nodes, order, 2, e.obj, r) != 0;
  }

  lemma SmallerComesFirst(s: seq<Elem>, e: Elem, i: nat)
    requires Sorted(s) && i < |s| && s[i].score < e.score
    ensures i < Count(s, UpTo(e)) <= |s|
  {
    CountSplits(s, UpTo(e));
    assert Takes(UpTo(e), s[i]);
  }

  lemma TallShows(nodes: map<int, Node>, order: seq<int>, h: seq<int>, p: int, obj: Bytes, r: int)
    requires 1 <= p <= r < |order| && Heights(nodes, order) == h && ElemAt(nodes, order[p]).obj == obj
    requires h[p] == 2 && forall q :: 1 <= q < |h| && q != p ==> h[q] == 1
    ensures Shows(nodes, order, p, obj, r)
  {
    assert Height(nodes, order[p]) == h[p];
    forall q | p < q <= r ensures Height(nodes, order[q]) < Height(nodes, order[p]) {
      assert Height(nodes, order[q]) == h[q];
    }
  }

  /** What is taken for an absent pair has a smaller score. */
  lemma ShownIsSmaller(nodes: map<int, Node>, order: seq<int>, e: Elem, p: int)
    requires order != [] && Sorted(ElemsOf(nodes, order)) && e !in ElemsOf(nodes, order)
    requires var r := Count(ElemsOf(nodes, order), UpTo(e)); Shows(nodes, order, p, e.obj, r)
    ensures ElemAt(nodes, order[p]) in ElemsOf(nodes, order) && ElemAt(nodes, order[p]).score < e.score
  {
    var s := ElemsOf(nodes, order);
    CountSplits(s, UpTo(e));
    assert s[p - 1] == ElemAt(nodes, order[p]) && Takes(UpTo(e), s[p - 1]);
    assert s[p - 1] != e;
  }

  lemma NotShown(nodes: map<int, Node>, order: seq<int>, level: int, e: Elem)
    requires Core(nodes, order, level)
    requires Sorted(ElemsOf(nodes, order)) && UniqueObjs(ElemsOf(nodes, order)) && e !in ElemsOf(nodes, order)
    requires forall x :: x in ElemsOf(nodes, order) && x.obj == e.obj ==> x.score >= e.score
    ensures RankFound(nodes, order, level, e.obj, Count(ElemsOf(nodes, order), UpTo(e))) == 0
  {
    RankIsRight(nodes, order, level, e);
    if p :| Shows(nodes, order, p, e.obj, Count(ElemsOf(nodes, order), UpTo(e))) {
      ShownIsSmaller(nodes, order, e, p);
      assert false;
    }
  }

  /** An absent pair gets rank 0 whatever the heights if and only if no element with its object has a smaller score. */
  lemma NeverFoundIs(s: seq<Elem>, e: Elem)
    requires Sorted(s) && UniqueObjs(s) && e !in s
    ensures NeverFound(s, e) <==> forall x :: x in s && x.obj == e.obj ==> x.score >= e.score
  {
    if x :| x in s && x.obj == e.obj && x.score < e.score {
      var i :| 0 <= i < |s| && s[i] == x;
      TallIsFound(s, e, i);
    } else {
      NoneSmaller(s, e);
    }
  }

  lemma NoneSmaller(s: seq<Elem>, e: Elem)
    requires Sorted(s) && UniqueObjs(s) && e !in s && forall x :: x in s && x.obj == e.obj ==> x.score >= e.score
    ensures NeverFound(s, e)
  {
    forall nodes: map<int, Node>, order: seq<int>, level: int | Core(nodes, order, level) && ElemsOf(nodes, order) == s
      ensures RankFound(nodes, order, level, e.obj, Count(s, UpTo(e))) == 0
    {
      NotShown(nodes, order, level, e);
    }
  }
}

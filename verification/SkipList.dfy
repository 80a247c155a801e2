/**
  The skip list with spans (skiplist.c) and the range queries of its Lua binding (lskiplist.c).
  Every operation is proved to do to the sorted sequence of elements what its name says, whatever
  heights the nodes are given.
 */
module SkipList {
  import opened ByteOrder
  import opened Common
  import opened SkipListLinks
  import opened SkipListRanks

  class List {
    /** The memory the nodes live in. */
    var nodes: map<int, Node>
    var tail: int
    var length: int
    var level: int
    /** The addresses in order of rank, the header first. */
    ghost var order: seq<int>

    ghost predicate Valid()
      reads this
    {
      && Core(nodes, order, level) && Backs(nodes, order)
      && length == |order| - 1 && tail == (if length == 0 then NIL else order[length])
      && Sorted(ElemsOf(nodes, order))
    }

    ghost function Elems(): seq<Elem>
      reads this
      requires order != []
    {
      ElemsOf(nodes, order)
    }

    /** slCreate. */
    constructor ()
      ensures Valid() && Elems() == [] && nodes.Keys == {HEADER} && level == 1
    {
      nodes := map[HEADER := Node(Elem(0.0, []), NIL, seq(MAXLEVEL, _ => NIL), seq(MAXLEVEL, _ => 0))];
      tail, length, level, order := NIL, 0, 1, [HEADER];
      new;
      forall p ensures Linked(nodes, order, 0, p) {
      }
      assert LevelOK(nodes, order, 0);
    }

    /** The inner loop of the searches by element or score: along one level as far as the query takes the nodes. */
    method Walk(from: int, i: int, q: Query, ghost p0: int, ghost r: int) returns (x: int, crossed: int)
      requires Steers(nodes, order, i, q, r)
      requires 0 <= p0 <= r < |order| && order[p0] == from && 0 <= i < Height(nodes, from)
      ensures OnPath(nodes, order, x, i, p0 + crossed, r) && crossed >= 0
    {
      x, crossed := from, 0;
      assert Turn(nodes, order, i, p0, r) && Steered(nodes, order, i, p0, q, r);
      while nodes[x].fwd[i] != NIL && Takes(q, nodes[nodes[x].fwd[i]].elem)
        invariant p0 <= p0 + crossed <= r && order[p0 + crossed] == x && i < Height(nodes, x)
        invariant Turn(nodes, order, i, p0 + crossed, r) && Steered(nodes, order, i, p0 + crossed, q, r)
        decreases r - crossed
      {
        crossed := crossed + nodes[x].span[i];
        x := nodes[x].fwd[i];
        assert Turn(nodes, order, i, p0 + crossed, r) && Steered(nodes, order, i, p0 + crossed, q, r);
      }
    }

    /** The search that slInsert and slDelete begin with: where the element is or would be, level by level. */
    method Descend(e: Elem) returns (update: seq<int>, rank: seq<int>)
      requires Valid()
      ensures Path(nodes, order, level, update, rank, Below(Elems(), e))
      ensures rank[0] == Below(Elems(), e) && update[0] == order[rank[0]]
    {
      update, rank := seq(MAXLEVEL, _ => HEADER), seq(MAXLEVEL, _ => 0);
      ghost var r := Below(Elems(), e);
      var x, i := HEADER, level;
      while i > 0
        invariant 0 <= i <= level && |update| == |rank| == MAXLEVEL
        invariant if i == level then x == HEADER else x == update[i]
        invariant forall l :: i <= l < level ==> OnPath(nodes, order, update[l], l, rank[l], r)
      {
        i := i - 1;
        rank := rank[i := if i == level - 1 then 0 else rank[i + 1]];
        var crossed;
        LookAhead(nodes, order, level, i, Under(e));
        x, crossed := Walk(x, i, Under(e), rank[i], r);
        rank := rank[i := rank[i] + crossed];
        update := update[i := x];
      }
      BottomOfPath(nodes, order, level, update[0], rank[0], r);
    }

    /** slInsert when the new node is higher than the list: the header joins the path there. */
    method Raise(lvl: int, update: seq<int>, rank: seq<int>, ghost r: int) returns (update': seq<int>, rank': seq<int>)
      requires Core(nodes, order, level) && length == |order| - 1 && level < lvl <= MAXLEVEL
      requires Path(nodes, order, level, update, rank, r) && 0 <= r < |order|
      modifies this`nodes, this`level
      ensures Core(nodes, order, level) && level == lvl && SameData(old(nodes), nodes, order) && nodes.Keys == old(nodes.Keys)
      ensures Path(nodes, order, level, update', rank', r) && rank'[0] == rank[0] && update'[0] == update[0]
    {
      hide OnPath, LevelsOK, BareTop;
      update', rank' := update, rank;
      var i := level;
      while i < lvl
        invariant level <= i <= lvl && Raised(old(nodes), nodes, order, i)
        invariant Path(nodes, order, i, update', rank', r) && rank'[0] == rank[0] && update'[0] == update[0]
      {
        RaiseTurn(old(nodes), nodes, order, i, update', rank', r);
        rank' := rank'[i := 0];
        update' := update'[i := HEADER];
        nodes := SetSpan(nodes, update'[i], i, length);
        i := i + 1;
      }
      level := lvl;
    }

    /** The loop of slInsert that links the new node in at each of its levels. */
    method Splice(x: int, lvl: int, update: seq<int>, rank: seq<int>, ghost r: int)
      requires Midway(nodes, nodes, order, r, x, 0, level) && Height(nodes, x) == lvl <= level
      requires Path(nodes, order, level, update, rank, r) && rank[0] == r
      modifies this`nodes
      ensures Midway(old(nodes), nodes, order, r, x, lvl, level)
    {
      var i := 0;
      while i < lvl
        invariant 0 <= i <= lvl && Midway(old(nodes), nodes, order, r, x, i, level)
      {
        SpliceTurn(old(nodes), nodes, order, r, x, i, level, update, rank);
        nodes := Spliced(nodes, i, update[i], x, rank[0] - rank[i]);
        i := i + 1;
      }
    }

    /** The loop of slInsert that lengthens the links passing over the new node. */
    method Grow(ghost before: map<int, Node>, ghost x: int, lvl: int, update: seq<int>, ghost rank: seq<int>, ghost r: int)
      requires Midway(before, nodes, order, r, x, lvl, level) && Height(nodes, x) == lvl <= level
      requires Path(before, order, level, update, rank, r)
      modifies this`nodes
      ensures Midway(before, nodes, order, r, x, level, level)
    {
      var i := lvl;
      while i < level
        invariant lvl <= i <= level && Midway(before, nodes, order, r, x, i, level)
      {
        GrowTurn(before, nodes, order, r, x, i, level, update, rank);
        nodes := SetSpan(nodes, update[i], i, nodes[update[i]].span[i] + 1);
        i := i + 1;
      }
    }

    /** The middle of slInsert: the new node on all its levels. */
    method LinkNew(e: Elem, lvl: int, x: int, update: seq<int>, rank: seq<int>, ghost r: int)
      requires Core(nodes, order, level) && 1 <= lvl <= level && x !in nodes && x != NIL
      requires Path(nodes, order, level, update, rank, r) && 0 <= r < |order| && rank[0] == r
      modifies this`nodes
      ensures Core(nodes, Put(order, r, x), level) && SameData(old(nodes), nodes, order) && nodes.Keys == old(nodes.Keys) + {x}
      ensures NodeOK(nodes, x) && nodes[x].elem == e && nodes[x].back == NIL && Height(nodes, x) == lvl && x !in order
    {
      ghost var nodes1 := nodes;
      nodes := nodes[x := Node(e, NIL, seq(lvl, _ => NIL), seq(lvl, _ => 0))];
      ghost var nodes2 := nodes;
      Created(nodes1, nodes2, order, level, r, x, update, rank);
      Splice(x, lvl, update, rank, r);
      Grow(nodes2, x, lvl, update, rank, r);
      SplicedCore(nodes2, nodes, order, r, x, level);
      SameDataChain(nodes1, nodes2, nodes, order);
    }

    /** The end of slInsert: the backward links of the new node and its follower, the tail and the length. */
    method LinkBack(x: int, back: int)
      requires NodeOK(nodes, x) && (nodes[x].fwd[0] == NIL || nodes[x].fwd[0] in nodes)
      modifies this`nodes, this`tail, this`length
      ensures nodes == BackSet(old(nodes), x, back) && length == old(length) + 1
      ensures tail == if old(nodes[x].fwd[0]) == NIL then x else old(tail)
    {
      nodes := nodes[x := nodes[x].(back := back)];
      if nodes[x].fwd[0] != NIL {
        nodes := nodes[nodes[x].fwd[0] := nodes[nodes[x].fwd[0]].(back := x)];
      } else {
        tail := x;
      }
      length := length + 1;
    }

    /** slInsert up to there. */
    method Place(e: Elem, lvl: int, x: int) returns (before: int)
      requires Valid() && 1 <= lvl <= MAXLEVEL && x !in nodes && x != NIL
      modifies this`nodes, this`level
      ensures Core(nodes, Put(order, Below(old(Elems()), e), x), level) && SameData(old(nodes), nodes, order)
      ensures NodeOK(nodes, x) && nodes[x].elem == e && Height(nodes, x) == lvl && x !in order
      ensures nodes.Keys == old(nodes.Keys) + {x} && before == order[Below(old(Elems()), e)]
      ensures level == if lvl > old(level) then lvl else old(level)
    {
      ghost var r, nodes0 := Below(Elems(), e), nodes;
      var update, rank := Descend(e);
      if lvl > level {
        update, rank := Raise(lvl, update, rank, r);
      }
      ghost var nodes1 := nodes;
      LinkNew(e, lvl, x, update, rank, r);
      SameDataChain(nodes0, nodes1, nodes, order);
      before := update[0];
    }

    /** slInsert, for the level that slRandomLevel chose and the memory that malloc gave. */
    method Insert(score: real, obj: Bytes, lvl: int, x: int)
      requires Valid() && 1 <= lvl <= MAXLEVEL && x !in nodes && x != NIL
      modifies this
      ensures Valid() && Elems() == Inserted(old(Elems()), Elem(score, obj)) && nodes.Keys == old(nodes.Keys) + {x}
      ensures order == Put(old(order), Below(old(Elems()), Elem(score, obj)), x) && Height(nodes, x) == lvl
      ensures level == if lvl > old(level) then lvl else old(level)
    {
      ghost var r, nodes0 := Below(Elems(), Elem(score, obj)), nodes;
      var before := Place(Elem(score, obj), lvl, x);
      BackLinks(nodes0, nodes, order, level, r, x);
      LinkBack(x, if before == HEADER then NIL else before);
      order := Put(order, r, x);
    }

    /** The loop of slDeleteNode: the node goes, level by level. */
    method Unsplice(x: int, update: seq<int>, ghost rank: seq<int>, ghost r: int)
      requires Core(nodes, order, level) && 0 <= r < |order| - 1 && x == order[r + 1]
      requires Path(nodes, order, level, update, rank, r)
      modifies this`nodes
      ensures Halfway(old(nodes), nodes, order, r, level, level)
    {
      CutShape(nodes, order, r);
      var i := 0;
      while i < level
        invariant 0 <= i <= level && Halfway(old(nodes), nodes, order, r, i, level)
      {
        UnspliceTurn(old(nodes), nodes, order, r, i, level, update, rank);
        nodes := Unspliced(nodes, i, update[i], x);
        i := i + 1;
      }
    }

    /** The end of slDeleteNode. */
    method Unlink(x: int, ghost order': seq<int>)
      requires NodeOK(nodes, x) && (nodes[x].fwd[0] == NIL || (nodes[x].fwd[0] in nodes && nodes[x].fwd[0] != x))
      requires Core(nodes, order', level) && Core(BackFixed(nodes, x), order', level)
      modifies this
      ensures nodes == BackFixed(old(nodes), x) && length == old(length) - 1 && Core(nodes, order', level) && order == order'
      ensures tail == (if old(nodes[x].fwd[0]) == NIL then old(nodes[x].back) else old(tail)) && level <= old(level)
    {
      if nodes[x].fwd[0] != NIL {
        nodes := nodes[nodes[x].fwd[0] := nodes[nodes[x].fwd[0]].(back := nodes[x].back)];
      } else {
        tail := nodes[x].back;
      }
      while level > 1 && nodes[HEADER].fwd[level - 1] == NIL
        modifies this`level
        invariant Core(nodes, order', level) && level <= old(level)
        decreases level
      {
        FallenKeeps(nodes, order', level);
        level := level - 1;
      }
      length := length - 1;
      order := order';
    }

    /** slDeleteNode. */
    method DeleteNode(x: int, update: seq<int>, ghost rank: seq<int>, ghost r: int)
      requires Valid() && 0 <= r < |order| - 1 && x == order[r + 1] && Path(nodes, order, level, update, rank, r)
      modifies this
      ensures Valid() && order == Cut(old(order), r) && Elems() == Without(old(Elems()), r)
      ensures Path(nodes, order, level, update, rank, r) && nodes.Keys == old(nodes.Keys)
      ensures x !in order && nodes[x].elem == old(nodes[x].elem)
    {
      ghost var nodes0, length0 := nodes, length;
      CutsOut(nodes, order, level, update, rank, r);
      Unsplice(x, update, rank, r);
      BackOut(nodes0, nodes, order, level, r);
      ghost var nodes1 := nodes;
      Unlink(x, Cut(order, r));
      PathCut(nodes0, nodes, old(order), old(level), level, update, rank, r);
    }

    /** slFreeNode. */
    method FreeNode(x: int)
      requires Valid() && x !in order
      modifies this`nodes
      ensures Valid() && Elems() == old(Elems()) && nodes == old(nodes) - {x}
      ensures forall update, rank, r :: Path(old(nodes), order, level, update, rank, r) ==> Path(nodes, order, level, update, rank, r)
    {
      ghost var nodes0 := nodes;
      nodes := nodes - {x};
      Freed(nodes0, x, order, level);
    }

    /** slDelete. */
    method Delete(score: real, obj: Bytes) returns (found: bool)
      requires Valid()
      modifies this
      ensures Valid() && found == (Elem(score, obj) in old(Elems()))
      ensures Elems() == Removed(old(Elems()), Elem(score, obj))
      ensures !found ==> nodes == old(nodes)
    {
      var e := Elem(score, obj);
      ghost var r := Below(Elems(), e);
      HasMeansIn(Elems(), e);
      var update, rank := Descend(e);
      LevelZero(nodes, order, r);
      CompareEqual(At0(nodes, update[0]).obj, obj);
      var x := nodes[update[0]].fwd[0];
      if x != NIL && score == nodes[x].elem.score && Compare(nodes[x].elem.obj, obj) == 0 {
        DeleteNode(x, update, rank, r);
        FreeNode(x);
        found := true;
      } else {
        found := false;
      }
    }

    /** The inner loop of a search by rank: along one level while the next node's rank is at most r. */
    method WalkTo(from: int, i: int, p0: int, r: int) returns (x: int, p: int)
      requires Turns(nodes, order, i, r)
      requires 0 <= p0 <= r && p0 < |order| && order[p0] == from && 0 <= i < Height(nodes, from)
      ensures p0 <= p < |order| && p <= r && order[p] == x && i < Height(nodes, x) && Gap(Heights(nodes, order), i, p, r + 1)
    {
      x, p := from, p0;
      assert Turn(nodes, order, i, p, r);
      while nodes[x].fwd[i] != NIL && p + nodes[x].span[i] <= r
        invariant p0 <= p < |order| && p <= r && order[p] == x && i < Height(nodes, x)
        invariant Turn(nodes, order, i, p, r)
        decreases r - p
      {
        p := p + nodes[x].span[i];
        x := nodes[x].fwd[i];
        assert Turn(nodes, order, i, p, r);
      }
    }

    /** slGetNodeByRank: ranks count from 1. */
    method GetNodeByRank(rank: int) returns (x: int)
      requires Valid() && rank >= 0
      ensures x == if 1 <= rank <= length then order[rank] else NIL
    {
      if rank == 0 || rank > length {
        return NIL;
      }
      x := HEADER;
      var i, traversed := level, 0;
      while i > 0
        invariant 0 < i <= level && 0 <= traversed < rank && order[traversed] == x && i <= Height(nodes, x)
      {
        i := i - 1;
        RankAhead(nodes, order, level, i, rank);
        x, traversed := WalkTo(x, i, traversed, rank);
        if i == 0 {
          BottomOfPath(nodes, order, level, x, traversed, rank);
        }
        if traversed == rank {
          return;
        }
      }
      assert false;
    }

    /** One turn of the loop of slDeleteByRank. */
    method EraseNext(x: int, update: seq<int>, ghost ranks: seq<int>, ghost r: int) returns (obj: Bytes, next: int)
      requires Valid() && 0 <= r < |order| - 1 && x == order[r + 1] && Path(nodes, order, level, update, ranks, r)
      modifies this
      ensures Valid() && Path(nodes, order, level, update, ranks, r) && length == old(length) - 1
      ensures Elems() == Without(old(Elems()), r) && obj == old(Elems())[r].obj
      ensures next == At(order, r + 1) && (next == NIL <==> r == length)
    {
      ghost var e := Elems()[r];
      assert e == nodes[x].elem;
      LevelZero(nodes, order, r + 1);
      next := nodes[x].fwd[0];
      assert r + 2 < |order| ==> NodeOK(nodes, order[r + 2]);
      DeleteNode(x, update, ranks, r);
      obj := nodes[x].elem.obj;
      FreeNode(x);
    }

    /** slDeleteByRank: `gone` is what the callback is given, one by one. */
    method DeleteByRank(start: int, end: int) returns (gone: seq<Bytes>)
      requires Valid() && start >= 0 && end >= 0
      modifies this
      ensures Valid()
      ensures var s := old(Elems()); var lo := RankFloor(start, |s|); var hi := RankCeil(lo, end, |s|);
              Elems() == s[..lo] + s[hi..] && gone == Objs(s[lo..hi])
    {
      ghost var s := Elems();
      ghost var r := RankFloor(start, |s|);
      var update, ranks, traversed := PathToRank(start);
      var x := nodes[update[0]].fwd[0];
      LevelZero(nodes, order, r);
      assert r + 1 < |order| ==> NodeOK(nodes, order[r + 1]);
      traversed := traversed + 1;
      gone := [];
      ErasedNone(s, r);
      while x != NIL && traversed <= end
        invariant Valid() && Path(nodes, order, level, update, ranks, r) && 0 <= r < |order|
        invariant x == At(order, r + 1) && traversed == r + 1 + |gone| && (x == NIL <==> r == length)
        invariant gone != [] ==> r + |gone| <= end
        invariant Erased(s, Elems(), r, gone)
        decreases length
      {
        ErasedStep(s, Elems(), r, gone);
        var obj;
        obj, x := EraseNext(x, update, ranks, r);
        gone := gone + [obj];
        traversed := traversed + 1;
      }
      ErasedAll(s, Elems(), start, end, gone);
    }

    /** The search slDeleteByRank begins with. */
    method PathToRank(start: int) returns (update: seq<int>, ghost ranks: seq<int>, traversed: int)
      requires Valid() && start >= 0
      ensures traversed == RankFloor(start, |Elems()|) && Path(nodes, order, level, update, ranks, traversed)
      ensures update[0] == order[traversed]
    {
      update, ranks := seq(MAXLEVEL, _ => HEADER), seq(MAXLEVEL, _ => 0);
      ghost var r := RankFloor(start, |order| - 1);
      var x, i := HEADER, level;
      traversed := 0;
      while i > 0
        invariant 0 <= i <= level && |update| == |ranks| == MAXLEVEL
        invariant if i == level then x == HEADER && traversed == 0 else x == update[i] && traversed == ranks[i]
        invariant forall l :: i <= l < level ==> OnPath(nodes, order, update[l], l, ranks[l], r)
      {
        i := i - 1;
        if start > 0 {
          RankAhead(nodes, order, level, i, start - 1);
          x, traversed := WalkTo(x, i, traversed, start - 1);
        } else {
          assert OnPath(nodes, order, x, i, traversed, r);
        }
        update, ranks := update[i := x], ranks[i := traversed];
      }
      BottomOfPath(nodes, order, level, update[0], ranks[0], r);
    }

    /** slGetRank. It compares scores while it walks, but only objects when it decides where to stop. */
    method GetRank(score: real, obj: Bytes) returns (rank: int)
      requires Valid()
      ensures rank == RankFound(nodes, order, level, obj, Count(Elems(), UpTo(Elem(score, obj))))
    {
      hide Sorted, Count;
      var e := Elem(score, obj);
      ghost var r := Count(Elems(), UpTo(e));
      var x, i := HEADER, level;
      rank := 0;
      while i > 0
        invariant 0 <= i <= level && 0 <= rank <= r && order[rank] == x && i <= Height(nodes, x)
        invariant RankFound(nodes, order, level, obj, r) == RankFound(nodes, order, i, obj, r)
      {
        i := i - 1;
        var crossed;
        LookAhead(nodes, order, level, i, UpTo(e));
        x, crossed := Walk(x, i, UpTo(e), rank, r);
        rank := rank + crossed;
        PauseIs(nodes, order, x, i, rank, r);
        CompareEqual(nodes[x].elem.obj, obj);
        if x != HEADER && Compare(nodes[x].elem.obj, obj) == 0 {
          return;
        }
      }
      rank := 0;
    }

    /** slIsInRange. */
    method IsInRange(min: real, max: real) returns (b: bool)
      requires Valid()
      ensures b == (min <= max && length > 0 && Count(Elems(), ScoreUnder(min)) < length && Count(Elems(), ScoreUpTo(max)) > 0)
    {
      if min > max {
        return false;
      }
      if length > 0 {
        CountAt(nodes, order, ScoreUnder(min), length);
        CountAt(nodes, order, ScoreUpTo(max), 1);
        assert NodeOK(nodes, order[length]) && NodeOK(nodes, order[1]);
      }
      if tail == NIL || nodes[tail].elem.score < min {
        return false;
      }
      LevelZero(nodes, order, 0);
      var x := nodes[HEADER].fwd[0];
      if x == NIL || nodes[x].elem.score > max {
        return false;
      }
      return true;
    }

    /** The loops of slFirstInRange and slLastInRange: the last node the query takes. */
    method LastTaken(q: Query) returns (x: int)
      requires Valid()
      ensures x == order[Count(Elems(), q)]
    {
      x := HEADER;
      ghost var r, p := Count(Elems(), q), 0;
      var i := level;
      while i > 0
        invariant 0 <= i <= level && 0 <= p <= r && order[p] == x && i <= Height(nodes, x)
        invariant i == 0 ==> p == r
      {
        i := i - 1;
        var crossed;
        LookAhead(nodes, order, level, i, q);
        x, crossed := Walk(x, i, q, p, r);
        p := p + crossed;
        if i == 0 {
          BottomOfPath(nodes, order, level, x, p, r);
        }
      }
    }

    method FirstInRange(min: real, max: real) returns (x: int)
      requires Valid()
      ensures var k := FirstFound(Elems(), min, max); k < |order| && x == if k == 0 then NIL else order[k]
    {
      var b := IsInRange(min, max);
      if !b {
        return NIL;
      }
      x := LastTaken(ScoreUnder(min));
      LevelZero(nodes, order, Count(Elems(), ScoreUnder(min)));
      x := nodes[x].fwd[0];
    }

    method LastInRange(min: real, max: real) returns (x: int)
      requires Valid()
      ensures var k := LastFound(Elems(), min, max); k < |order| && x == if k == 0 then NIL else order[k]
    {
      var b := IsInRange(min, max);
      if !b {
        return NIL;
      }
      x := LastTaken(ScoreUpTo(max));
    }

    /** The loop of _get_rank_range. */
    method CollectRanks(x0: int, reverse: bool, count: int, ghost p0: int) returns (out: seq<Bytes>)
      requires order != [] && Walkable(nodes, order, Elems())
      requires 0 <= p0 <= |order| && (p0 == 0 ==> reverse) && x0 == Node1(order, p0)
      ensures out == if reverse then Back(Elems(), p0, count) else Forward(Elems(), p0 - 1, count)
    {
      var node, n := x0, 0;
      ghost var p, s := p0, Elems();
      out := [];
      assert Walks(nodes, order, s, p);
      while node != NIL && n < count
        invariant 0 <= p <= |order| && (p == 0 ==> reverse) && node == Node1(order, p) && n >= 0
        invariant Walks(nodes, order, s, p)
        invariant out + RanksFrom(s, p, reverse, count - n) == RanksFrom(s, p0, reverse, count)
        decreases count - n
      {
        RanksStep(s, p, reverse, count - n);
        n := n + 1;
        Assoc(out, [nodes[node].elem.obj], RanksFrom(s, if reverse then p - 1 else p + 1, reverse, count - n));
        out := out + [nodes[node].elem.obj];
        node := if reverse then nodes[node].back else nodes[node].fwd[0];
        p := if reverse then p - 1 else p + 1;
        assert Walks(nodes, order, s, p);
      }
    }

    /** _get_rank_range. The number of ranks is cut to a C int. */
    method RankRange(r1: int, r2: int) returns (out: seq<Bytes>)
      requires Valid() && U64(r1) && U64(r2)
      ensures 1 <= r1 <= length ==> out == RanksFrom(Elems(), r1, r1 > r2, IntOf(Width(r1, r2)))
      ensures r1 == 0 || r1 > length ==> out == []
    {
      var reverse := r1 > r2;
      var count := IntOf(Width(r1, r2));
      var node := GetNodeByRank(r1);
      CanWalk(nodes, order, level);
      if 1 <= r1 <= length {
        out := CollectRanks(node, reverse, count, r1);
      } else {
        out := CollectRanks(node, reverse, count, if reverse then 0 else |order|);
      }
    }

    /** The loop of _get_score_range. */
    method CollectScores(x0: int, reverse: bool, limit: real, ghost p0: int) returns (out: seq<Bytes>)
      requires order != [] && Walkable(nodes, order, Elems())
      requires 0 <= p0 <= |order| && (p0 == 0 ==> reverse) && x0 == Node1(order, p0)
      ensures out == ScoresFrom(Elems(), p0, reverse, limit)
    {
      var node := x0;
      ghost var p, s := p0, Elems();
      out := [];
      assert Walks(nodes, order, s, p);
      while node != NIL
        invariant 0 <= p <= |order| && (p == 0 ==> reverse) && node == Node1(order, p)
        invariant Walks(nodes, order, s, p)
        invariant out + ScoresFrom(s, p, reverse, limit) == ScoresFrom(s, p0, reverse, limit)
        decreases if reverse then p else |order| - p
      {
        ScoresStep(s, p, reverse, limit);
        if reverse {
          if nodes[node].elem.score < limit { break; }
        } else {
          if nodes[node].elem.score > limit { break; }
        }
        Assoc(out, [nodes[node].elem.obj], ScoresFrom(s, if reverse then p - 1 else p + 1, reverse, limit));
        out := out + [nodes[node].elem.obj];
        node := if reverse then nodes[node].back else nodes[node].fwd[0];
        p := if reverse then p - 1 else p + 1;
        assert Walks(nodes, order, s, p);
      }
    }

    /** _get_score_range: from the one score to the other, downwards if the first is greater. */
    method ScoreRange(s1: real, s2: real) returns (out: seq<Bytes>)
      requires Valid()
      ensures s1 <= s2 ==> out == Objs(Between(Elems(), s1, s2))
      ensures s1 > s2 ==> out == Reverse(Objs(Between(Elems(), s2, s1)))
    {
      hide ScoresFrom, Between, Reverse, Objs, Count;
      var reverse := s1 > s2;
      var node;
      CanWalk(nodes, order, level);
      ScoresAre(Elems(), if reverse then s2 else s1, if reverse then s1 else s2);
      if !reverse {
        node := FirstInRange(s1, s2);
        out := CollectScores(node, reverse, s2, if node == NIL then |order| else Count(Elems(), ScoreUnder(s1)) + 1);
      } else {
        node := LastInRange(s2, s1);
        out := CollectScores(node, reverse, s2, if node == NIL then 0 else Count(Elems(), ScoreUpTo(s1)));
      }
    }
  }

  /** The node at position p, if there is one, holds the element of that rank and leads to its neighbours both ways. */
  ghost predicate Walks(nodes: map<int, Node>, order: seq<int>, s: seq<Elem>, p: int) {
    1 <= p < |order| ==>
      && p <= |s| && |s| == |order| - 1 && order[p] != NIL && order[p] in nodes && nodes[order[p]].fwd != []
      && nodes[order[p]].elem == s[p - 1]
      && nodes[order[p]].fwd[0] == Node1(order, p + 1) && nodes[order[p]].back == Node1(order, p - 1)
  }

  ghost predicate Walkable(nodes: map<int, Node>, order: seq<int>, s: seq<Elem>) {
    |s| == |order| - 1 && forall p {:trigger Walks(nodes, order, s, p)} :: Walks(nodes, order, s, p)
  }

  lemma CanWalk(nodes: map<int, Node>, order: seq<int>, level: int)
    requires Core(nodes, order, level) && Backs(nodes, order)
    ensures Walkable(nodes, order, ElemsOf(nodes, order))
  {
    var s := ElemsOf(nodes, order);
    forall p ensures Walks(nodes, order, s, p) {
      if 1 <= p < |order| {
        LevelZero(nodes, order, p);
        assert BackOK(nodes, order, p) && NodeOK(nodes, order[p]);
        assert s[p - 1] == nodes[order[p]].elem;
      }
    }
  }

  function Node1(order: seq<int>, p: int): int {
    if 1 <= p < |order| then order[p] else NIL
  }

  /** How many ranks are asked for. */
  function Width(r1: int, r2: int): int {
    if r1 <= r2 then r2 - r1 + 1 else r1 - r2 + 1
  }

  function Forward(s: seq<Elem>, i: int, n: int): seq<Bytes>
    requires i >= 0
    decreases n
  {
    if n <= 0 || i >= |s| then [] else [s[i].obj] + Forward(s, i + 1, n - 1)
  }

  function Back(s: seq<Elem>, i: int, n: int): seq<Bytes>
    decreases n
  {
    if n <= 0 || i <= 0 || i > |s| then [] else [s[i - 1].obj] + Back(s, i - 1, n - 1)
  }

  function ForwardWhile(s: seq<Elem>, i: int, limit: real): seq<Bytes>
    requires i >= 0
    decreases |s| - i
  {
    if i >= |s| || s[i].score > limit then [] else [s[i].obj] + ForwardWhile(s, i + 1, limit)
  }

  function BackWhile(s: seq<Elem>, i: int, limit: real): seq<Bytes>
    decreases i
  {
    if i <= 0 || i > |s| || s[i - 1].score < limit then [] else [s[i - 1].obj] + BackWhile(s, i - 1, limit)
  }

  function RanksFrom(s: seq<Elem>, p: int, reverse: bool, n: int): seq<Bytes>
    requires p >= 0 && (p == 0 ==> reverse)
  {
    if reverse then Back(s, p, n) else Forward(s, p - 1, n)
  }

  lemma RanksStep(s: seq<Elem>, p: int, reverse: bool, n: int)
    requires 1 <= p <= |s| && n > 0
    ensures RanksFrom(s, p, reverse, n) == [s[p - 1].obj] + RanksFrom(s, if reverse then p - 1 else p + 1, reverse, n - 1)
  {
  }

  function ScoresFrom(s: seq<Elem>, p: int, reverse: bool, limit: real): seq<Bytes>
    requires p >= 0 && (p == 0 ==> reverse)
  {
    if reverse then BackWhile(s, p, limit) else ForwardWhile(s, p - 1, limit)
  }

  lemma ScoresStep(s: seq<Elem>, p: int, reverse: bool, limit: real)
    requires 1 <= p <= |s|
    ensures ScoresFrom(s, p, reverse, limit) ==
      if (if reverse then s[p - 1].score < limit else s[p - 1].score > limit) then []
      else [s[p - 1].obj] + ScoresFrom(s, if reverse then p - 1 else p + 1, reverse, limit)
  {
  }

  function Reverse(s: seq<Bytes>): seq<Bytes> {
    if s == [] then [] else [s[|s| - 1]] + Reverse(s[..|s| - 1])
  }

  /** The elements with scores from min to max: a stretch of the sequence. */
  function Between(s: seq<Elem>, min: real, max: real): seq<Elem> {
    var lo, hi := Count(s, ScoreUnder(min)), Count(s, ScoreUpTo(max));
    if lo <= hi then s[lo..hi] else []
  }

  /** The rank that slFirstInRange goes to, 0 for none. */
  function FirstFound(s: seq<Elem>, min: real, max: real): nat {
    var lo, hi := Count(s, ScoreUnder(min)), Count(s, ScoreUpTo(max));
    if min <= max && lo < |s| && hi > 0 then lo + 1 else 0
  }

  /** The rank that slLastInRange goes to, 0 for none. */
  function LastFound(s: seq<Elem>, min: real, max: real): nat {
    var lo, hi := Count(s, ScoreUnder(min)), Count(s, ScoreUpTo(max));
    if min <= max && lo < |s| && hi > 0 then hi else 0
  }

  predicate Inside(e: Elem, min: real, max: real) {
    min <= e.score <= max
  }

  ghost predicate NoneInside(s: seq<Elem>, min: real, max: real) {
    forall i :: 0 <= i < |s| ==> !Inside(s[i], min, max)
  }

  /** What the comments promise: the first element inside the range, or none if there is none. */
  ghost predicate FirstPromised(s: seq<Elem>, min: real, max: real, k: nat) {
    if k == 0 then NoneInside(s, min, max)
    else k <= |s| && Inside(s[k - 1], min, max) && forall i :: 0 <= i < k - 1 ==> !Inside(s[i], min, max)
  }

  ghost predicate LastPromised(s: seq<Elem>, min: real, max: real, k: nat) {
    if k == 0 then NoneInside(s, min, max)
    else k <= |s| && Inside(s[k - 1], min, max) && forall i :: k <= i < |s| ==> !Inside(s[i], min, max)
  }

  /** The range lies between two neighbouring scores. */
  ghost predicate InGap(s: seq<Elem>, min: real, max: real) {
    min <= max && s != [] && s[0].score < min && s[|s| - 1].score > max && NoneInside(s, min, max)
  }

  /** The promises are kept if and only if the range does not fall in a gap. */
  lemma RangePromised(s: seq<Elem>, min: real, max: real)
    requires Sorted(s)
    ensures FirstPromised(s, min, max, FirstFound(s, min, max)) <==> !InGap(s, min, max)
    ensures LastPromised(s, min, max, LastFound(s, min, max)) <==> !InGap(s, min, max)
  {
    var lo, hi := Count(s, ScoreUnder(min)), Count(s, ScoreUpTo(max));
    CountSplits(s, ScoreUnder(min));
    CountSplits(s, ScoreUpTo(max));
    assert forall i :: 0 <= i < |s| ==> (Takes(ScoreUnder(min), s[i]) <==> s[i].score < min);
    assert forall i :: 0 <= i < |s| ==> (Takes(ScoreUpTo(max), s[i]) <==> s[i].score <= max);
    hide Sorted, Count;
    if min <= max && lo < |s| && hi > 0 {
      if lo < hi {
        assert Inside(s[lo], min, max) && Inside(s[hi - 1], min, max);
      } else {
        assert NoneInside(s, min, max);
      }
    }
  }

  /** A range in a gap, and the element outside it that both searches return or stop before. */
  lemma RangeInGap()
    ensures var s := [Elem(1.0, []), Elem(3.0, [])];
            Sorted(s) && InGap(s, 2.0, 2.0) && FirstFound(s, 2.0, 2.0) == 2 && LastFound(s, 2.0, 2.0) == 1
  {
    var s := [Elem(1.0, []), Elem(3.0, [])];
    assert Less(s[0], s[1]) && !Less(s[1], s[0]);
    CountSplits(s, ScoreUnder(2.0));
    CountSplits(s, ScoreUpTo(2.0));
    assert Takes(ScoreUnder(2.0), s[0]) && !Takes(ScoreUnder(2.0), s[1]);
    assert Takes(ScoreUpTo(2.0), s[0]) && !Takes(ScoreUpTo(2.0), s[1]);
  }

  lemma BetweenIs(s: seq<Elem>, min: real, max: real, i: int)
    requires Sorted(s) && 0 <= i < |s|
    ensures min <= s[i].score <= max <==> Count(s, ScoreUnder(min)) <= i < Count(s, ScoreUpTo(max))
  {
    CountSplits(s, ScoreUnder(min));
    CountSplits(s, ScoreUpTo(max));
    assert Takes(ScoreUnder(min), s[i]) <==> s[i].score < min;
    assert Takes(ScoreUpTo(max), s[i]) <==> s[i].score <= max;
  }

  lemma {:induction false} ForwardWhileIs(s: seq<Elem>, i: nat, limit: real)
    requires Sorted(s) && i <= |s|
    ensures ForwardWhile(s, i, limit) == if i <= Count(s, ScoreUpTo(limit)) then Objs(s[i..Count(s, ScoreUpTo(limit))]) else []
    decreases |s| - i
  {
    if i < |s| {
      CountSplits(s, ScoreUpTo(limit));
      assert Takes(ScoreUpTo(limit), s[i]) <==> s[i].score <= limit;
      ForwardWhileIs(s, i + 1, limit);
    }
  }

  lemma {:induction false} BackWhileIs(s: seq<Elem>, i: nat, limit: real)
    requires Sorted(s) && i <= |s|
    ensures BackWhile(s, i, limit) == if Count(s, ScoreUnder(limit)) <= i then Reverse(Objs(s[Count(s, ScoreUnder(limit))..i])) else []
  {
    var lo := Count(s, ScoreUnder(limit));
    if i > 0 {
      CountSplits(s, ScoreUnder(limit));
      assert Takes(ScoreUnder(limit), s[i - 1]) <==> s[i - 1].score < limit;
      BackWhileIs(s, i - 1, limit);
      if lo < i {
        assert Objs(s[lo..i])[..i - lo - 1] == Objs(s[lo..i - 1]);
      }
    }
  }

  lemma ScoresAre(s: seq<Elem>, min: real, max: real)
    requires Sorted(s) && min <= max
    ensures var lo, hi := Count(s, ScoreUnder(min)), Count(s, ScoreUpTo(max));
            var none := lo >= |s| || hi <= 0;
            && ScoresFrom(s, if none then |s| + 1 else lo + 1, false, max) == Objs(Between(s, min, max))
            && ScoresFrom(s, if none then 0 else hi, true, min) == Reverse(Objs(Between(s, min, max)))
  {
    hide Sorted, Between, Objs, Count, Reverse, ForwardWhile, BackWhile;
    BetweenWalk(s, min, max);
    Ends(s, min, max);
  }

  lemma Ends(s: seq<Elem>, min: real, max: real)
    ensures Reverse([]) == [] && ForwardWhile(s, |s|, max) == [] && BackWhile(s, 0, min) == []
  {
  }

  lemma BetweenWalk(s: seq<Elem>, min: real, max: real)
    requires Sorted(s) && min <= max
    ensures ForwardWhile(s, Count(s, ScoreUnder(min)), max) == Objs(Between(s, min, max))
    ensures BackWhile(s, Count(s, ScoreUpTo(max)), min) == Reverse(Objs(Between(s, min, max)))
    ensures Count(s, ScoreUnder(min)) == |s| || Count(s, ScoreUpTo(max)) == 0 ==> Objs(Between(s, min, max)) == []
  {
    ForwardWhileIs(s, Count(s, ScoreUnder(min)), max);
    BackWhileIs(s, Count(s, ScoreUpTo(max)), min);
    CountSplits(s, ScoreUnder(min));
    CountSplits(s, ScoreUpTo(max));
    ScoresApart(s, min, max);
  }

  lemma ScoresApart(s: seq<Elem>, min: real, max: real)
    requires Sorted(s) && min <= max
    ensures Count(s, ScoreUnder(min)) <= Count(s, ScoreUpTo(max))
  {
    CountSplits(s, ScoreUnder(min));
    CountSplits(s, ScoreUpTo(max));
    var hi := Count(s, ScoreUpTo(max));
    if hi < |s| {
      assert Takes(ScoreUnder(min), s[hi]) <==> s[hi].score < min;
      assert !Takes(ScoreUpTo(max), s[hi]);
    }
  }

  /** A rank range is a slice, and downwards the slice reversed. */
  lemma {:induction false} ForwardIs(s: seq<Elem>, i: nat, n: nat)
    requires i <= |s|
    ensures Forward(s, i, n) == Objs(s[i..if i + n <= |s| then i + n else |s|])
    decreases n
  {
    if n > 0 && i < |s| {
      ForwardIs(s, i + 1, n - 1);
    }
  }

  lemma {:induction false} BackIs(s: seq<Elem>, i: nat, n: nat)
    requires i <= |s|
    ensures Back(s, i, n) == Reverse(Objs(s[if n <= i then i - n else 0..i]))
    decreases n
  {
    var lo := if n <= i then i - n else 0;
    if n > 0 && i > 0 {
      BackIs(s, i - 1, n - 1);
      assert Objs(s[lo..i])[..i - lo - 1] == Objs(s[lo..i - 1]);
    }
  }

  // ---------------------------------------------------------------- what a range of ranks should be

  /** How many elements there are from rank r1 on, in the direction of r2. */
  function Onward(s: seq<Elem>, r1: int, r2: int): int {
    if r1 <= r2 then |s| - r1 + 1 else r1
  }

  /** The objects at the ranks from r1 to r2, in that direction, as far as there are any. */
  function RankSlice(s: seq<Elem>, r1: int, r2: int): seq<Bytes>
    requires 1 <= r1 <= |s| && r2 >= 0
  {
    if r1 <= r2 then Objs(s[r1 - 1..if r2 <= |s| then r2 else |s|])
    else Reverse(Objs(s[if r2 == 0 then 0 else r2 - 1..r1]))
  }

  lemma {:induction false} ReverseLength(s: seq<Bytes>)
    ensures |Reverse(s)| == |s|
  {
    if s != [] {
      ReverseLength(s[..|s| - 1]);
    }
  }

  lemma IntOfIs(n: int)
    requires n >= 0
    ensures IntOf(n) <= n && (n < 0x8000_0000 ==> IntOf(n) == n)
  {
  }

  lemma RanksAre(s: seq<Elem>, r1: int, reverse: bool, c: int)
    requires 1 <= r1 <= |s|
    ensures var m := if c < 0 then 0 else c;
            RanksFrom(s, r1, reverse, c) == if reverse then Reverse(Objs(s[if m <= r1 then r1 - m else 0..r1]))
                                            else Objs(s[r1 - 1..if r1 - 1 + m <= |s| then r1 - 1 + m else |s|])
  {
    var m: nat := if c < 0 then 0 else c;
    if reverse {
      BackIs(s, r1, m);
    } else {
      ForwardIs(s, r1 - 1, m);
    }
  }

  /** From a rank in the list, the range is right if and only if the cut count still covers what there is to give. */
  lemma RankRangePromised(s: seq<Elem>, r1: int, r2: int)
    requires 1 <= r1 <= |s| && r2 >= 0
    ensures var w, n := Width(r1, r2), Onward(s, r1, r2);
            RanksFrom(s, r1, r1 > r2, IntOf(w)) == RankSlice(s, r1, r2) <==> IntOf(w) >= if w <= n then w else n
  {
    hide IntOf, RanksFrom, Reverse;
    var c := IntOf(Width(r1, r2));
    IntOfIs(Width(r1, r2));
    RanksAre(s, r1, r1 > r2, c);
    if r1 > r2 {
      var m := if c < 0 then 0 else c;
      ReverseLength(Objs(s[if m <= r1 then r1 - m else 0..r1]));
      ReverseLength(Objs(s[if r2 == 0 then 0 else r2 - 1..r1]));
    }
  }

  /** So it is right for every range of fewer than 2^31 ranks. */
  lemma ShortRangeIsRight(s: seq<Elem>, r1: int, r2: int)
    requires 1 <= r1 <= |s| && r2 >= 0 && Width(r1, r2) < 0x8000_0000
    ensures RanksFrom(s, r1, r1 > r2, IntOf(Width(r1, r2))) == RankSlice(s, r1, r2)
  {
    IntOfIs(Width(r1, r2));
    RankRangePromised(s, r1, r2);
  }

  lemma TwoElems(a: Elem, b: Elem)
    requires Less(a, b)
    ensures Inserted([], a) == [a] && Inserted([a], b) == [a, b]
  {
    assert Below([a], b) == 1;
  }

  lemma TwoRanks(s: seq<Elem>)
    requires |s| == 2
    ensures RanksFrom(s, 1, false, IntOf(0x8000_0000)) == [] && RanksFrom(s, 1, false, IntOf(0x1_0000_0001)) == [s[0].obj]
    ensures RankSlice(s, 1, 0x8000_0000) == RankSlice(s, 1, 0x1_0000_0001) == [s[0].obj, s[1].obj]
  {
    assert Forward(s, 0, 1) == [s[0].obj] + Forward(s, 1, 0);
    assert s[0..2] == s;
  }

  /** Two elements, and ranges that both of them are in: one comes out empty, the other with one object. */
  method RankRangeCut() returns (l: List, none: seq<Bytes>, short: seq<Bytes>)
    ensures l.Valid() && l.Elems() == [Elem(1.0, [97]), Elem(2.0, [98])]
    ensures RankSlice(l.Elems(), 1, 0x8000_0000) == RankSlice(l.Elems(), 1, 0x1_0000_0001) == [[97], [98]]
    ensures none == [] && short == [[97]]
  {
    hide Core, Backs, Sorted, Inserted, Put, RanksFrom, RankSlice, Width, IntOf;
    l := new List();
    l.Insert(1.0, [97], 1, 1);
    l.Insert(2.0, [98], 1, 2);
    TwoElems(Elem(1.0, [97]), Elem(2.0, [98]));
    TwoRanks(l.Elems());
    WidthIs(1, 0x8000_0000);
    WidthIs(1, 0x1_0000_0001);
    none := l.RankRange(1, 0x8000_0000);
    short := l.RankRange(1, 0x1_0000_0001);
  }

  lemma WidthIs(r1: int, r2: int)
    requires r1 <= r2
    ensures Width(r1, r2) == r2 - r1 + 1
  {
  }

  /** An absent element can be given a rank: the same object with a smaller score is taken for it. */
  method RankOfAbsent() returns (l: List, rank: int)
    ensures l.Valid() && l.Elems() == [Elem(1.0, [97])] && UniqueObjs(l.Elems())
    ensures Elem(2.0, [97]) !in l.Elems() && rank == 1
  {
    l := new List();
    l.Insert(1.0, [97], 1, 1);
    assert l.Elems() == [Elem(1.0, [97])];
    rank := l.GetRank(2.0, [97]);
  }

  /** Elements from position r on have been taken out of s, leaving t. */
  ghost predicate Erased(s: seq<Elem>, t: seq<Elem>, r: int, gone: seq<Bytes>) {
    0 <= r <= r + |gone| <= |s| && t == s[..r] + s[r + |gone|..] && gone == Objs(s[r..r + |gone|])
  }

  lemma ErasedNone(s: seq<Elem>, r: nat)
    requires r <= |s|
    ensures Erased(s, s, r, [])
  {
    assert s == s[..r] + s[r..];
  }

  lemma ErasedAll(s: seq<Elem>, t: seq<Elem>, start: int, end: int, gone: seq<Bytes>)
    requires Erased(s, t, RankFloor(start, |s|), gone)
    requires gone != [] ==> RankFloor(start, |s|) + |gone| <= end
    requires |t| == RankFloor(start, |s|) || RankFloor(start, |s|) + |gone| >= end
    ensures var lo := RankFloor(start, |s|); var hi := RankCeil(lo, end, |s|);
            t == s[..lo] + s[hi..] && gone == Objs(s[lo..hi])
  {
  }

  lemma ErasedStep(s: seq<Elem>, t: seq<Elem>, r: int, gone: seq<Bytes>)
    requires Erased(s, t, r, gone) && r < |t|
    ensures Erased(s, Without(t, r), r, gone + [t[r].obj])
  {
    var k := |gone|;
    assert t[r] == s[r + k];
    assert s[r..r + k + 1] == s[r..r + k] + [s[r + k]];
    assert Without(t, r) == s[..r] + s[r + k + 1..];
  }

  function RankFloor(start: int, n: nat): (lo: nat)
    ensures lo <= n
  {
    if start <= 1 then 0 else if start - 1 <= n then start - 1 else n
  }

  function RankCeil(lo: nat, end: int, n: nat): (hi: nat)
    requires lo <= n
    ensures lo <= hi <= n
  {
    if end <= lo then lo else if end <= n then end else n
  }

  function Objs(s: seq<Elem>): (o: seq<Bytes>)
    ensures |o| == |s|
    ensures forall i :: 0 <= i < |s| ==> o[i] == s[i].obj
  {
    seq(|s|, i requires 0 <= i < |s| => s[i].obj)
  }

  /** The element after a node at the lowest level, if there is one. */
  function At0(nodes: map<int, Node>, id: int): Elem {
    if id in nodes && nodes[id].fwd != [] then ElemAt(nodes, nodes[id].fwd[0]) else Elem(0.0, [])
  }

  lemma Freed(nodes: map<int, Node>, x: int, order: seq<int>, level: int)
    requires Core(nodes, order, level) && Backs(nodes, order) && x !in order
    ensures var nodes' := nodes - {x};
            && Core(nodes', order, level) && Backs(nodes', order) && ElemsOf(nodes', order) == ElemsOf(nodes, order)
            && forall update, rank, r :: Path(nodes, order, level, update, rank, r) ==> Path(nodes', order, level, update, rank, r)
  {
    var nodes' := nodes - {x};
    forall p | 0 <= p < |order| ensures order[p] in nodes' && NodeOK(nodes, order[p]) {
      assert order[p] in order;
    }
    forall l | 0 <= l < level ensures LevelOK(nodes', order, l) {
      FrameLevel(nodes, nodes', order, l);
    }
    forall p ensures BackOK(nodes', order, p) {
      assert BackOK(nodes, order, p);
    }
    forall update, rank, r | Path(nodes, order, level, update, rank, r) ensures Path(nodes', order, level, update, rank, r) {
      PathKept(nodes, nodes', order, level, update, rank, r);
    }
  }

  ghost predicate Halfway(before: map<int, Node>, nodes: map<int, Node>, order: seq<int>, r: int, i: int, level: int) {
    && 0 <= r < |order| - 1 && 0 <= level <= MAXLEVEL
    && Shape(nodes, order) && Distinct(order) && Shape(nodes, Cut(order, r))
    && LevelsOK(nodes, Cut(order, r), order, i, level) && BareTop(nodes, level)
    && SameData(before, nodes, order) && order[r + 1] in before && nodes[order[r + 1]] == before[order[r + 1]]
    && nodes.Keys == before.Keys
  }

  lemma UnspliceTurn(before: map<int, Node>, nodes: map<int, Node>, order: seq<int>, r: int, i: int, level: int, update: seq<int>, rank: seq<int>)
    requires Halfway(before, nodes, order, r, i, level) && 0 <= i < level
    requires Path(before, order, level, update, rank, r)
    ensures OnPath(nodes, order, update[i], i, rank[i], r) && update[i] != order[r + 1]
    ensures nodes[update[i]].fwd[i] == order[r + 1] ==> i < Height(nodes, order[r + 1])
    ensures Halfway(before, Unspliced(nodes, i, update[i], order[r + 1]), order, r, i + 1, level)
  {
    PathKept(before, nodes, order, level, update, rank, r);
    assert OnPath(nodes, order, update[i], i, rank[i], r);
    UnsplicedKeeps(nodes, order, level, i, rank[i], r);
    SameDataChain(before, nodes, Unspliced(nodes, i, update[i], order[r + 1]), order);
  }

  lemma CutShape(nodes: map<int, Node>, order: seq<int>, r: int)
    requires Shape(nodes, order) && 0 <= r < |order| - 1
    ensures Shape(nodes, Cut(order, r))
    ensures Distinct(order) ==> Distinct(Cut(order, r)) && order[r + 1] !in Cut(order, r)
  {
    var o := Cut(order, r);
    assert forall k :: 0 <= k < |o| ==> o[k] == order[if k <= r then k else k + 1];
  }

  function BackFixed(nodes: map<int, Node>, x: int): map<int, Node>
    requires NodeOK(nodes, x) && (nodes[x].fwd[0] == NIL || nodes[x].fwd[0] in nodes)
  {
    if nodes[x].fwd[0] != NIL then nodes[nodes[x].fwd[0] := nodes[nodes[x].fwd[0]].(back := nodes[x].back)] else nodes
  }

  lemma CutsOut(nodes: map<int, Node>, order: seq<int>, level: int, update: seq<int>, rank: seq<int>, r: int)
    requires Core(nodes, order, level) && 0 <= r < |order| - 1
    ensures nodes[order[r + 1]].fwd[0] == At(order, r + 2)
  {
    LevelZero(nodes, order, r + 1);
  }

  /** What the end of slDeleteNode finds, and leaves. */
  lemma BackOut(nodes0: map<int, Node>, nodes: map<int, Node>, order: seq<int>, level: int, r: int)
    requires Core(nodes0, order, level) && Backs(nodes0, order) && Halfway(nodes0, nodes, order, r, level, level)
    requires nodes0[order[r + 1]].fwd[0] == At(order, r + 2)
    requires Sorted(ElemsOf(nodes0, order))
    ensures var x := order[r + 1]; var nodes' := BackFixed(nodes, x);
            && nodes[x].fwd[0] == At(order, r + 2) && nodes[x].back == BackAt(order, r + 1)
            && (r + 2 < |order| ==> order[r + 2] != NIL && order[r + 2] != x)
            && Core(nodes, Cut(order, r), level) && Core(nodes', Cut(order, r), level) && Backs(nodes', Cut(order, r))
            && ElemsOf(nodes', Cut(order, r)) == Without(ElemsOf(nodes0, order), r) && Sorted(ElemsOf(nodes', Cut(order, r)))
            && x !in Cut(order, r) && nodes'[x].elem == nodes0[x].elem && nodes'.Keys == nodes0.Keys
            && SameHeight(nodes0, nodes', order)
  {
    var x := order[r + 1];
    var nodes' := BackFixed(nodes, x);
    assert BackOK(nodes0, order, r + 1);
    assert r + 2 < |order| ==> NodeOK(nodes0, order[r + 2]);
    CutShape(nodes, order, r);
    HalfwayCore(nodes0, nodes, order, level, r);
    SameLinksCore(nodes, nodes', Cut(order, r), level);
    BackOutSet(nodes0, nodes, order, r);
  }

  ghost predicate SameHeight(a: map<int, Node>, b: map<int, Node>, order: seq<int>) {
    forall p :: 0 <= p < |order| ==> Height(b, order[p]) == Height(a, order[p])
  }

  lemma HalfwayCore(nodes0: map<int, Node>, nodes: map<int, Node>, order: seq<int>, level: int, r: int)
    requires Core(nodes0, order, level) && Halfway(nodes0, nodes, order, r, level, level)
    ensures Core(nodes, Cut(order, r), level)
  {
    var o := Cut(order, r);
    CutShape(nodes, order, r);
    assert forall k :: 0 <= k < |o| ==> o[k] == order[if k <= r then k else k + 1];
  }

  lemma BackOutSet(nodes0: map<int, Node>, nodes: map<int, Node>, order: seq<int>, r: int)
    requires Backs(nodes0, order) && Distinct(order) && 0 <= r < |order| - 1 && SameData(nodes0, nodes, order)
    requires nodes[order[r + 1]].fwd[0] == At(order, r + 2) && nodes[order[r + 1]].back == BackAt(order, r + 1)
    requires Sorted(ElemsOf(nodes0, order))
    requires nodes[order[r + 1]].fwd[0] == NIL || nodes[order[r + 1]].fwd[0] in nodes
    ensures var nodes' := BackFixed(nodes, order[r + 1]);
            && Backs(nodes', Cut(order, r)) && SameHeight(nodes0, nodes', order)
            && ElemsOf(nodes', Cut(order, r)) == Without(ElemsOf(nodes0, order), r) && Sorted(ElemsOf(nodes', Cut(order, r)))
  {
    var nodes' := BackFixed(nodes, order[r + 1]);
    forall p | 0 <= p < |order|
      ensures order[p] in nodes0 && order[p] in nodes' && ElemAt(nodes', order[p]) == ElemAt(nodes0, order[p])
      ensures nodes'[order[p]].back == if p == r + 2 then BackAt(order, r + 1) else nodes0[order[p]].back
      ensures Height(nodes', order[p]) == Height(nodes0, order[p])
    {
      assert NodeOK(nodes, order[p]);
    }
    BacksCut(nodes0, nodes', order, r);
    ElemsCut(nodes0, nodes', order, r);
    WithoutSorted(ElemsOf(nodes0, order), r);
  }

  /** The path to the place of a node that has gone is the path to the place of its follower. */
  lemma PathCut(nodes0: map<int, Node>, nodes: map<int, Node>, order: seq<int>, level0: int, level: int, update: seq<int>, rank: seq<int>, r: int)
    requires Path(nodes0, order, level0, update, rank, r) && level <= level0 && 0 <= r < |order| - 1
    requires SameHeight(nodes0, nodes, order)
    ensures Path(nodes, Cut(order, r), level, update, rank, r)
  {
    var h, o := Heights(nodes0, order), Cut(order, r);
    var h' := Heights(nodes, o);
    assert forall k :: 0 <= k <= r ==> o[k] == order[k] && h'[k] == h[k];
    forall l | 0 <= l < level ensures OnPath(nodes, o, update[l], l, rank[l], r) {
      assert OnPath(nodes0, order, update[l], l, rank[l], r);
    }
  }

  function BackSet(nodes: map<int, Node>, x: int, back: int): map<int, Node>
    requires NodeOK(nodes, x) && (nodes[x].fwd[0] == NIL || nodes[x].fwd[0] in nodes)
  {
    var n := nodes[x := nodes[x].(back := back)];
    if n[x].fwd[0] != NIL then n[n[x].fwd[0] := n[n[x].fwd[0]].(back := x)] else n
  }

  /** The last part of slInsert makes the list whole again. */
  lemma BackLinks(nodes0: map<int, Node>, nodes: map<int, Node>, order: seq<int>, level: int, r: int, x: int)
    requires Shape(nodes0, order) && Distinct(order) && Backs(nodes0, order) && 0 <= r < |order| && x !in order
    requires Sorted(ElemsOf(nodes0, order)) && SameData(nodes0, nodes, order) && NodeOK(nodes, x)
    requires Core(nodes, Put(order, r, x), level) && r == Below(ElemsOf(nodes0, order), nodes[x].elem)
    ensures nodes[x].fwd[0] == NIL <==> r + 1 == |order|
    ensures nodes[x].fwd[0] == NIL || nodes[x].fwd[0] in nodes
    ensures var nodes' := BackSet(nodes, x, if order[r] == HEADER then NIL else order[r]);
            && Core(nodes', Put(order, r, x), level) && Backs(nodes', Put(order, r, x))
            && ElemsOf(nodes', Put(order, r, x)) == Inserted(ElemsOf(nodes0, order), nodes[x].elem)
            && Sorted(ElemsOf(nodes', Put(order, r, x)))
            && nodes'.Keys == nodes.Keys && Height(nodes', x) == Height(nodes, x)
  {
    var o := Put(order, r, x);
    LevelZero(nodes, o, r + 1);
    assert nodes[x].fwd[0] == At(order, r + 1);
    assert NodeOK(nodes0, At(order, r)) && (order[r] == HEADER <==> r == 0);
    assert r + 1 < |order| ==> NodeOK(nodes0, order[r + 1]) && NodeOK(nodes, order[r + 1]);
    BackLinksSet(nodes0, nodes, order, r, x);
    SameLinksCore(nodes, BackSet(nodes, x, if r == 0 then NIL else order[r]), o, level);
  }

  lemma BackLinksSet(nodes0: map<int, Node>, nodes: map<int, Node>, order: seq<int>, r: int, x: int)
    requires Distinct(order) && Backs(nodes0, order) && 0 <= r < |order| && x !in order
    requires Sorted(ElemsOf(nodes0, order)) && SameData(nodes0, nodes, order) && NodeOK(nodes, x)
    requires r == Below(ElemsOf(nodes0, order), nodes[x].elem)
    requires nodes[x].fwd[0] == At(order, r + 1)
    requires nodes[x].fwd[0] == NIL || nodes[x].fwd[0] in nodes
    ensures var nodes' := BackSet(nodes, x, if r == 0 then NIL else order[r]);
            && Backs(nodes', Put(order, r, x))
            && ElemsOf(nodes', Put(order, r, x)) == Inserted(ElemsOf(nodes0, order), nodes[x].elem)
            && Sorted(ElemsOf(nodes', Put(order, r, x)))
  {
    var nodes' := BackSet(nodes, x, if r == 0 then NIL else order[r]);
    forall p | 0 <= p < |order|
      ensures order[p] in nodes0 && order[p] in nodes' && ElemAt(nodes', order[p]) == ElemAt(nodes0, order[p])
      ensures nodes'[order[p]].back == if p == r + 1 then x else nodes0[order[p]].back
    {
      assert order[p] in order && NodeOK(nodes, order[p]);
    }
    BacksPut(nodes0, nodes', order, r, x);
    ElemsPut(nodes0, nodes', order, r, x);
    InsertedSorted(ElemsOf(nodes0, order), nodes[x].elem);
  }

  /** Backward links do not matter to the forward ones. */
  lemma SameLinksCore(nodes: map<int, Node>, nodes': map<int, Node>, order: seq<int>, level: int)
    requires Core(nodes, order, level)
    requires forall id :: id in nodes ==> id in nodes' && nodes'[id].fwd == nodes[id].fwd && nodes'[id].span == nodes[id].span
    ensures Core(nodes', order, level)
  {
    assert Shape(nodes', order) by {
      forall p | 0 <= p < |order| ensures NodeOK(nodes', order[p]) {
        assert NodeOK(nodes, order[p]);
      }
    }
    forall l | 0 <= l < level ensures LevelOK(nodes', order, l) {
      FrameLevel(nodes, nodes', order, l);
    }
  }

  ghost predicate Raised(before: map<int, Node>, nodes: map<int, Node>, order: seq<int>, level: int) {
    Core(nodes, order, level) && SameData(before, nodes, order) && nodes.Keys == before.Keys
  }

  lemma RaiseTurn(before: map<int, Node>, nodes: map<int, Node>, order: seq<int>, i: int, update: seq<int>, rank: seq<int>, r: int)
    requires Raised(before, nodes, order, i) && i < MAXLEVEL && 0 <= r < |order|
    requires Path(nodes, order, i, update, rank, r)
    ensures var nodes' := SetSpan(nodes, HEADER, i, |order| - 1);
            Raised(before, nodes', order, i + 1) && Path(nodes', order, i + 1, update[i := HEADER], rank[i := 0], r)
  {
    var nodes' := SetSpan(nodes, HEADER, i, |order| - 1);
    RaisedKeeps(nodes, order, i, r);
    SameDataChain(before, nodes, nodes', order);
    PathKept(nodes, nodes', order, i, update, rank, r);
  }

  /** Part of the levels are linked with the new node, part without; nothing but links has changed. */
  ghost predicate Midway(before: map<int, Node>, nodes: map<int, Node>, order: seq<int>, r: int, x: int, i: int, level: int) {
    && 0 <= r < |order| && 0 <= level <= MAXLEVEL && x !in order && NodeOK(nodes, x)
    && Shape(nodes, order) && Distinct(order) && Shape(nodes, Put(order, r, x))
    && LevelsOK(nodes, Put(order, r, x), order, i, level) && BareTop(nodes, level)
    && SameData(before, nodes, order) && SameNode(before, nodes, x) && nodes.Keys == before.Keys
  }

  ghost predicate SameNode(before: map<int, Node>, nodes: map<int, Node>, x: int) {
    && x in before && x in nodes && nodes[x].elem == before[x].elem && nodes[x].back == before[x].back
    && |nodes[x].fwd| == |before[x].fwd|
  }

  lemma SpliceTurn(before: map<int, Node>, nodes: map<int, Node>, order: seq<int>, r: int, x: int, i: int, level: int, update: seq<int>, rank: seq<int>)
    requires Midway(before, nodes, order, r, x, i, level) && 0 <= i < level && i < Height(nodes, x)
    requires Path(before, order, level, update, rank, r)
    ensures OnPath(nodes, order, update[i], i, rank[i], r)
    ensures Midway(before, Spliced(nodes, i, update[i], x, r - rank[i]), order, r, x, i + 1, level)
  {
    PathKept(before, nodes, order, level, update, rank, r);
    assert OnPath(nodes, order, update[i], i, rank[i], r);
    SplicedKeeps(nodes, order, level, i, rank[i], r, x);
    SameDataChain(before, nodes, Spliced(nodes, i, update[i], x, r - rank[i]), order);
  }

  lemma GrowTurn(before: map<int, Node>, nodes: map<int, Node>, order: seq<int>, r: int, x: int, i: int, level: int, update: seq<int>, rank: seq<int>)
    requires Midway(before, nodes, order, r, x, i, level) && Height(nodes, x) <= i < level
    requires Path(before, order, level, update, rank, r)
    ensures OnPath(nodes, order, update[i], i, rank[i], r)
    ensures Midway(before, SetSpan(nodes, update[i], i, nodes[update[i]].span[i] + 1), order, r, x, i + 1, level)
  {
    PathKept(before, nodes, order, level, update, rank, r);
    assert OnPath(nodes, order, update[i], i, rank[i], r);
    GrownKeeps(nodes, order, level, i, rank[i], r, x);
    SameDataChain(before, nodes, SetSpan(nodes, update[i], i, nodes[update[i]].span[i] + 1), order);
  }

  /** A new node, not linked anywhere yet, changes nothing. */
  lemma Created(nodes: map<int, Node>, nodes': map<int, Node>, order: seq<int>, level: int, r: int, x: int, update: seq<int>, rank: seq<int>)
    requires Core(nodes, order, level) && x !in nodes && NodeOK(nodes', x) && nodes' == nodes[x := nodes'[x]]
    requires 0 <= r < |order| && Path(nodes, order, level, update, rank, r)
    ensures Core(nodes', order, level) && Midway(nodes', nodes', order, r, x, 0, level) && Path(nodes', order, level, update, rank, r)
    ensures SameData(nodes, nodes', order)
  {
    forall p | 0 <= p < |order| ensures order[p] in nodes && order[p] != x && nodes'[order[p]] == nodes[order[p]] {
      assert NodeOK(nodes, order[p]);
    }
    PathKept(nodes, nodes', order, level, update, rank, r);
    PutShape(nodes', order, r, x);
    forall l | 0 <= l < level ensures LevelOK(nodes', order, l) {
      FrameLevel(nodes, nodes', order, l);
    }
  }

  lemma PutShape(nodes: map<int, Node>, order: seq<int>, r: int, x: int)
    requires Shape(nodes, order) && NodeOK(nodes, x) && 0 <= r < |order|
    ensures Shape(nodes, Put(order, r, x))
  {
    var o := Put(order, r, x);
    assert forall k :: 0 <= k < |o| ==> o[k] == if k <= r then order[k] else if k == r + 1 then x else order[k - 1];
  }

  lemma SplicedCore(nodes: map<int, Node>, nodes': map<int, Node>, order: seq<int>, r: int, x: int, level: int)
    requires Core(nodes, order, level) && Midway(nodes, nodes', order, r, x, level, level)
    requires Height(nodes', x) <= level
    ensures Core(nodes', Put(order, r, x), level)
  {
    var o := Put(order, r, x);
    assert forall k :: 0 <= k < |o| ==> o[k] == if k <= r then order[k] else if k == r + 1 then x else order[k - 1];
  }

  /** A search from position p moves on to the next node while that is not behind position r, and else leaves the level. */
  ghost predicate Turn(nodes: map<int, Node>, order: seq<int>, l: int, p: int, r: int) {
    0 <= p <= r && p < |order| && l < Height(nodes, order[p]) ==>
      && NodeOK(nodes, order[p]) && 0 <= l
      && var n := nodes[order[p]];
         if n.fwd[l] != NIL && p + n.span[l] <= r
         then p < p + n.span[l] < |order| && order[p + n.span[l]] == n.fwd[l] && l < Height(nodes, n.fwd[l])
         else Gap(Heights(nodes, order), l, p, r + 1) && (n.fwd[l] == NIL || n.fwd[l] in nodes)
  }

  ghost predicate Turns(nodes: map<int, Node>, order: seq<int>, l: int, r: int) {
    forall p {:trigger Turn(nodes, order, l, p, r)} :: Turn(nodes, order, l, p, r)
  }

  lemma RankAhead(nodes: map<int, Node>, order: seq<int>, level: int, l: int, r: int)
    requires Core(nodes, order, level) && 0 <= l < level
    ensures Turns(nodes, order, l, r)
  {
    forall p ensures Turn(nodes, order, l, p, r) {
      if 0 <= p <= r && p < |order| && l < Height(nodes, order[p]) {
        StepAlong(nodes, order, level, l, p);
      }
    }
  }

  /** The same search steered by comparing elements: the next node is taken exactly if it is not behind position r. */
  ghost predicate Steered(nodes: map<int, Node>, order: seq<int>, l: int, p: int, q: Query, r: int) {
    0 <= p <= r < |order| && 0 <= l < Height(nodes, order[p]) ==>
      && NodeOK(nodes, order[p])
      && var n := nodes[order[p]];
         n.fwd[l] != NIL ==> (Takes(q, ElemAt(nodes, n.fwd[l])) <==> p + n.span[l] <= r)
  }

  ghost predicate Steers(nodes: map<int, Node>, order: seq<int>, l: int, q: Query, r: int) {
    Turns(nodes, order, l, r) && forall p {:trigger Steered(nodes, order, l, p, q, r)} :: Steered(nodes, order, l, p, q, r)
  }

  lemma LookAhead(nodes: map<int, Node>, order: seq<int>, level: int, l: int, q: Query)
    requires Core(nodes, order, level) && Sorted(ElemsOf(nodes, order)) && 0 <= l < level
    ensures Steers(nodes, order, l, q, Count(ElemsOf(nodes, order), q))
  {
    var r := Count(ElemsOf(nodes, order), q);
    RankAhead(nodes, order, level, l, r);
    forall p ensures Steered(nodes, order, l, p, q, r) {
      if 0 <= p <= r && l < Height(nodes, order[p]) {
        StepAlong(nodes, order, level, l, p);
        var n := nodes[order[p]];
        if n.fwd[l] != NIL {
          CountAt(nodes, order, q, p + n.span[l]);
        }
      }
    }
  }

  /** At the lowest level, which every node is on, the search ends right before the place. */
  lemma BottomOfPath(nodes: map<int, Node>, order: seq<int>, level: int, id: int, p: int, r: int)
    requires Core(nodes, order, level) && OnPath(nodes, order, id, 0, p, r)
    ensures p == r
  {
    var h := Heights(nodes, order);
    assert h[r] == Height(nodes, order[r]);
  }
}

/**
  The buffer of a socket in Lua (lua-socket.c): received messages in a chain of nodes from a pool,
  read by length, by line or as a whole.
 */
module SocketBuffer {
  import opened Common
  import opened Framing

  const LARGE_PAGE_NODE := 12

  function ShiftLeft(x: nat, k: nat): nat {
    if k == 0 then x else 2 * ShiftLeft(x, k - 1)
  }

  lemma {:induction false} Positive(k: nat)
    ensures ShiftLeft(8, k) > 0
  {
    if k > 0 { Positive(k - 1); }
  }

  /** The pool table: the free nodes, the last freed first, and how many pages there are. Nodes are numbered as they are made. */
  class Pool {
    var free: seq<int>
    var length: nat
    var made: nat

    constructor ()
      ensures free == [] && made == 0 && length == 0
    {
      free, length, made := [], 0, 0;
    }

    /** The start of lpushbuffer: the first free node, from a new page if there is none. */
    method Get() returns (node: int)
      modifies this
      ensures old(free) != [] ==> made == old(made) && [node] + free == old(free)
      ensures old(free) == [] ==> made > old(made) && [node] + free == seq(made - old(made), i => old(made) + i)
    {
      if free == [] {
        var tsz := if length == 0 then 1 else length;
        var shift := if tsz <= LARGE_PAGE_NODE - 3 then tsz else LARGE_PAGE_NODE - 3;
        var n := ShiftLeft(8, shift);
        Positive(shift);
        var m := made;
        free := seq(n, i => m + i);
        length := tsz + 1;
        made := made + n;
      }
      node := free[0];
      free := free[1..];
    }
  }

  /** The nodes that are free or in the buffer's chain. */
  ghost function Nodes(free: seq<int>, nodes: seq<int>): multiset<int> {
    multiset(free) + multiset(nodes)
  }

  /** The nodes made between two moments. */
  ghost function Made(from: nat, to: nat): multiset<int>
    requires from <= to
  {
    multiset(seq(to - from, i => from + i))
  }

  predicate Matches(s: Bytes, sep: Bytes, j: int) {
    0 <= j <= |s| - |sep| && s[j..j + |sep|] == sep
  }

  /** Where a separator first stands in s at position i or later; -1 if nowhere. */
  function FirstAt(s: Bytes, sep: Bytes, i: nat): (r: int)
    ensures r == -1 || i <= r <= |s| - |sep|
    decreases |s| - i
  {
    if i + |sep| > |s| then -1 else if Matches(s, sep, i) then i else FirstAt(s, sep, i + 1)
  }

  lemma {:induction false} FirstAtIs(s: Bytes, sep: Bytes, i: nat)
    ensures var r := FirstAt(s, sep, i);
            if r < 0 then r == -1 && forall j :: i <= j ==> !Matches(s, sep, j)
            else i <= r && Matches(s, sep, r) && forall j :: i <= j < r ==> !Matches(s, sep, j)
    decreases |s| - i
  {
    if i + |sep| <= |s| && !Matches(s, sep, i) {
      FirstAtIs(s, sep, i + 1);
    }
  }

  /** What a chain holds from byte `from` of message k on. */
  function From(msgs: seq<Bytes>, k: int, from: int): Bytes
    requires 0 <= k <= |msgs| && (k < |msgs| ==> 0 <= from <= |msgs[k]|)
  {
    if k == |msgs| then [] else msgs[k][from..] + Flat(msgs[k + 1..])
  }

  lemma FromNone()
    ensures From([], 0, 0) == []
  {
  }

  lemma FromNext(msgs: seq<Bytes>, k: int, from: int)
    requires 0 <= k < |msgs| && 0 <= from <= |msgs[k]|
    ensures From(msgs, k, from) == msgs[k][from..] + From(msgs, k + 1, 0)
  {
    if k + 1 < |msgs| {
      FlatHead(msgs[k + 1..]);
      assert msgs[k + 1..][1..] == msgs[k + 2..];
    } else {
      assert msgs[k + 1..] == [];
    }
  }

  lemma FromStep(msgs: seq<Bytes>, k: int, from: int)
    requires 0 <= k < |msgs| && 0 <= from < |msgs[k]|
    ensures From(msgs, k, from) == [msgs[k][from]] + From(msgs, k, from + 1)
    ensures from + 1 == |msgs[k]| ==> From(msgs, k, from + 1) == From(msgs, k + 1, 0)
  {
    assert msgs[k][from..] == [msgs[k][from]] + msgs[k][from + 1..];
    FromNext(msgs, k, from);
    FromNext(msgs, k, from + 1);
  }

  class Buffer {
    var size: int
    var offset: int
    /** The chain from head to tail: which node, and its message. */
    var nodes: seq<int>
    var msgs: seq<Bytes>

    ghost predicate Chain()
      reads this
    {
      && |nodes| == |msgs| && (forall i :: 0 <= i < |msgs| ==> msgs[i] != [])
      && if msgs == [] then offset == 0 else 0 <= offset < |msgs[0]|
    }

    ghost function Content(): Bytes
      reads this
      requires Chain()
    {
      From(msgs, 0, offset)
    }

    ghost predicate Valid()
      reads this
    {
      Chain() && size == |Content()|
    }

    constructor ()
      ensures Valid() && Content() == [] && nodes == []
    {
      size, offset, nodes, msgs := 0, 0, [], [];
    }

    /** lpushbuffer. */
    method Push(pool: Pool, msg: Bytes) returns (sz: int)
      requires Valid() && msg != []
      modifies this, pool
      ensures Valid() && Content() == old(Content()) + msg && sz == size
      ensures pool.made >= old(pool.made) && Nodes(pool.free, nodes) == Nodes(old(pool.free), old(nodes)) + Made(old(pool.made), pool.made)
    {
      ghost var free0, nodes0, made0 := pool.free, nodes, pool.made;
      var node := pool.Get();
      GotNode(free0, nodes0, made0, pool.free, node, pool.made);
      PushedIs(msgs, offset, msg);
      nodes := nodes + [node];
      msgs := msgs + [msg];
      size := size + |msg|;
      sz := size;
    }

    /** return_free_node. */
    method ReturnFreeNode(pool: Pool)
      requires |nodes| == |msgs| && nodes != []
      modifies this`offset, this`nodes, this`msgs, pool`free
      ensures offset == 0 && nodes == old(nodes[1..]) && msgs == old(msgs[1..]) && pool.free == [old(nodes[0])] + old(pool.free)
      ensures Nodes(pool.free, nodes) == Nodes(old(pool.free), old(nodes))
    {
      ReturnedNode(pool.free, nodes);
      pool.free := [nodes[0]] + pool.free;
      offset, nodes, msgs := 0, nodes[1..], msgs[1..];
    }

    /** pop_lstring: the first sz bytes go, and all of them but the last `skip` are given back. */
    method PopString(pool: Pool, sz0: int, skip: int) returns (s: Bytes)
      requires Chain() && msgs != [] && 0 <= skip <= sz0 <= |Content()|
      modifies this`offset, this`nodes, this`msgs, pool`free
      ensures Chain() && s == old(Content())[..sz0 - skip] && Content() == old(Content())[sz0..]
      ensures Nodes(pool.free, nodes) == old(Nodes(pool.free, nodes))
    {
      hide Flat, From, Nodes;
      ghost var all := Content();
      if sz0 < |msgs[0]| - offset {
        PopFirst(msgs, offset, sz0, skip, all);
        s := msgs[0][offset..offset + (sz0 - skip)];
        offset := offset + sz0;
        return;
      }
      if sz0 == |msgs[0]| - offset {
        PopFirst(msgs, offset, sz0, skip, all);
        s := msgs[0][offset..offset + (sz0 - skip)];
        ReturnFreeNode(pool);
        return;
      }
      s := PopAcross(pool, sz0, skip);
    }

    /** Its loop, for what lies across several nodes. */
    method PopAcross(pool: Pool, sz0: int, skip: int) returns (s: Bytes)
      requires Chain() && msgs != [] && 0 <= skip <= sz0 <= |Content()| && 0 < sz0
      modifies this`offset, this`nodes, this`msgs, pool`free
      ensures Chain() && s == old(Content())[..sz0 - skip] && Content() == old(Content())[sz0..]
      ensures Nodes(pool.free, nodes) == old(Nodes(pool.free, nodes))
    {
      hide Flat, From, Nodes, Kept;
      ghost var all, taken := Content(), [];
      KeptNone(sz0, skip);
      FromNone();
      var sz := sz0;
      s := [];
      while true
        invariant Chain() && Nodes(pool.free, nodes) == old(Nodes(pool.free, nodes))
        invariant 0 < sz <= |Content()| && all == taken + Content() && |taken| == sz0 - sz
        invariant s == Kept(taken, sz, skip)
        decreases |msgs|
      {
        var bytes := |msgs[0]| - offset;
        if bytes >= sz {
          PopInside(taken, msgs, offset, sz, all);
          KeptLast(all, taken, msgs[0], offset, sz, skip);
          if sz > skip {
            s := s + msgs[0][offset..offset + (sz - skip)];
          }
          if bytes == sz {
            PopWhole(taken, msgs, offset, all);
            ReturnFreeNode(pool);
          } else {
            offset := offset + sz;
          }
          return;
        }
        PopWhole(taken, msgs, offset, all);
        var part := msgs[0][offset..];
        KeptStep(taken, part, sz, skip);
        var realSz := sz - skip;
        if realSz > 0 {
          s := s + if realSz < bytes then part[..realSz] else part;
        }
        taken := taken + part;
        ReturnFreeNode(pool);
        sz := sz - bytes;
      }
    }

    /** lpopbuffer. */
    method Pop(pool: Pool, sz: int) returns (s: Option<Bytes>, left: int)
      requires Valid() && sz >= 0
      modifies this, pool`free
      ensures Valid() && left == size && Nodes(pool.free, nodes) == old(Nodes(pool.free, nodes))
      ensures sz == 0 || sz > |old(Content())| ==> s == None && Content() == old(Content())
      ensures 0 < sz <= |old(Content())| ==> s == Some(old(Content())[..sz]) && Content() == old(Content())[sz..]
    {
      s := None;
      if !(size < sz || sz == 0) {
        var out := PopString(pool, sz, 0);
        s := Some(out);
        size := size - sz;
      }
      left := size;
    }

    /** lclearbuffer. */
    method Clear(pool: Pool)
      requires Valid()
      modifies this, pool`free
      ensures Valid() && Content() == [] && nodes == [] && Nodes(pool.free, nodes) == old(Nodes(pool.free, nodes))
    {
      while nodes != []
        invariant |nodes| == |msgs| && Nodes(pool.free, nodes) == old(Nodes(pool.free, nodes)) && (nodes == [] ==> Chain())
        invariant forall i :: 0 <= i < |msgs| ==> msgs[i] != []
        decreases |nodes|
      {
        ReturnFreeNode(pool);
      }
      size := 0;
    }

    /** lreadall. */
    method ReadAll(pool: Pool) returns (s: Bytes)
      requires Valid()
      modifies this, pool`free
      ensures Valid() && s == old(Content()) && Content() == [] && nodes == []
      ensures Nodes(pool.free, nodes) == old(Nodes(pool.free, nodes))
    {
      ghost var all := Content();
      s := [];
      while nodes != []
        invariant Chain() && all == s + Content() && Nodes(pool.free, nodes) == old(Nodes(pool.free, nodes))
        decreases |nodes|
      {
        PopWhole(s, msgs, offset, all);
        s := s + msgs[0][offset..];
        ReturnFreeNode(pool);
      }
      size := 0;
    }

    /** check_sep: whether the chain, from byte `from` of node k on, begins with the separator. */
    method CheckSep(k0: int, from0: int, sep0: Bytes) returns (b: bool)
      requires Chain() && 0 <= k0 < |msgs| && 0 <= from0 < |msgs[k0]| && |sep0| <= |From(msgs, k0, from0)|
      ensures b == (From(msgs, k0, from0)[..|sep0|] == sep0)
    {
      hide From, SepSoFar, Flat;
      var k, from, sep := k0, from0, sep0;
      ghost var all, seen := From(msgs, k0, from0), 0;
      SepStart(all, sep0);
      while true
        invariant 0 <= k < |msgs| && 0 <= from < |msgs[k]| && SepSoFar(all, sep0, seen, sep, From(msgs, k, from))
        decreases |msgs| - k
      {
        var sz := |msgs[k]| - from;
        SepNode(msgs, k, from, all, sep0, seen, sep);
        if sz >= |sep| {
          return msgs[k][from..from + |sep|] == sep;
        }
        if msgs[k][from..] != sep[..sz] {
          return false;
        }
        k, from := k + 1, 0;
        sep := sep[sz..];
        seen := seen + sz;
      }
    }

    /** lreadline: what stands before the first separator, which goes with it; or, to check, only whether there is one. */
    method ReadLine(pool: Pool, check: bool, sep: Bytes) returns (line: Option<Bytes>)
      requires Valid()
      modifies this, pool`free
      ensures Valid() && Nodes(pool.free, nodes) == old(Nodes(pool.free, nodes))
      ensures old(Content()) == [] || FirstAt(old(Content()), sep, 0) < 0 ==> line == None && Content() == old(Content())
      ensures old(Content()) != [] && FirstAt(old(Content()), sep, 0) >= 0 ==>
        line.Some? && if check then Content() == old(Content()) else
          line.value == old(Content())[..FirstAt(old(Content()), sep, 0)] && Content() == old(Content())[FirstAt(old(Content()), sep, 0) + |sep|..]
    {
      ghost var all := Content();
      if msgs == [] {
        return None;
      }
      var i := Locate(sep);
      if i < 0 {
        return None;
      }
      FirstAtIs(all, sep, 0);
      if check {
        return Some([]);
      }
      var s := PopString(pool, i + |sep|, |sep|);
      size := size - (i + |sep|);
      line := Some(s);
    }

    /** The loop of lreadline. */
    method Locate(sep: Bytes) returns (i: int)
      requires Valid() && msgs != []
      ensures i == FirstAt(Content(), sep, 0)
    {
      ghost var all := Content();
      var k, from := 0, offset;
      var bytes := |msgs[0]| - from;
      i := 0;
      while i <= size - |sep|
        invariant 0 <= i && 0 <= k < |msgs| && 0 <= from < |msgs[k]| && bytes == |msgs[k]| - from
        invariant i < |all| && From(msgs, k, from) == all[i..] && FirstAt(all, sep, 0) == FirstAt(all, sep, i)
        decreases size - i
      {
        LocateStep(msgs, k, from, all, i, sep);
        var here := CheckSep(k, from, sep);
        if here {
          return;
        }
        from, bytes := from + 1, bytes - 1;
        i := i + 1;
        if bytes == 0 {
          k, from := k + 1, 0;
          if k == |msgs| {
            break;
          }
          bytes := |msgs[k]|;
        }
      }
      i := -1;
    }
  }

  /** The first `seen` bytes of the separator have been found; `sep` is what is left of it, and `rest` where to look. */
  ghost predicate SepSoFar(all: Bytes, sep0: Bytes, seen: nat, sep: Bytes, rest: Bytes) {
    && seen <= |sep0| <= |all| && sep == sep0[seen..] && rest == all[seen..] && all[..seen] == sep0[..seen]
  }

  lemma SepStart(all: Bytes, sep: Bytes)
    requires |sep| <= |all|
    ensures SepSoFar(all, sep, 0, sep, all)
  {
  }

  /** The separator against what lies in one node, and then what follows. */
  lemma SepParts(all: Bytes, sep0: Bytes, seen: nat, sep: Bytes, part: Bytes, rest: Bytes)
    requires SepSoFar(all, sep0, seen, sep, part + rest)
    ensures |part| >= |sep| ==> (all[..|sep0|] == sep0 <==> part[..|sep|] == sep)
    ensures |part| < |sep| ==> rest != []
    ensures |part| < |sep| && part != sep[..|part|] ==> all[..|sep0|] != sep0
    ensures |part| < |sep| && part == sep[..|part|] ==> SepSoFar(all, sep0, seen + |part|, sep[|part|..], rest)
  {
    assert all == all[..seen] + part + rest && sep0 == sep0[..seen] + sep;
    if |part| >= |sep| {
      assert all[..|sep0|] == all[..seen] + part[..|sep|];
      assert all[..|sep0|] == sep0 ==> part[..|sep|] == all[..|sep0|][seen..] == sep0[seen..];
    } else {
      assert all[..|sep0|][seen..seen + |part|] == part && sep0[seen..seen + |part|] == sep[..|part|];
      assert all[..seen + |part|] == all[..seen] + part;
      assert sep0[..seen + |part|] == sep0[..seen] + sep[..|part|];
    }
  }

  lemma SepNode(msgs: seq<Bytes>, k: int, from: int, all: Bytes, sep0: Bytes, seen: nat, sep: Bytes)
    requires 0 <= k < |msgs| && 0 <= from < |msgs[k]| && SepSoFar(all, sep0, seen, sep, From(msgs, k, from))
    requires forall i :: 0 <= i < |msgs| ==> msgs[i] != []
    ensures var part := msgs[k][from..];
            && (|part| >= |sep| ==> (all[..|sep0|] == sep0 <==> part[..|sep|] == sep))
            && (|part| < |sep| && part != sep[..|part|] ==> all[..|sep0|] != sep0)
            && (|part| < |sep| && part == sep[..|part|] ==>
                  k + 1 < |msgs| && 0 < |msgs[k + 1]| && SepSoFar(all, sep0, seen + |part|, sep[|part|..], From(msgs, k + 1, 0)))
  {
    FromNext(msgs, k, from);
    SepParts(all, sep0, seen, sep, msgs[k][from..], From(msgs, k + 1, 0));
  }

  lemma LocateStep(msgs: seq<Bytes>, k: int, from: int, all: Bytes, i: int, sep: Bytes)
    requires 0 <= k < |msgs| && 0 <= from < |msgs[k]| && 0 <= i < |all| && From(msgs, k, from) == all[i..] && i + |sep| <= |all|
    requires forall i :: 0 <= i < |msgs| ==> msgs[i] != []
    ensures |sep| <= |From(msgs, k, from)| && (From(msgs, k, from)[..|sep|] == sep <==> Matches(all, sep, i))
    ensures from + 1 < |msgs[k]| ==> i + 1 < |all| && From(msgs, k, from + 1) == all[i + 1..]
    ensures from + 1 == |msgs[k]| && k + 1 < |msgs| ==> i + 1 < |all| && From(msgs, k + 1, 0) == all[i + 1..]
    ensures from + 1 == |msgs[k]| && k + 1 == |msgs| ==> i + 1 == |all|
    ensures !Matches(all, sep, i) ==> FirstAt(all, sep, i) == FirstAt(all, sep, i + 1)
  {
    FromStep(msgs, k, from);
    assert all[i..][..|sep|] == all[i..i + |sep|];
    assert all[i + 1..] == all[i..][1..];
  }

  /** Of what has been taken, with sz bytes to go, all but the last `skip` of the whole. */
  function Kept(taken: Bytes, sz: int, skip: int): Bytes {
    if sz >= skip || |taken| + sz < skip then taken else taken[..|taken| + sz - skip]
  }

  lemma KeptNone(sz: int, skip: int)
    ensures Kept([], sz, skip) == []
  {
  }

  lemma KeptStep(taken: Bytes, part: Bytes, sz: int, skip: int)
    requires 0 <= skip <= |taken| + sz && |part| < sz
    ensures Kept(taken + part, sz - |part|, skip) ==
            Kept(taken, sz, skip) + if sz - skip <= 0 then [] else if sz - skip < |part| then part[..sz - skip] else part
  {
  }

  lemma KeptLast(all: Bytes, taken: Bytes, m: Bytes, offset: int, sz: int, skip: int)
    requires 0 <= skip <= |taken| + sz && 0 <= offset && 0 <= sz && offset + sz <= |m|
    requires |taken| + sz <= |all| && all[..|taken| + sz] == taken + m[offset..offset + sz]
    ensures all[..|taken| + sz - skip] == if sz > skip then Kept(taken, sz, skip) + m[offset..offset + (sz - skip)] else Kept(taken, sz, skip)
  {
    var part := m[offset..offset + sz];
    assert all[..|taken| + sz - skip] == (taken + part)[..|taken| + sz - skip];
    assert sz > skip ==> m[offset..offset + (sz - skip)] == part[..sz - skip];
  }

  lemma PopInside(taken: Bytes, msgs: seq<Bytes>, offset: int, sz: int, all: Bytes)
    requires msgs != [] && 0 <= offset && 0 <= sz <= |msgs[0]| - offset && all == taken + From(msgs, 0, offset)
    ensures all[..|taken| + sz] == taken + msgs[0][offset..offset + sz]
    ensures all[|taken| + sz..] == From(msgs, 0, offset + sz)
  {
    CutInside(taken, msgs[0], offset, sz, Flat(msgs[1..]), all);
  }

  lemma PopWhole(taken: Bytes, msgs: seq<Bytes>, offset: int, all: Bytes)
    requires msgs != [] && 0 <= offset <= |msgs[0]| && all == taken + From(msgs, 0, offset)
    ensures all == taken + msgs[0][offset..] + From(msgs[1..], 0, 0)
    ensures all[|taken| + |msgs[0]| - offset..] == From(msgs[1..], 0, 0)
  {
    var r := msgs[1..];
    if r != [] { FlatHead(r); }
    CutWhole(taken, msgs[0], offset, Flat(r), all);
    assert From(r, 0, 0) == Flat(r);
  }

  lemma PopFirst(msgs: seq<Bytes>, offset: int, sz: int, skip: int, all: Bytes)
    requires msgs != [] && 0 <= offset && 0 <= skip <= sz <= |msgs[0]| - offset && all == From(msgs, 0, offset)
    ensures sz <= |all| && msgs[0][offset..offset + (sz - skip)] == all[..sz - skip]
    ensures all[sz..] == From(msgs, 0, offset + sz)
    ensures sz == |msgs[0]| - offset ==> all[sz..] == From(msgs[1..], 0, 0)
  {
    assert all == [] + all;
    PopInside([], msgs, offset, sz, all);
    PopWhole([], msgs, offset, all);
    assert msgs[0][offset..offset + (sz - skip)] == msgs[0][offset..offset + sz][..sz - skip];
  }

  lemma PushedIs(msgs: seq<Bytes>, offset: int, msg: Bytes)
    requires (msgs == [] ==> offset == 0) && (msgs != [] ==> 0 <= offset <= |msgs[0]|)
    ensures From(msgs + [msg], 0, offset) == From(msgs, 0, offset) + msg
  {
    var t := msgs + [msg];
    if msgs == [] {
      assert t[1..] == [];
    } else {
      assert t[1..] == msgs[1..] + [msg];
      assert (msgs[1..] + [msg])[..|msgs[1..]|] == msgs[1..];
      Assoc(msgs[0][offset..], Flat(msgs[1..]), msg);
    }
  }

  lemma GotNode(free: seq<int>, nodes: seq<int>, made: int, free': seq<int>, node: int, made': int)
    requires free != [] ==> made' == made && [node] + free' == free
    requires 0 <= made <= made' && (free == [] ==> [node] + free' == seq(made' - made, i => made + i))
    ensures Nodes(free', nodes + [node]) == Nodes(free, nodes) + Made(made, made')
  {
    assert multiset([node] + free') == multiset{node} + multiset(free');
    assert free != [] ==> seq(made' - made, i => made + i) == [];
  }

  lemma ReturnedNode(free: seq<int>, nodes: seq<int>)
    requires nodes != []
    ensures Nodes([nodes[0]] + free, nodes[1..]) == Nodes(free, nodes)
  {
    assert nodes == [nodes[0]] + nodes[1..];
  }
}

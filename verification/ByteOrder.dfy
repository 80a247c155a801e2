/** Comparing strings of bytes: by the first byte that differs, or else by length. */
module ByteOrder {
  import opened Common

  /** memcmp on two stretches of one length. */
  function Memcmp(a: Bytes, b: Bytes): int
    requires |a| == |b|
  {
    if a == [] then 0 else if a[0] != b[0] then a[0] - b[0] else Memcmp(a[1..], b[1..])
  }

  /** compareslObj; its sign is that of strcmp, for bytes without a zero among them. */
  function Compare(a: Bytes, b: Bytes): int {
    var m := if |a| <= |b| then |a| else |b|;
    var c := Memcmp(a[..m], b[..m]);
    if c == 0 then |a| - |b| else c
  }

  lemma {:induction false} CompareStep(a: Bytes, b: Bytes)
    requires a != [] && b != [] && a[0] == b[0]
    ensures Compare(a, b) == Compare(a[1..], b[1..])
  {
    var m := if |a| <= |b| then |a| else |b|;
    assert a[..m][1..] == a[1..][..m - 1] && b[..m][1..] == b[1..][..m - 1];
  }

  lemma {:induction false} CompareEqual(a: Bytes, b: Bytes)
    ensures Compare(a, b) == 0 <==> a == b
  {
    if a != [] && b != [] && a[0] == b[0] {
      CompareStep(a, b);
      CompareEqual(a[1..], b[1..]);
      assert a == [a[0]] + a[1..] && b == [b[0]] + b[1..];
    } else if a == [] || b == [] {
      assert Memcmp([], []) == 0;
    }
  }

  lemma {:induction false} CompareFlips(a: Bytes, b: Bytes)
    ensures Compare(a, b) < 0 <==> Compare(b, a) > 0
  {
    if a != [] && b != [] && a[0] == b[0] {
      CompareStep(a, b);
      CompareStep(b, a);
      CompareFlips(a[1..], b[1..]);
    }
  }

  lemma {:induction false} CompareTransitive(a: Bytes, b: Bytes, c: Bytes)
    requires Compare(a, b) <= 0 && Compare(b, c) <= 0
    ensures Compare(a, c) <= 0
    ensures Compare(a, b) < 0 || Compare(b, c) < 0 ==> Compare(a, c) < 0
  {
    if a != [] && b != [] && c != [] && a[0] == b[0] && b[0] == c[0] {
      CompareStep(a, b);
      CompareStep(b, c);
      CompareStep(a, c);
      CompareTransitive(a[1..], b[1..], c[1..]);
    }
  }

  /** Up to place k two strings are the same, and there the first has the smaller byte. */
  ghost predicate FirstDiffers(a: Bytes, b: Bytes, k: int) {
    0 <= k < |a| && k < |b| && a[..k] == b[..k] && a[k] < b[k]
  }

  /** The order is that of a dictionary: a string comes before its extensions, and otherwise the first byte that differs decides. */
  lemma {:induction false} CompareIs(a: Bytes, b: Bytes)
    ensures Compare(a, b) < 0 <==> (a <= b && a != b) || exists k :: FirstDiffers(a, b, k)
    decreases |a|
  {
    if a == [] || b == [] {
      assert Memcmp([], []) == 0;
    } else if a[0] == b[0] {
      CompareStep(a, b);
      CompareIs(a[1..], b[1..]);
      assert a == [a[0]] + a[1..] && b == [b[0]] + b[1..];
      forall k | FirstDiffers(a, b, k) ensures FirstDiffers(a[1..], b[1..], k - 1) {
        assert a[1..][..k - 1] == a[..k][1..] && b[1..][..k - 1] == b[..k][1..];
      }
      forall k | FirstDiffers(a[1..], b[1..], k) ensures FirstDiffers(a, b, k + 1) {
        assert a[..k + 1] == [a[0]] + a[1..][..k] && b[..k + 1] == [b[0]] + b[1..][..k];
      }
    } else {
      FirstByte(a, b);
    }
  }

  lemma FirstByte(a: Bytes, b: Bytes)
    requires a != [] && b != [] && a[0] != b[0]
    ensures (Compare(a, b) < 0 <==> a[0] < b[0]) && !(a <= b)
    ensures (exists k :: FirstDiffers(a, b, k)) <==> a[0] < b[0]
  {
    assert a[..0] == b[..0];
    forall k | 0 < k <= |a| && k <= |b| ensures a[..k] != b[..k] {
      assert a[..k][0] == a[0] && b[..k][0] == b[0];
    }
    assert a[0] < b[0] ==> FirstDiffers(a, b, 0);
  }
}

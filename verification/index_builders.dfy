/** The index lists the tests build with loops. Each entry is a size_t loop
    counter stored into a vector<int>, hence the SizeToInt conversion. */
module IndexBuilders {
  import opened Machine
  import opened Selection

  /** The global index list of the test program: resized to the number of
      points, then entry i set to i. */
  method IdentityIndices(n: SizeT) returns (indices: seq<int>)
    ensures |indices| == n
    ensures forall k :: 0 <= k < n ==> indices[k] == SizeToInt(k)
    ensures n <= INT32_BOUND ==> indices == AllIndices(n)
  {
    var a := new int[n];
    for i := 0 to n
      invariant forall k :: 0 <= k < i ==> a[k] == SizeToInt(k)
    {
      a[i] := SizeToInt(i);
    }
    indices := a[..];
  }

  /** Every third point: 0, 3, 6, ... below n. The counter cannot wrap,
      because the last multiple of 3 below 2^64 - 1 plus 3 is 2^64 - 1. */
  method EveryThird(n: SizeT) returns (indices: seq<int>)
    ensures |indices| == (n + 2) / 3
    ensures forall k :: 0 <= k < |indices| ==> indices[k] == SizeToInt(3 * k)
    ensures n <= INT32_BOUND ==> ValidIndices(indices, n)
    ensures n <= INT32_BOUND ==> forall j, k :: 0 <= j < k < |indices| ==> indices[j] < indices[k]
  {
    indices := [];
    var i: SizeT := 0;
    while i < n
      invariant i % 3 == 0 && i <= n + 2
      invariant |indices| == i / 3
      invariant forall k :: 0 <= k < |indices| ==> 3 * k < n && indices[k] == SizeToInt(3 * k)
      decreases n - i
    {
      indices := indices + [SizeToInt(i)];
      assert i + 3 < SIZE_T_MODULUS by {
        assert SIZE_T_MODULUS % 3 == 1;
      }
      i := i + 3;
    }
  }

  /** `indices2`: the first half of the positions of an m-point sub-cloud,
      0 .. m/2 - 1. */
  method HalfPrefix(m: SizeT) returns (indices2: seq<int>)
    ensures |indices2| == m / 2
    ensures forall k :: 0 <= k < |indices2| ==> indices2[k] == SizeToInt(k)
    ensures m / 2 <= INT32_BOUND ==> indices2 == AllIndices(m / 2) && ValidIndices(indices2, m)
  {
    indices2 := [];
    for i := 0 to m / 2
      invariant |indices2| == i
      invariant forall k :: 0 <= k < i ==> indices2[k] == SizeToInt(k)
    {
      indices2 := indices2 + [SizeToInt(i)];
    }
  }
}

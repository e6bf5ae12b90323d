/** Selection of the elements of a sequence by a list of positions: what
    copying a cloud "by indices" does to its points, and the algebra that
    makes the index-subset comparisons of the feature tests meaningful. */
module Selection {

  /** Every entry of `indices` is a position in a sequence of length `n`. */
  predicate ValidIndices(indices: seq<int>, n: nat)
  {
    forall k :: 0 <= k < |indices| ==> 0 <= indices[k] < n
  }

  /** The elements of `s` at the positions listed in `indices`, in the order
      of `indices` (repetitions allowed). */
  function Gather<T>(s: seq<T>, indices: seq<int>): (r: seq<T>)
    requires ValidIndices(indices, |s|)
    ensures |r| == |indices|
    ensures forall k :: 0 <= k < |indices| ==> r[k] == s[indices[k]]
    decreases |indices|
  {
    if indices == [] then []
    else
      assert ValidIndices(indices[1..], |s|) by {
        forall k | 0 <= k < |indices[1..]| ensures 0 <= indices[1..][k] < |s| {
          assert indices[1..][k] == indices[k + 1];
        }
      }
      [s[indices[0]]] + Gather(s, indices[1..])
  }

  /** The default index subset of an estimator: 0, 1, ..., n - 1. */
  function AllIndices(n: nat): (r: seq<int>)
    ensures |r| == n
    ensures forall k :: 0 <= k < n ==> r[k] == k
    ensures ValidIndices(r, n)
  {
    if n == 0 then [] else AllIndices(n - 1) + [n - 1]
  }

  /** Selecting every position in order gives back the sequence itself. */
  lemma GatherAll<T>(s: seq<T>)
    ensures Gather(s, AllIndices(|s|)) == s
  {
  }

  /** Selecting by `inner` and then by `outer` is one selection by the
      composed list `k |-> inner[outer[k]]`, which is itself `Gather(inner, outer)`. */
  lemma GatherCompose<T>(s: seq<T>, inner: seq<int>, outer: seq<int>)
    requires ValidIndices(inner, |s|)
    requires ValidIndices(outer, |inner|)
    ensures ValidIndices(Gather(inner, outer), |s|)
    ensures Gather(Gather(s, inner), outer) == Gather(s, Gather(inner, outer))
  {
  }
}

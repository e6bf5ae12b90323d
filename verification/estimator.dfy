/** The decoupling contract the index/search-surface tests rely on: a
    per-point feature is a function of the query point and of the search
    surface alone, and an estimator produces one output per processed index,
    in index order. The descriptor kernel is a parameter `K` of type
    `(P, seq<P>) -> D`: a pure function of the query point's value and the
    search surface, so it cannot depend on the query's position, on the order
    in which points are processed, or on state carried from one point to the
    next. Nothing else is assumed about it. */
module Estimator {
  import opened Selection

  datatype Option<T> = None | Some(value: T)

  /** What a test configures on an estimator: the input cloud, and optionally
      an index subset (setIndices) and a search surface (setSearchSurface). */
  datatype Config<P> = Config(input: seq<P>, indices: Option<seq<int>>, surface: Option<seq<P>>)

  /** The processed indices: the subset when one is set, else every input point. */
  function Processed<P>(c: Config<P>): (r: seq<int>)
    ensures c.indices.Some? ==> r == c.indices.value
    ensures c.indices.None? ==> |r| == |c.input| && forall k :: 0 <= k < |r| ==> r[k] == k
  {
    match c.indices
    case None => AllIndices(|c.input|)
    case Some(ix) => ix
  }

  /** The neighbour domain: the search surface when one is set, else the input. */
  function Surface<P>(c: Config<P>): (r: seq<P>)
    ensures c.surface.Some? ==> r == c.surface.value
    ensures c.surface.None? ==> r == c.input
  {
    match c.surface
    case None => c.input
    case Some(s) => s
  }

  predicate WellFormed<P>(c: Config<P>)
  {
    ValidIndices(Processed(c), |c.input|)
  }

  /** The kernel applied to each query point against one fixed surface. */
  function MapKernel<P, D>(K: (P, seq<P>) -> D, queries: seq<P>, surface: seq<P>): (out: seq<D>)
    ensures |out| == |queries|
    ensures forall j :: 0 <= j < |queries| ==> out[j] == K(queries[j], surface)
  {
    if queries == [] then [] else [K(queries[0], surface)] + MapKernel(K, queries[1..], surface)
  }

  /** The outputs of an estimator run with configuration `c`. */
  function Features<P, D>(K: (P, seq<P>) -> D, c: Config<P>): (out: seq<D>)
    requires WellFormed(c)
    ensures |out| == |Processed(c)|
    ensures forall j :: 0 <= j < |out| ==> out[j] == K(c.input[Processed(c)[j]], Surface(c))
  {
    MapKernel(K, Gather(c.input, Processed(c)), Surface(c))
  }

  /** Gathering commutes with a per-point kernel over a fixed surface. */
  lemma GatherMapKernel<P, D>(K: (P, seq<P>) -> D, queries: seq<P>, surface: seq<P>, indices: seq<int>)
    requires ValidIndices(indices, |queries|)
    ensures Gather(MapKernel(K, queries, surface), indices) == MapKernel(K, Gather(queries, indices), surface)
  {
  }

  /** The three computations of the first half of the index/search-surface
      test agree: all points then sub-select (output0), the sub-cloud as input
      with the full cloud as search surface (output1), and the full cloud with
      the index subset (output2). */
  lemma ThreeWayEquivalence<P, D>(K: (P, seq<P>) -> D, points: seq<P>, indices: seq<int>)
    requires ValidIndices(indices, |points|)
    ensures var output0 := Gather(Features(K, Config(points, None, None)), indices);
            var output1 := Features(K, Config(Gather(points, indices), None, Some(points)));
            var output2 := Features(K, Config(points, Some(indices), None));
            |output0| == |indices| && output0 == output1 && output1 == output2
  {
    var full := Features(K, Config(points, None, None));
    var output0 := Gather(full, indices);
    var output1 := Features(K, Config(Gather(points, indices), None, Some(points)));
    var output2 := Features(K, Config(points, Some(indices), None));
    forall j | 0 <= j < |indices| ensures output0[j] == output1[j] == output2[j] {
      assert AllIndices(|points|)[indices[j]] == indices[j];
      assert AllIndices(|indices|)[j] == j;
    }
  }

  /** The second half of the test: the sub-cloud as input, the full cloud as
      search surface and a further subset `indices2` (output3) agrees with
      sub-selecting output0 by `indices2` (output4). */
  lemma SubsetOfSubcloud<P, D>(K: (P, seq<P>) -> D, points: seq<P>, indices: seq<int>, indices2: seq<int>)
    requires ValidIndices(indices, |points|)
    requires ValidIndices(indices2, |indices|)
    ensures var output0 := Gather(Features(K, Config(points, None, None)), indices);
            var output3 := Features(K, Config(Gather(points, indices), Some(indices2), Some(points)));
            |output3| == |indices2| && output3 == Gather(output0, indices2)
  {
  }
}

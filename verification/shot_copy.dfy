/** The SHOT output cloud and shotCopyPointCloud, the test's own copy of a
    SHOT cloud restricted to a list of indices. */
module ShotCopy {
  import opened Machine
  import opened Selection
  import opened Estimator

  /** The cloud header (sequence number, stamp, frame id): only ever copied. */
  datatype Header = Header(sequenceNumber: nat, stamp: nat, frameId: string)

  /** Number of floats in a SHOT local reference frame (a 3x3 matrix). */
  const RF_SIZE: nat := 9

  /** One SHOT record: a variable-length descriptor and a 9-float local
      reference frame. The floats are only copied, so their type is a parameter. */
  datatype Shot<F> = Shot(descriptor: seq<F>, rf: seq<F>)

  predicate ValidShots<F>(points: seq<Shot<F>>)
  {
    forall k :: 0 <= k < |points| ==> |points[k].rf| == RF_SIZE
  }

  /** A point cloud of SHOT records. */
  class ShotCloud<F(0)> {
    var points: seq<Shot<F>>
    var header: Header
    var width: nat
    var height: nat
    var isDense: bool

    ghost predicate Valid()
      reads this
    {
      width < UINT32_MODULUS && height < UINT32_MODULUS && ValidShots(points)
    }

    /** A freshly declared cloud, as `PointCloud<SHOT> output0;` gives. */
    constructor ()
      ensures Valid()
      ensures points == [] && header == Header(0, 0, "")
      ensures width == 0 && height == 0 && isDense
    {
      points := [];
      header := Header(0, 0, "");
      width := 0;
      height := 0;
      isDense := true;
    }
  }

  /** The descriptor that position `k` of the destination held before the
      copy: kept by resize when the destination was long enough, empty for a
      point that resize default-constructed. */
  function KeptDescriptor<F>(prior: seq<Shot<F>>, k: nat): (d: seq<F>)
    ensures k < |prior| ==> d == prior[k].descriptor
    ensures |prior| <= k ==> d == []
  {
    if k < |prior| then prior[k].descriptor else []
  }

  /** The points of the destination after copying `source` by `indices` onto
      a destination whose points were `prior`. */
  function CopiedPoints<F>(prior: seq<Shot<F>>, source: seq<Shot<F>>, indices: seq<int>): (r: seq<Shot<F>>)
    requires ValidIndices(indices, |source|)
    ensures |r| == |indices|
  {
    seq(|indices|, k requires 0 <= k < |indices| =>
      Shot(KeptDescriptor(prior, k) + source[indices[k]].descriptor, source[indices[k]].rf))
  }

  /** Copies the records of `cloudIn` at `indices` into `cloudOut`: resizes
      the points to the number of indices, copies the header, sets the width
      to that number, the height to 1 and the dense flag to that of
      `cloudIn`, then appends each selected descriptor to what the destination
      point already held and copies its reference frame. */
  method ShotCopyPointCloud<F(0)>(cloudIn: ShotCloud<F>, indices: seq<int>, cloudOut: ShotCloud<F>)
    requires cloudIn != cloudOut
    requires cloudIn.Valid() && cloudOut.Valid()
    requires ValidIndices(indices, |cloudIn.points|)
    requires |indices| < SIZE_T_MODULUS
    modifies cloudOut
    ensures cloudOut.Valid()
    ensures cloudOut.points == CopiedPoints(old(cloudOut.points), cloudIn.points, indices)
    ensures cloudOut.header == cloudIn.header
    ensures cloudOut.width == SizeToUint32(|indices|) && cloudOut.height == 1
    ensures cloudOut.isDense == cloudIn.isDense
    ensures |indices| < UINT32_MODULUS ==> |cloudOut.points| == cloudOut.width * cloudOut.height == |indices|
  {
    var n := |indices|;
    ghost var prior := cloudOut.points;
    // resize: truncate, or pad with default-constructed records
    if n <= |cloudOut.points| {
      cloudOut.points := cloudOut.points[..n];
    } else {
      var blank: F := *;
      cloudOut.points := cloudOut.points + seq(n - |cloudOut.points|, _ => Shot([], seq(RF_SIZE, _ => blank)));
    }
    cloudOut.header := cloudIn.header;
    cloudOut.width := SizeToUint32(n);
    cloudOut.height := 1;
    if cloudIn.isDense {
      cloudOut.isDense := true;
    } else {
      cloudOut.isDense := false;
    }
    ghost var resized := cloudOut.points;
    assert forall k :: 0 <= k < n ==> resized[k].descriptor == KeptDescriptor(prior, k);
    var target := CopiedPoints(prior, cloudIn.points, indices);
    for i := 0 to n
      invariant |cloudOut.points| == n
      invariant forall k :: 0 <= k < i ==> cloudOut.points[k] == target[k]
      invariant forall k :: i <= k < n ==> cloudOut.points[k] == resized[k]
      invariant cloudOut.header == cloudIn.header && cloudOut.isDense == cloudIn.isDense
      invariant cloudOut.width == SizeToUint32(n) && cloudOut.height == 1
    {
      var src := cloudIn.points[indices[i]];
      var dst := cloudOut.points[i];
      cloudOut.points := cloudOut.points[i := Shot(dst.descriptor + src.descriptor, src.rf)];
    }
    CopiedFrames(prior, cloudIn.points, indices);
  }

  /** The copied points satisfy the record invariant, and point `k` carries
      the reference frame of input point `indices[k]` in all nine slots. */
  lemma CopiedFrames<F>(prior: seq<Shot<F>>, source: seq<Shot<F>>, indices: seq<int>)
    requires ValidShots(source)
    requires ValidIndices(indices, |source|)
    ensures ValidShots(CopiedPoints(prior, source, indices))
    ensures forall k :: 0 <= k < |indices| ==>
      forall slot :: 0 <= slot < RF_SIZE ==> CopiedPoints(prior, source, indices)[k].rf[slot] == source[indices[k]].rf[slot]
  {
  }

  /** Point `k` of the destination holds what resize left there followed by
      the descriptor of input point `indices[k]`: its old descriptor when the
      destination already had a point `k`, otherwise only the input's. */
  lemma CopiedDescriptorsAppend<F>(prior: seq<Shot<F>>, source: seq<Shot<F>>, indices: seq<int>, k: nat)
    requires ValidIndices(indices, |source|)
    requires k < |indices|
    ensures CopiedPoints(prior, source, indices)[k].descriptor == KeptDescriptor(prior, k) + source[indices[k]].descriptor
    ensures k < |prior| ==> CopiedPoints(prior, source, indices)[k].descriptor == prior[k].descriptor + source[indices[k]].descriptor
    ensures |prior| <= k ==> CopiedPoints(prior, source, indices)[k].descriptor == source[indices[k]].descriptor
  {
  }

  /** Onto a freshly declared (empty) destination, the copy is exactly the
      selection of the input records by `indices`. */
  lemma {:induction false} CopyOntoEmptyIsGather<F>(source: seq<Shot<F>>, indices: seq<int>)
    requires ValidIndices(indices, |source|)
    ensures CopiedPoints([], source, indices) == Gather(source, indices)
  {
    var r := CopiedPoints([], source, indices);
    forall k | 0 <= k < |indices| ensures r[k] == Gather(source, indices)[k] {
      assert KeptDescriptor<F>([], k) == [];
      assert r[k].descriptor == source[indices[k]].descriptor;
    }
  }

  /** Copying onto a destination that already holds records appends: two
      copies onto the same destination yield each descriptor twice. */
  lemma CopyTwiceDoublesDescriptors<F>(source: seq<Shot<F>>, indices: seq<int>)
    requires ValidIndices(indices, |source|)
    ensures var once := CopiedPoints([], source, indices);
            forall k :: 0 <= k < |indices| ==>
              CopiedPoints(once, source, indices)[k].descriptor == source[indices[k]].descriptor + source[indices[k]].descriptor
  {
  }

  /** The SHOT variant of the second half of the index/search-surface test:
      output0 and output4 are copies onto freshly declared clouds, and output4
      agrees with the run on the sub-cloud with `indices2` (output3). */
  lemma ShotSubsetOfSubcloud<P, F>(K: (P, seq<P>) -> Shot<F>, points: seq<P>, indices: seq<int>, indices2: seq<int>)
    requires ValidIndices(indices, |points|)
    requires ValidIndices(indices2, |indices|)
    ensures var fullOutput := Features(K, Config(points, None, None));
            var output0 := CopiedPoints([], fullOutput, indices);
            var output3 := Features(K, Config(Gather(points, indices), Some(indices2), Some(points)));
            var output4 := CopiedPoints([], output0, indices2);
            output0 == Features(K, Config(points, Some(indices), None)) && output3 == output4
  {
    var fullOutput := Features(K, Config(points, None, None));
    var output0 := CopiedPoints([], fullOutput, indices);
    CopyOntoEmptyIsGather(fullOutput, indices);
    CopyOntoEmptyIsGather(output0, indices2);
    ThreeWayEquivalence(K, points, indices);
    SubsetOfSubcloud(K, points, indices, indices2);
  }
}

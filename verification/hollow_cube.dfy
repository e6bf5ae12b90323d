/** The GFPFH test fixture: the surface of the integer cube [-10, 10)^3,
    i.e. every lattice point of the cube outside the hole [-9, 9)^3, each
    labelled by one of three classes. */
module HollowCube {
  import opened Machine

  const NUM_CLASSES: nat := 3
  /** Lowest and one-past-highest coordinate of the cube. */
  const LO: int := -10
  const HI: int := 10

  datatype PointXYZL = PointXYZL(x: int, y: int, z: int, classLabel: nat)
  datatype LabelledCloud = LabelledCloud(points: seq<PointXYZL>, width: nat, height: nat)

  /** The points the generator skips. */
  predicate InHole(x: int, y: int, z: int)
  {
    -9 <= x < 9 && -9 <= y < 9 && -9 <= z < 9
  }

  function Abs(v: int): nat { if v < 0 then -v else v }

  /** The class of a point: 1 + |x + y + z| mod 3, always one of 1, 2, 3. */
  function Label(x: int, y: int, z: int): (l: nat)
    ensures 1 <= l <= NUM_CLASSES
    ensures l - 1 == Abs(x + y + z) % NUM_CLASSES
  {
    1 + Abs(x + y + z) % NUM_CLASSES
  }

  predicate InCube(x: int, y: int, z: int)
  {
    LO <= x < HI && LO <= y < HI && LO <= z < HI
  }

  /** A point the generator may emit: in the cube, not in the hole, and
      labelled from its coordinates. */
  predicate Emitted(p: PointXYZL)
  {
    InCube(p.x, p.y, p.z) && !InHole(p.x, p.y, p.z) && p.classLabel == Label(p.x, p.y, p.z)
  }

  /** Rank of (x, y, z) in the loop order: z outermost, then y, then x. */
  function Key(x: int, y: int, z: int): int
  {
    (z - LO) * 400 + (y - LO) * 20 + (x - LO)
  }

  function KeyOf(p: PointXYZL): int
  {
    Key(p.x, p.y, p.z)
  }

  /** Number of surface points strictly before (x, y, z) in loop order, for
      LO <= x <= HI, LO <= y < HI, LO <= z < HI (or the end position): a full
      face layer holds 400 points, an inner layer 76 (two full rows of 20 and
      eighteen rows of 2), and a row 20 or 2. */
  function Before(x: int, y: int, z: int): int
  {
    LayersBefore(z) + RowsBefore(y, z) + CellsBefore(x, y, z)
  }

  function LayersBefore(z: int): int
  {
    if z <= LO then 0 else if z < HI then 400 + 76 * (z - LO - 1) else 2168
  }

  function RowsBefore(y: int, z: int): int
  {
    if z == LO || z == HI - 1 then 20 * (y - LO)
    else if y <= LO then 0 else if y < HI then 20 + 2 * (y - LO - 1) else 76
  }

  function CellsBefore(x: int, y: int, z: int): int
  {
    if z == LO || z == HI - 1 || y == LO || y == HI - 1 then x - LO
    else (if x > LO then 1 else 0) + (if x > HI - 1 then 1 else 0)
  }

  /** What holds of the points pushed so far when the loops stand at
      (x, y, z): their count, that each is a surface point with its label,
      that they come in strictly increasing loop order before (x, y, z), and
      that every surface point before (x, y, z) is among them. */
  ghost predicate Progress(points: seq<PointXYZL>, x: int, y: int, z: int)
  {
    && |points| == Before(x, y, z)
    && (forall k :: 0 <= k < |points| ==> Emitted(points[k]) && KeyOf(points[k]) < Key(x, y, z))
    && (forall j, k :: 0 <= j < k < |points| ==> KeyOf(points[j]) < KeyOf(points[k]))
    && (forall a, b, c :: InCube(a, b, c) && !InHole(a, b, c) && Key(a, b, c) < Key(x, y, z) ==>
          PointXYZL(a, b, c, Label(a, b, c)) in points)
  }

  /** The triple loop of the GFPFH test: skip the hole, push every other
      point with its label, then set width to the point count and height to 1.
      The result is exactly the 20^3 - 18^3 = 2168 surface points of the cube,
      each once, in loop order. */
  method BuildHollowCube() returns (cloud: LabelledCloud)
    ensures |cloud.points| == 2168 == 20 * 20 * 20 - 18 * 18 * 18
    ensures cloud.width == |cloud.points| && cloud.height == 1
    ensures forall k :: 0 <= k < |cloud.points| ==> Emitted(cloud.points[k])
    ensures forall j, k :: 0 <= j < k < |cloud.points| ==> KeyOf(cloud.points[j]) < KeyOf(cloud.points[k])
    ensures forall a, b, c :: InCube(a, b, c) && !InHole(a, b, c) ==> PointXYZL(a, b, c, Label(a, b, c)) in cloud.points
  {
    var points: seq<PointXYZL> := [];
    var z := LO;
    while z < HI
      invariant LO <= z <= HI
      invariant Progress(points, LO, LO, z)
    {
      points := PushLayer(points, z);
      z := z + 1;
    }
    Finished(points);
    cloud := LabelledCloud(points, SizeToUint32(|points|), 1);
  }

  /** The middle loop of the generator: the rows of layer z. */
  method PushLayer(points: seq<PointXYZL>, z: int) returns (points': seq<PointXYZL>)
    requires LO <= z < HI
    requires Progress(points, LO, LO, z)
    ensures Progress(points', LO, LO, z + 1)
  {
    points' := points;
    var y := LO;
    while y < HI
      invariant LO <= y <= HI
      invariant Progress(points', LO, y, z)
    {
      points' := PushRow(points', y, z);
      y := y + 1;
    }
    LayerEnd(points', z);
  }

  /** The inner loop of the generator: the points of row (y, z) outside the hole. */
  method PushRow(points: seq<PointXYZL>, y: int, z: int) returns (points': seq<PointXYZL>)
    requires LO <= y < HI && LO <= z < HI
    requires Progress(points, LO, y, z)
    ensures Progress(points', LO, y + 1, z)
  {
    points' := points;
    var x := LO;
    while x < HI
      invariant LO <= x <= HI
      invariant Progress(points', x, y, z)
    {
      CellStep(points', x, y, z);
      if !InHole(x, y, z) {
        var classLabel := 1 + Abs(x + y + z) % NUM_CLASSES;
        points' := points' + [PointXYZL(x, y, z, classLabel)];
      }
      x := x + 1;
    }
    RowEnd(points', y, z);
  }

  /** The points the loop body pushes at (x, y, z). */
  function Cell(x: int, y: int, z: int): seq<PointXYZL>
  {
    if InHole(x, y, z) then [] else [PointXYZL(x, y, z, Label(x, y, z))]
  }

  /** Two lattice points of the cube with the same rank are the same point. */
  lemma KeyInjective(a: int, b: int, c: int, x: int, y: int, z: int)
    requires InCube(a, b, c) && InCube(x, y, z)
    requires Key(a, b, c) == Key(x, y, z)
    ensures a == x && b == y && c == z
  {
    assert (c - z) * 400 == (y - b) * 20 + (x - a);
    assert -400 < (y - b) * 20 + (x - a) < 400;
    assert c == z;
    assert (b - y) * 20 == x - a;
  }

  lemma CellStep(points: seq<PointXYZL>, x: int, y: int, z: int)
    requires InCube(x, y, z)
    requires Progress(points, x, y, z)
    ensures Progress(points + Cell(x, y, z), x + 1, y, z)
  {
    var next := points + Cell(x, y, z);
    assert |Cell(x, y, z)| == if InHole(x, y, z) then 0 else 1;
    assert Before(x + 1, y, z) == Before(x, y, z) + |Cell(x, y, z)|;
    assert Key(x + 1, y, z) == Key(x, y, z) + 1;
    forall a, b, c | InCube(a, b, c) && !InHole(a, b, c) && Key(a, b, c) < Key(x + 1, y, z)
      ensures PointXYZL(a, b, c, Label(a, b, c)) in next
    {
      if Key(a, b, c) == Key(x, y, z) {
        KeyInjective(a, b, c, x, y, z);
        assert next[|next| - 1] == PointXYZL(a, b, c, Label(a, b, c));
      } else {
        assert PointXYZL(a, b, c, Label(a, b, c)) in points;
      }
    }
    forall j, k | 0 <= j < k < |next| ensures KeyOf(next[j]) < KeyOf(next[k]) {
      if k >= |points| {
        assert next[j] == points[j];
      }
    }
  }

  lemma RowEnd(points: seq<PointXYZL>, y: int, z: int)
    requires LO <= y < HI && LO <= z < HI
    requires Progress(points, HI, y, z)
    ensures Progress(points, LO, y + 1, z)
  {
    assert Key(HI, y, z) == Key(LO, y + 1, z);
    assert Before(HI, y, z) == Before(LO, y + 1, z);
  }

  lemma LayerEnd(points: seq<PointXYZL>, z: int)
    requires LO <= z < HI
    requires Progress(points, LO, HI, z)
    ensures Progress(points, LO, LO, z + 1)
  {
    assert Key(LO, HI, z) == Key(LO, LO, z + 1);
    assert Before(LO, HI, z) == Before(LO, LO, z + 1);
  }

  lemma Finished(points: seq<PointXYZL>)
    requires Progress(points, LO, LO, HI)
    ensures |points| == 2168
    ensures forall k :: 0 <= k < |points| ==> Emitted(points[k])
    ensures forall j, k :: 0 <= j < k < |points| ==> KeyOf(points[j]) < KeyOf(points[k])
    ensures forall a, b, c :: InCube(a, b, c) && !InHole(a, b, c) ==> PointXYZL(a, b, c, Label(a, b, c)) in points
  {
    forall a, b, c | InCube(a, b, c) && !InHole(a, b, c)
      ensures PointXYZL(a, b, c, Label(a, b, c)) in points
    {
      assert Key(a, b, c) < Key(LO, LO, HI);
    }
  }
}

# Index subsets, SHOT cloud copies and test fixtures of the PCL feature tests

This project models the part of the Point Cloud Library's feature test
program that the test code implements itself, rather than calls:

- `shotCopyPointCloud`, which copies a cloud of SHOT descriptors restricted
  to a list of indices into an existing output cloud, updating it in place
  (class `ShotCopy.ShotCloud` and method `ShotCopy.ShotCopyPointCloud`);
- the gather algebra behind the index-subset / search-surface tests
  (`testIndicesAndSearchSurface`, `testSHOTIndicesAndSearchSurface`): a
  feature estimator produces one output per processed index, and each output
  depends only on its query point and on the search surface. The descriptor
  kernel is a function parameter `K`, assumed to be a pure function of the
  query point's value and the search surface: it cannot see the query's
  position, the order in which points are processed, or state carried from
  one point to the next. Under that assumption the test's three computations
  give the same results, and so do its two half-subset computations (modules
  `Selection` and `Estimator`);
- the loops that build index lists: the identity list of the test program,
  every third point, and the first half of a sub-cloud's positions
  (`IndexBuilders`). A `size_t` counter pushed into a `vector<int>` is
  narrowed to 32 bits explicitly (`Machine.SizeToInt`);
- the hollow labelled cube that the GFPFH test builds (`HollowCube`);
- the fake colour word of the SHOT colour tests and the loop that attaches
  it to each point (`RgbaFixture`). Its arithmetic is `size_t` arithmetic,
  so `255 - i` wraps modulo 2^64.

Float payloads (descriptor entries, reference frames, coordinates of the
test cloud) are only copied. They are therefore a type parameter `F`. The
cube coordinates are small integers and are modelled as `int`.

## Model

| member | source | states |
|---|---|---|
| Machine.SizeToInt | test/test_feature.cpp:134-135 | storing a size_t into an int gives the value congruent to it modulo 2^32 in [-2^31, 2^31), and the value itself when it is below 2^31 |
| Machine.SizeToUint32 | test/test_feature.cpp:169 | storing a size_t into the uint32 width gives the value modulo 2^32, and the value itself when it is below 2^32 |
| Selection.Gather | test/test_feature.cpp:94-98 | selecting by indices gives one element per index, element k being the element at position indices[k] |
| Selection.AllIndices | test/test_feature.cpp:86-92 | the default index subset of an estimator with no setIndices is 0..n-1 |
| Selection.GatherAll | test/test_feature.cpp:86-94 | selecting every position in order returns the cloud unchanged |
| Selection.GatherCompose | test/test_feature.cpp:128-158 | selecting by indices and then by indices2 equals one selection by k -> indices[indices2[k]] |
| Estimator.MapKernel | test/test_feature.cpp:86-92 | applying a per-point kernel over a fixed surface gives one output per query, output j being K(query j, surface) |
| Estimator.Processed | test/test_feature.cpp:86-113 | the indices an estimator processes are those given to setIndices (est2), and without setIndices (est0, est1) every input position 0..n-1 in order |
| Estimator.Surface | test/test_feature.cpp:96-103 | the neighbour domain is the cloud given to setSearchSurface (est1), and without it (est0, est2) the input cloud itself |
| Estimator.Features | test/test_feature.cpp:96-113 | an estimator run yields one output per processed index, output j being K(input[indices[j]], surface); the surface defaults to the input and the indices to all points |
| Estimator.GatherMapKernel | test/test_feature.cpp:88-94 | sub-selecting the kernel's outputs equals applying the kernel to the sub-selected queries |
| Estimator.ThreeWayEquivalence | test/test_feature.cpp:84-126 | output0 (all points, then sub-select), output1 (sub-cloud as input, full cloud as surface) and output2 (full cloud with the index subset) have indices.size() entries and are equal |
| Estimator.SubsetOfSubcloud | test/test_feature.cpp:128-158 | output3 (sub-cloud as input, full surface, indices2) equals output0 sub-selected by indices2 |
| ShotCopy.ShotCloud.constructor | test/test_feature.cpp:266 | a freshly declared SHOT cloud has no points, a default header, width and height 0 and is dense |
| ShotCopy.ShotCopyPointCloud | test/test_feature.cpp:163-186 | the output gets indices.size() points, the input's header, width indices.size() (as uint32), height 1 and the input's dense flag; point k holds its old descriptor followed by input point indices[k]'s descriptor, and that point's reference frame |
| ShotCopy.CopiedPoints | test/test_feature.cpp:167 | the copy has exactly one record per index |
| ShotCopy.KeptDescriptor | test/test_feature.cpp:167 | after resize, position k keeps its old descriptor when the destination already had k + 1 points, and holds an empty descriptor when resize created it |
| ShotCopy.CopiedFrames | test/test_feature.cpp:184 | every copied record has a 9-float frame, and slot s of record k equals slot s of input record indices[k] |
| ShotCopy.CopiedDescriptorsAppend | test/test_feature.cpp:167-183 | record k's descriptor is what resize left at k followed by the selected descriptor: the old descriptor then the selected one for a record that existed before, the selected one alone for a record resize created |
| ShotCopy.CopyOntoEmptyIsGather | test/test_feature.cpp:266-275 | copying onto a freshly declared cloud gives exactly the selection of the input records by indices |
| ShotCopy.CopyTwiceDoublesDescriptors | test/test_feature.cpp:181-183 | copying twice onto the same cloud repeats each selected descriptor twice |
| ShotCopy.ShotSubsetOfSubcloud | test/test_feature.cpp:264-332 | in the SHOT test, output0 equals the run with the index subset, and output4 (two copies onto fresh clouds) equals output3 |
| IndexBuilders.IdentityIndices | test/test_feature.cpp:2208-2212 | the test program's index list has one entry per point, entry i being i narrowed to int, hence 0..N-1 when N <= 2^31 |
| IndexBuilders.EveryThird | test/test_feature.cpp:821-823 | the list has ceil(N/3) entries, entry k being 3k narrowed to int; for N <= 2^31 the entries are strictly increasing valid positions below N |
| IndexBuilders.HalfPrefix | test/test_feature.cpp:133-135 | indices2 has floor(m/2) entries, entry k being k narrowed to int; for m/2 <= 2^31 it is 0..m/2-1, all valid positions in the m-point sub-cloud |
| HollowCube.Label | test/test_feature.cpp:1708 | a label is 1 + abs(x+y+z) mod 3, so it lies in 1..3 |
| HollowCube.BuildHollowCube | test/test_feature.cpp:1702-1717 | the cloud has exactly 20^3 - 18^3 = 2168 points, width equal to that count and height 1; each point lies in [-10,10)^3 outside [-9,9)^3 with its label; the points come in strictly increasing loop order (no point twice); every such surface point is present |
| HollowCube.PushLayer | test/test_feature.cpp:1703-1715 | one pass of the y loop pushes exactly the surface points of layer z, in order, after those of earlier layers |
| HollowCube.PushRow | test/test_feature.cpp:1704-1715 | one pass of the x loop pushes exactly the points of row (y, z) outside the hole, in order |
| RgbaFixture.Red | test/test_feature.cpp:920 | the red channel i % 255 is below 255, and is i itself for i < 255 |
| RgbaFixture.Green | test/test_feature.cpp:920 | the green channel (255 - i) % 255, with 255 - i evaluated in size_t (wrapping modulo 2^64), is below 255 |
| RgbaFixture.Blue | test/test_feature.cpp:920 | the blue channel (i * 37) % 255, with i * 37 evaluated in size_t, is below 255 |
| RgbaFixture.Rgba | test/test_feature.cpp:920 | the three channels are shifted and summed in size_t and the sum is stored into the 32-bit rgba field, so the word is below 2^32; the same expression recurs at line 1055; RgbaLayout gives its byte layout |
| RgbaFixture.RgbaLayout | test/test_feature.cpp:920 | the colour word is below 2^24; its top byte is i mod 255 (red), its middle byte green, its low byte blue, each below 255 |
| RgbaFixture.GreenBeforeWrap | test/test_feature.cpp:920 | for i <= 255 the green channel is (255 - i) mod 255 |
| RgbaFixture.GreenAfterWrap | test/test_feature.cpp:920 | for i > 255 the green channel is (2^64 + 255 - i) mod 255 = (256 - i) mod 255, one more (mod 255) than (255 - i) mod 255 |
| RgbaFixture.GreenRepeatsAtWrap | test/test_feature.cpp:920 | points 255 and 256 both get green 0, and point 257 gets 254 |
| RgbaFixture.BlueNoWrap | test/test_feature.cpp:920 | blue is 37i mod 255 while 37i fits in a size_t |
| RgbaFixture.ColourCloud | test/test_feature.cpp:912-922 | the coloured cloud has one point per input point, with the same coordinates and the colour word of its position |

## Left out

- The feature estimators the tests exercise (normals, moment invariants, boundary, principal curvatures, SHOT, 3DSC, USC, PFH, FPFH, PPF, VFH, GFPFH, RSD, intensity gradient, spin images, intensity spin, RIFT). Their code is library code that is not part of this model, and the tests only compare their float outputs with tolerances. The descriptor kernel appears only as the parameter `K`.
- The multithreaded (OMP) estimator variants: their point is fan-out across threads.
- Loading the PCD file, converting the ROS message and building the k-d tree in `main`: file I/O and an external search structure.
- The library `copyPointCloud` overloads are not part of this model; where the tests call them, the model uses `Selection.Gather`, the selection they are used for.
- The synthetic clouds built with `sqrt`, `exp` and `pow`, and the analytic gradient checks: floating-point numerics.
- visualization/include/pcl/visualization/window.h: a VTK render window with event callbacks, no stateable logic.
- Float comparison: the tests compare floats with `ASSERT_EQ`, under which a NaN never equals itself; the model compares the opaque element type `F` by value equality.
- ShotCopy.ShotCopyPointCloud: requires the input and output clouds to be distinct objects; a call with the same cloud for both (aliased references) is not modelled.
- ShotCopy.ShotCloud.constructor: the container's default values (width 0, height 0, dense, empty header) come from the point-cloud container library, which is not part of this model. The header's fields are never read, only copied.
- PointCloud::width and PointCloud::height are 32-bit unsigned fields in the container library; this is why the width is narrowed with `Machine.SizeToUint32`.
- HollowCube.PushLayer and HollowCube.PushRow: the generator's three nested loops are split into one method per loop level, so the order of operations and the pushes are the source's, but the loop nesting becomes calls.
- Estimator.ThreeWayEquivalence, Estimator.SubsetOfSubcloud and ShotCopy.ShotSubsetOfSubcloud hold only for estimators whose per-point result is a pure function of the query point and the search surface. An estimator whose result depends on state carried across points, on the processing order or on the query's position is outside the model; the 3DSC estimator, which does not define a repeatable local reference frame (test/test_feature.cpp:1139), may be such a case.

/** The fake colours of the SHOT colour tests: point i of the cloud gets the
    packed word (i % 255) << 16 + ((255 - i) % 255) << 8 + (i * 37) % 255,
    evaluated in size_t arithmetic and stored into a 32-bit rgba field. */
module RgbaFixture {
  import opened Machine

  /** The red channel: i % 255. */
  function Red(i: SizeT): (r: nat)
    ensures r < 255
    ensures i < 255 ==> r == i
  {
    i % 255
  }

  /** The green channel: 255 - i wraps modulo 2^64 once i exceeds 255. */
  function Green(i: SizeT): (g: nat)
    ensures g < 255
  {
    ((255 - i) % SIZE_T_MODULUS) % 255
  }

  /** The blue channel: i * 37 wraps modulo 2^64 for very large i. */
  function Blue(i: SizeT): (b: nat)
    ensures b < 255
  {
    ((i * 37) % SIZE_T_MODULUS) % 255
  }

  /** The packed word: shifts and sum in size_t, then the store into uint32_t. */
  function Rgba(i: SizeT): (w: nat)
    ensures w < UINT32_MODULUS
  {
    var red := (Red(i) * 0x1_0000) % SIZE_T_MODULUS;
    var green := (Green(i) * 0x100) % SIZE_T_MODULUS;
    ((red + green + Blue(i)) % SIZE_T_MODULUS) % UINT32_MODULUS
  }

  /** Every channel is below 255, so the three never overlap: the word fits
      in 24 bits, the alpha byte is zero, and each channel can be read back
      from its own byte. */
  lemma RgbaLayout(i: SizeT)
    ensures Rgba(i) < 0x100_0000
    ensures Rgba(i) / 0x1_0000 == Red(i) == i % 255
    ensures (Rgba(i) / 0x100) % 0x100 == Green(i) < 255
    ensures Rgba(i) % 0x100 == Blue(i) < 255
  {
    var r, g, b := Red(i), Green(i), Blue(i);
    assert r < 255 && g < 255 && b < 255;
    SmallMod(r * 0x1_0000, SIZE_T_MODULUS);
    SmallMod(g * 0x100, SIZE_T_MODULUS);
    var w := r * 0x1_0000 + g * 0x100 + b;
    assert w < 0x100_0000;
    SmallMod(w, SIZE_T_MODULUS);
    SmallMod(w, UINT32_MODULUS);
    assert Rgba(i) == w;
    DivModBytes(r, g, b);
  }

  lemma SmallMod(v: int, m: int)
    requires 0 <= v < m
    ensures v % m == v
  {
  }

  /** Reading back three bytes packed as r * 2^16 + g * 2^8 + b. */
  lemma DivModBytes(r: nat, g: nat, b: nat)
    requires r < 0x100 && g < 0x100 && b < 0x100
    ensures (r * 0x1_0000 + g * 0x100 + b) / 0x1_0000 == r
    ensures ((r * 0x1_0000 + g * 0x100 + b) / 0x100) % 0x100 == g
    ensures (r * 0x1_0000 + g * 0x100 + b) % 0x100 == b
  {
    var w := r * 0x1_0000 + g * 0x100 + b;
    assert w == (r * 0x100 + g) * 0x100 + b;
    assert w / 0x100 == r * 0x100 + g;
    assert w == r * 0x1_0000 + (g * 0x100 + b) && g * 0x100 + b < 0x1_0000;
  }

  /** Up to i = 255 the green channel counts down: (255 - i) % 255. */
  lemma GreenBeforeWrap(i: SizeT)
    requires i <= 255
    ensures Green(i) == (255 - i) % 255
    ensures 0 < i ==> Green(i) == 255 - i
  {
  }

  /** Past i = 255 the subtraction wraps modulo 2^64, and since
      2^64 = 1 (mod 255) the channel is (256 - i) mod 255, one more than
      the mathematical (255 - i) mod 255. */
  lemma GreenAfterWrap(i: SizeT)
    requires 255 < i
    ensures Green(i) == (SIZE_T_MODULUS + 255 - i) % 255
    ensures Green(i) == (256 - i) % 255
    ensures Green(i) == ((255 - i) % 255 + 1) % 255
  {
    // 2^64 = 255 * 72340172838076673 + 1
    assert SIZE_T_MODULUS % 255 == 1;
  }

  /** Hence the countdown does not continue across the wrap: points 255 and
      256 both get green 0, and point 257 gets 254. */
  lemma GreenRepeatsAtWrap()
    ensures Green(255) == 0 && Green(256) == 0 && Green(257) == 254
  {
    GreenAfterWrap(256);
    GreenAfterWrap(257);
  }

  /** Blue is (37 i) mod 255 while 37 i fits in a size_t. */
  lemma BlueNoWrap(i: SizeT)
    requires i * 37 < SIZE_T_MODULUS
    ensures Blue(i) == (37 * i) % 255
  {
  }

  datatype PointXYZ<F> = PointXYZ(x: F, y: F, z: F)
  datatype PointXYZRGBA<F> = PointXYZRGBA(x: F, y: F, z: F, rgba: nat)

  /** The loop that builds the coloured copy of the test cloud: point i keeps
      its coordinates and gets the colour word of its position. */
  method ColourCloud<F>(cloud: seq<PointXYZ<F>>) returns (coloured: seq<PointXYZRGBA<F>>)
    requires |cloud| < SIZE_T_MODULUS
    ensures |coloured| == |cloud|
    ensures forall i :: 0 <= i < |cloud| ==>
      coloured[i] == PointXYZRGBA(cloud[i].x, cloud[i].y, cloud[i].z, Rgba(i))
  {
    coloured := [];
    for i := 0 to |cloud|
      invariant |coloured| == i
      invariant forall k :: 0 <= k < i ==>
        coloured[k] == PointXYZRGBA(cloud[k].x, cloud[k].y, cloud[k].z, Rgba(k))
    {
      var p := PointXYZRGBA(cloud[i].x, cloud[i].y, cloud[i].z, Rgba(i));
      coloured := coloured + [p];
    }
  }
}

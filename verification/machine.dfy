/** Fixed-width integer conversions that the test code performs implicitly. */
module Machine {

  /** 2^64: size_t, the type of every vector size and loop counter here. */
  const SIZE_T_MODULUS: nat := 0x1_0000_0000_0000_0000
  /** 2^32: uint32_t, the type of PointCloud::width, PointCloud::height and of an RGBA word. */
  const UINT32_MODULUS: nat := 0x1_0000_0000
  /** 2^31: the first value a 32-bit int cannot hold. */
  const INT32_BOUND: nat := 0x8000_0000

  type SizeT = i: nat | i < SIZE_T_MODULUS

  /** The value a size_t becomes when stored into an int (push_back into a
      vector<int>, or an assignment to one of its elements): two's complement
      wrap-around to 32 bits. */
  function SizeToInt(i: SizeT): (r: int)
    ensures -(INT32_BOUND as int) <= r < INT32_BOUND
    ensures (i - r) % UINT32_MODULUS == 0
    ensures i < INT32_BOUND ==> r == i
  {
    var w := i % UINT32_MODULUS;
    if w < INT32_BOUND then w else w - UINT32_MODULUS
  }

  /** The value a size_t becomes when stored into a uint32_t field. */
  function SizeToUint32(n: SizeT): (r: nat)
    ensures r < UINT32_MODULUS
    ensures (n - r) % UINT32_MODULUS == 0
    ensures n < UINT32_MODULUS ==> r == n
  {
    n % UINT32_MODULUS
  }
}

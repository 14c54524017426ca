/** Size and grain arithmetic of the metric-set heap. */
module HeapSizes {
  import opened HeapLayout

  const SIZE_T: nat := 0x1_0000_0000_0000_0000
  const UINT32: nat := 0x1_0000_0000

  /** The grain is kept in a 24-bit field. */
  const GRAIN_FIELD: nat := 0x100_0000

  /** Two 32-byte tree nodes. */
  const MM_FREE_SIZE: nat := 64
  const MM_ALLOC_SIZE: nat := 4
  const MIN_SIZE: nat := 512

  function Pow2(bits: nat): (p: nat)
    ensures 0 < p
  {
    if bits == 0 then 1 else 2 * Pow2(bits - 1)
  }

  function Shl(x: nat, bits: nat): nat {
    if bits == 0 then x else 2 * Shl(x, bits - 1)
  }

  function Shr(x: nat, bits: nat): nat {
    if bits == 0 then x else Shr(x / 2, bits - 1)
  }

  lemma {:induction false} ShlIsBytes(n: nat, bits: nat)
    ensures Shl(n, bits) == Bytes(n, Pow2(bits))
  {
    if bits == 0 {
      BytesIsProduct(n, 1);
    } else {
      ShlIsBytes(n, bits - 1);
      BytesDouble(n, Pow2(bits - 1));
    }
  }

  lemma {:induction false} BytesDouble(n: nat, grain: nat)
    ensures Bytes(n, 2 * grain) == 2 * Bytes(n, grain)
  {
    if n > 0 {
      BytesDouble(n - 1, grain);
    }
  }

  /** Clearing the low bits loses less than a grain. */
  lemma {:induction false} ClearLowBits(x: nat, bits: nat)
    ensures Shl(Shr(x, bits), bits) <= x < Shl(Shr(x, bits), bits) + Pow2(bits)
  {
    if bits > 0 {
      ClearLowBits(x / 2, bits - 1);
      ShlOut(Shr(x / 2, bits - 1), bits - 1);
    }
  }

  lemma {:induction false} ShlOut(x: nat, bits: nat)
    ensures Shl(2 * x, bits) == 2 * Shl(x, bits)
  {
    if bits > 0 {
      ShlOut(x, bits - 1);
    }
  }

  /** Rounding up with a mask: add all low bits, then clear them, in size_t arithmetic. */
  function RoundUp(s: nat, bits: nat): nat {
    Shl(Shr((s + Pow2(bits) - 1) % SIZE_T, bits), bits)
  }

  /** Heap bytes taken by a request: its prefix is added and at least a free header must fit. */
  function AllocSize(bits: nat, size: nat): nat {
    var need := (size + MM_ALLOC_SIZE) % SIZE_T;
    RoundUp(if need < MM_FREE_SIZE then MM_FREE_SIZE else need, bits)
  }

  function Grains(bits: nat, size: nat): nat {
    Shr(AllocSize(bits, size), bits)
  }

  /** The request does not run over the end of size_t once prefix and rounding are added. */
  predicate NoWrap(bits: nat, size: nat) {
    size + MM_ALLOC_SIZE + Pow2(bits) <= SIZE_T
  }

  lemma {:induction false} ShrShl(n: nat, bits: nat)
    ensures Shr(Shl(n, bits), bits) == n
  {
    if bits > 0 {
      ShrShl(n, bits - 1);
    }
  }

  /** A block holds the request and its prefix, and wastes less than a grain beyond the minimum. */
  lemma BlockHoldsRequest(bits: nat, size: nat)
    requires MM_FREE_SIZE <= Pow2(bits) < GRAIN_FIELD && NoWrap(bits, size)
    ensures var block := Bytes(Grains(bits, size), Pow2(bits));
            && block == AllocSize(bits, size)
            && size + MM_ALLOC_SIZE <= block
            && (block < size + MM_ALLOC_SIZE + Pow2(bits) || block == Pow2(bits))
    ensures 0 < Grains(bits, size)
  {
    var p, need := Pow2(bits), if size + MM_ALLOC_SIZE < MM_FREE_SIZE then MM_FREE_SIZE else size + MM_ALLOC_SIZE;
    var n := Shr(need + p - 1, bits);
    assert AllocSize(bits, size) == Shl(n, bits) by {
      assert (need + p - 1) % SIZE_T == need + p - 1;
    }
    ClearLowBits(need + p - 1, bits);
    ShrShl(n, bits);
    ShlIsBytes(n, bits);
    BytesOrder(0, n, p);
    if need == MM_FREE_SIZE {
      BytesOrder(n, 2, p);
      assert Bytes(2, p) == Bytes(1, p) + p && Bytes(1, p) == p;
    }
  }

  /** The block size covers request and prefix exactly when nothing wraps. */
  lemma CoversIffNoWrap(bits: nat, size: nat)
    requires MM_FREE_SIZE <= Pow2(bits) < GRAIN_FIELD && size < SIZE_T
    ensures size + MM_ALLOC_SIZE <= AllocSize(bits, size) <==> NoWrap(bits, size)
  {
    if NoWrap(bits, size) {
      BlockHoldsRequest(bits, size);
    } else {
      var wrapped := (size + MM_ALLOC_SIZE) % SIZE_T;
      var need := if wrapped < MM_FREE_SIZE then MM_FREE_SIZE else wrapped;
      ClearLowBits((need + Pow2(bits) - 1) % SIZE_T, bits);
    }
  }

  /** The largest request, whose size wraps, is given a single grain. */
  lemma LargestRequestWraps()
    ensures AllocSize(6, SIZE_T - 1) == 64
  {
    assert Pow2(3) == 8 && Pow2(6) == 64;
    assert Shr(127, 6) == Shr(31, 4) == Shr(7, 2) == 1;
    assert Shl(1, 3) == 8 && Shl(1, 6) == 64;
  }

  /** Rounding a multiple of 2^k down leaves it as it is or takes away at least 2^k. */
  lemma {:induction false} RoundDownTakes(y: nat, bits: nat, k: nat)
    ensures var x := Shl(y, k); Shl(Shr(x, bits), bits) == x || Shl(Shr(x, bits), bits) + Pow2(k) <= x
  {
    if bits > 0 && k > 0 {
      RoundDownTakes(y, bits - 1, k - 1);
    } else {
      ClearLowBits(Shl(y, k), bits);
    }
  }

  function GrainSize(grain: nat): nat {
    if grain > MM_FREE_SIZE then grain else MM_FREE_SIZE
  }

  /** The heap size: the requested size rounded up to a multiple of 512. */
  function HeapSize(size: nat): nat { RoundUp(size, 9) }

  /** The heap is the first multiple of 512 that is at least as large as what was asked for. */
  lemma HeapSizeIs(size: nat)
    requires size + MIN_SIZE <= SIZE_T
    ensures size <= HeapSize(size) < size + MIN_SIZE && HeapSize(size) % MIN_SIZE == 0
  {
    assert Pow2(3) == 8 && Pow2(6) == 64 && Pow2(9) == 512;
    var n := Shr(size + 511, 9);
    ClearLowBits(size + 511, 9);
    ShlIsBytes(n, 9);
    BytesIsProduct(n, 512);
  }

  lemma GrainIsLeast(grain: nat, bits: nat, b: nat)
    requires bits == LeastBits(GrainSize(grain)) && MM_FREE_SIZE <= Pow2(b) && grain <= Pow2(b)
    ensures bits <= b
  {
    if b < bits - 1 {
      Pow2Order(b, bits - 1);
    }
  }

  /** The exponent of the least power of two that is at least `n`. */
  function LeastBits(n: nat): (b: nat)
    ensures n <= Pow2(b) && (b == 0 || Pow2(b - 1) < n)
  {
    if n <= 1 then 0 else 1 + LeastBits((n + 1) / 2)
  }

  lemma {:induction false} Pow2Order(a: nat, b: nat)
    requires a < b
    ensures 2 * Pow2(a) <= Pow2(b)
  {
    if a + 1 < b {
      Pow2Order(a, b - 1);
    }
  }

  lemma LeastBitsUnique(n: nat, b: nat)
    requires n <= Pow2(b) && (b == 0 || Pow2(b - 1) < n)
    ensures b == LeastBits(n)
  {
    var c := LeastBits(n);
    if c + 1 < b {
      Pow2Order(c, b - 1);
    } else if b + 1 < c {
      Pow2Order(b, c - 1);
    }
  }

  lemma SomeGrains(size: nat, bits: nat)
    requires Pow2(bits) <= size
    ensures 0 < Shr(size, bits)
  {
    ClearLowBits(size, bits);
    ShlIsBytes(Shr(size, bits), bits);
  }
}

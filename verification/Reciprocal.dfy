/**
 Division by an object size as a multiplication: block headers hold the reciprocal of the size,
 with which the marker finds the object that an interior pointer belongs to.
 */
module Reciprocal {
  import opened Arithmetic

  const TWO_16: nat := 0x1_0000
  const TWO_32: nat := 0x1_0000_0000
  const MAXOBJBYTES: nat := 2048
  /** The largest block of heap for which the marker's formulas are accurate enough. */
  const MAX_HBLKSIZE: nat := 0x8000
  const LARGE_INV_SZ: nat := TWO_16

  /** The least number whose product with `sz` is not below 2 to the 32nd. */
  ghost predicate IsLeastInverse(sz: nat, inv: nat) {
    sz * inv >= TWO_32 && forall v: nat :: sz * v >= TWO_32 ==> inv <= v
  }

  /** It is enough to look at the number just below. */
  lemma LeastIfOneLessIsShort(sz: nat, inv: nat)
    requires sz > 0 && inv > 0 && sz * inv >= TWO_32 > sz * (inv - 1)
    ensures IsLeastInverse(sz, inv)
  {
    forall v: nat | sz * v >= TWO_32 ensures inv <= v {
      if v < inv {
        MulMonotone(sz, v, inv - 1);
      }
    }
  }

  lemma InverseFits(sz: nat, inv: nat)
    requires sz >= 2 && inv > 0 && sz * (inv - 1) < TWO_32
    ensures inv < TWO_32
  {
    MulMonotone(inv - 1, 2, sz);
    assert 2 * (inv - 1) < TWO_32;
  }

  /** `hb_inv_sz` on machines with 64-bit words. */
  method Inverse64(sz: nat) returns (inv: nat)
    requires 2 <= sz <= MAXOBJBYTES
    ensures IsLeastInverse(sz, inv) && inv < TWO_32
  {
    inv := TWO_32 / sz;
    QuotientBounds(TWO_32, sz);
    MulMonotone(sz, 0, inv);
    if inv * sz / TWO_32 == 0 {
      inv := inv + 1;
    }
    LeastIfOneLessIsShort(sz, inv);
    InverseFits(sz, inv);
  }

  /** `hb_inv_sz` on machines with 32-bit words: products wrap around. */
  method Inverse32(sz: nat) returns (inv: nat)
    requires 4 <= sz <= MAXOBJBYTES
    ensures IsLeastInverse(sz, inv) && inv < TWO_32
  {
    inv := TWO_32 / 2 / sz;
    QuotientBounds(TWO_32 / 2, sz);
    inv := inv * 2;
    StartsJustBelow(sz, inv);
    while (inv * sz) % TWO_32 > sz
      invariant TWO_32 - 2 * sz < sz * inv < TWO_32 + sz
      invariant sz * inv >= TWO_32 ==> sz * inv - sz < TWO_32
      decreases TWO_32 + sz - sz * inv
    {
      MulOneMore(sz, inv);
      inv := inv + 1;
    }
    MulOneMore(sz, inv - 1);
    LeastIfOneLessIsShort(sz, inv);
    InverseFits(sz, inv);
  }

  lemma StartsJustBelow(sz: nat, inv: nat)
    requires 4 <= sz <= MAXOBJBYTES && inv == TWO_32 / 2 / sz * 2
    ensures TWO_32 - 2 * sz < sz * inv <= TWO_32 && inv > 0
  {
    var q := TWO_32 / 2 / sz;
    QuotientBounds(TWO_32 / 2, sz);
    assert sz * inv == 2 * (q * sz);
  }

  lemma MulOneMore(a: nat, b: nat)
    ensures a * (b + 1) == a * b + a
  {
  }

  // -----------------------------------------------------------------------------------
  // What the reciprocal is good for
  // -----------------------------------------------------------------------------------

  /** The product of an offset and the reciprocal: the quotient above, and what the remainder makes of it below. */
  lemma ProductSplits(sz: nat, inv: nat, displ: nat, k: nat, d: nat, r: nat)
    requires sz * inv == TWO_32 + r && displ == k * sz + d
    ensures displ * inv == k * TWO_32 + (k * r + d * inv)
  {
    assert (k * sz + d) * inv == k * (sz * inv) + d * inv;
    assert k * (TWO_32 + r) == k * TWO_32 + k * r;
  }

  lemma LeastIsClose(sz: nat, inv: nat)
    requires 2 <= sz <= MAXOBJBYTES && IsLeastInverse(sz, inv)
    ensures inv > 0 && TWO_32 <= sz * inv < TWO_32 + sz && inv >= TWO_32 / MAXOBJBYTES
  {
    assert inv == 0 ==> sz * inv == 0;
    MulOneMore(sz, inv - 1);
    assert sz * (inv - 1) < TWO_32;
    InverseIsLarge(sz, inv);
  }

  lemma InverseIsLarge(sz: nat, inv: nat)
    requires sz <= MAXOBJBYTES && sz * inv >= TWO_32
    ensures inv >= TWO_32 / MAXOBJBYTES
  {
    MulMonotone(inv, sz, MAXOBJBYTES);
    assert MAXOBJBYTES * inv >= TWO_32;
  }

  /** Bounds of the lower half of the product. */
  lemma LowPart(sz: nat, inv: nat, displ: nat, k: nat, d: nat, r: nat)
    requires 2 <= sz <= MAXOBJBYTES && sz * inv == TWO_32 + r && r < sz && inv >= TWO_32 / MAXOBJBYTES
    requires displ == k * sz + d && d < sz && displ < MAX_HBLKSIZE
    ensures k * r <= displ && k * r + d * inv < TWO_32
    ensures d > 0 ==> d * inv >= inv
  {
    MulMonotone(k, r, sz);
    assert k * r <= k * sz;
    MulMonotone(inv, d, sz - 1);
    assert inv * (sz - 1) == sz * inv - inv;
    assert d * inv <= TWO_32 + r - inv;
    if d > 0 {
      MulMonotone(inv, 1, d);
    }
  }

  /** The two halves of the product, given the quotient and the remainder. */
  lemma ProductHalves(sz: nat, inv: nat, displ: nat, k: nat, d: nat, r: nat)
    requires 2 <= sz <= MAXOBJBYTES && IsLeastInverse(sz, inv) && displ < MAX_HBLKSIZE
    requires displ == k * sz + d && d < sz && sz * inv == TWO_32 + r
    ensures displ * inv / TWO_32 == k && displ * inv % TWO_32 == k * r + d * inv
    ensures r < sz && k * r <= displ && (d > 0 ==> d * inv >= inv) && inv >= TWO_32 / MAXOBJBYTES
  {
    hide IsLeastInverse;
    LeastIsClose(sz, inv);
    ProductSplits(sz, inv, displ, k, d, r);
    LowPart(sz, inv, displ, k, d, r);
    UpperAndLower(displ * inv, k, k * r + d * inv);
  }

  lemma UpperAndLower(product: nat, upper: nat, lower: nat)
    requires product == upper * TWO_32 + lower && lower < TWO_32
    ensures product / TWO_32 == upper && product % TWO_32 == lower
  {
  }

  /** Multiplying and shifting is dividing, for every offset inside a heap block. */
  lemma MultiplyThenShift(sz: nat, inv: nat, displ: nat)
    requires 2 <= sz <= MAXOBJBYTES && IsLeastInverse(sz, inv) && displ < MAX_HBLKSIZE
    ensures displ * inv / TWO_32 == displ / sz
  {
    Remainder(displ, sz);
    ProductHalves(sz, inv, displ, displ / sz, displ % sz, sz * inv - TWO_32);
  }

  /** The marker's test for a pointer to the start of an object, and its formula for the offset in the object. */
  lemma OffsetFromLowProduct(sz: nat, inv: nat, displ: nat)
    requires 2 <= sz <= MAXOBJBYTES && IsLeastInverse(sz, inv) && displ < MAX_HBLKSIZE
    ensures var low := displ * inv % TWO_32;
      && (low / TWO_16 != 0 <==> displ % sz != 0)
      && (low / TWO_16 != 0 ==> (low / TWO_16 + 1) * sz / TWO_16 == displ % sz)
  {
    Remainder(displ, sz);
    OffsetOf(sz, inv, displ, displ / sz, displ % sz);
  }

  lemma OffsetOf(sz: nat, inv: nat, displ: nat, k: nat, d: nat)
    requires 2 <= sz <= MAXOBJBYTES && IsLeastInverse(sz, inv) && displ < MAX_HBLKSIZE
    requires displ == k * sz + d && d < sz
    ensures var low := displ * inv % TWO_32;
      && (low / TWO_16 != 0 <==> d != 0)
      && (d != 0 ==> (low / TWO_16 + 1) * sz / TWO_16 == d)
  {
    var r := sz * inv - TWO_32;
    ProductHalves(sz, inv, displ, k, d, r);
    if d > 0 {
      OffsetBounds(sz, inv, displ, k, d, r, k * r + d * inv);
    }
  }

  /** The lower half times the size is the remainder times 2 to the 32nd, and little more. */
  lemma LowTimesSize(sz: nat, inv: nat, displ: nat, k: nat, d: nat, r: nat, low: nat)
    requires sz * inv == TWO_32 + r && displ == k * sz + d && low == k * r + d * inv
    ensures sz * low == d * TWO_32 + r * displ
  {
    calc {
      sz * low;
      sz * (k * r) + sz * (d * inv);
      { assert sz * (d * inv) == d * (sz * inv); }
      sz * (k * r) + d * (TWO_32 + r);
      { assert d * (TWO_32 + r) == d * TWO_32 + d * r; }
      sz * (k * r) + d * TWO_32 + d * r;
      { assert sz * (k * r) + d * r == r * (k * sz + d) by {
          assert sz * (k * r) == r * (k * sz);
        } }
      d * TWO_32 + r * displ;
    }
  }

  lemma OffsetBounds(sz: nat, inv: nat, displ: nat, k: nat, d: nat, r: nat, low: nat)
    requires 2 <= sz <= MAXOBJBYTES && sz * inv == TWO_32 + r && r < sz
    requires displ == k * sz + d && d < sz && displ < MAX_HBLKSIZE && low == k * r + d * inv
    ensures (low / TWO_16 + 1) * sz / TWO_16 == d
  {
    LowTimesSize(sz, inv, displ, k, d, r, low);
    RestIsSmall(r, displ);
    HighPart(sz, d, low, r * displ);
  }

  /** Rounding the lower half up to its upper 16 bits loses too little to reach the next offset. */
  lemma HighPart(sz: nat, d: nat, low: nat, rest: nat)
    requires 2 <= sz <= MAXOBJBYTES && sz * low == d * TWO_32 + rest && rest < 0x400_0000
    ensures (low / TWO_16 + 1) * sz / TWO_16 == d
  {
    var h := low / TWO_16 + 1;
    var p := sz * h;
    MulMonotone(sz, low, h * TWO_16);
    assert sz * (h * TWO_16) == p * TWO_16;
    MulMonotone(sz, (h - 1) * TWO_16, low);
    assert sz * ((h - 1) * TWO_16) == p * TWO_16 - sz * TWO_16;
    assert d * TWO_16 <= p < d * TWO_16 + TWO_16;
    QuotientIs(p, TWO_16, d);
  }

  lemma RestIsSmall(r: nat, displ: nat)
    requires r < MAXOBJBYTES && displ < MAX_HBLKSIZE
    ensures r * displ < 0x400_0000
  {
    MulMonotone(r, displ, MAX_HBLKSIZE - 1);
    MulMonotone(MAX_HBLKSIZE - 1, r, MAXOBJBYTES - 1);
  }

  /** The mark of large blocks is no reciprocal. */
  lemma LargeIsNoInverse(sz: nat, inv: nat)
    requires 2 <= sz <= MAXOBJBYTES && IsLeastInverse(sz, inv)
    ensures inv != LARGE_INV_SZ
  {
    LeastIsClose(sz, inv);
  }
}

/** Bit fields of the Landsat Collection 2 `QA_PIXEL` word and the per-pixel
    cloud mask built from them (landsat_collection.py, `bitwise_extract` and
    `cloud_mask_lsat_sr`).

    Integers are unbounded and read in two's complement: Dafny's `/` and `%`
    by a positive divisor are floor division and a non-negative remainder,
    which is what an arithmetic right shift and a non-negative mask give.
 */
module QaBits {

  datatype Option<T> = None | Some(value: T)

  function Pow2(n: nat): (r: nat)
    ensures r >= 1
  {
    if n == 0 then 1 else 2 * Pow2(n - 1)
  }

  /** Bit `i` of `v`. */
  function Bit(v: int, i: nat): int {
    (v / Pow2(i)) % 2
  }

  /** `v.rightShift(n)`: an arithmetic shift, one bit at a time. */
  function ShiftRight(v: int, n: nat): int
    decreases n
  {
    if n == 0 then v else ShiftRight(v / 2, n - 1)
  }

  /** `v.leftShift(n)`. */
  function LeftShift(v: int, n: nat): (r: int)
    ensures r == v * Pow2(n)
    decreases n
  {
    if n == 0 then v else LeftShift(2 * v, n - 1)
  }

  /** `a.bitwiseAnd(m)` for a non-negative `m`, bit by bit from the lowest. */
  function BitAnd(a: int, m: nat): (r: nat)
    ensures r <= m
    decreases m
  {
    if m == 0 then 0 else 2 * BitAnd(a / 2, m / 2) + (a % 2) * (m % 2)
  }

  /** `if not to_bit: to_bit = from_bit`: a missing or zero `to_bit` is falsy. */
  function ResolveToBit(fromBit: nat, toBit: Option<nat>): nat {
    if toBit.None? || toBit.value == 0 then fromBit else toBit.value
  }

  /** `1 + to_bit - from_bit`, the number of bits extracted. */
  function MaskSize(fromBit: nat, toBit: Option<nat>): int {
    1 + ResolveToBit(fromBit, toBit) - fromBit
  }

  /** `bitwise_extract(value, from_bit, to_bit)`. */
  function BitwiseExtract(v: int, fromBit: nat, toBit: Option<nat>): (r: nat)
    requires MaskSize(fromBit, toBit) >= 0
    ensures r < Pow2(MaskSize(fromBit, toBit))
  {
    var maskSize: nat := MaskSize(fromBit, toBit);
    var mask := LeftShift(1, maskSize) - 1;
    BitAnd(ShiftRight(v, fromBit), mask)
  }

  // ---------------------------------------------------------------------
  // Arithmetic helpers

  lemma DivUnique(v: int, d: int, q: int, r: int)
    requires d > 0 && v == d * q + r && 0 <= r < d
    ensures v / d == q && v % d == r
  {
    var q', r' := v / d, v % d;
    assert v == d * q' + r' && 0 <= r' < d;
    if q' > q {
      assert d * q' >= d * (q + 1) by { MulMono(d, q + 1, q'); }
    } else if q' < q {
      assert d * q >= d * (q' + 1) by { MulMono(d, q' + 1, q); }
    }
  }

  lemma MulMono(d: int, a: int, b: int)
    requires d > 0 && a <= b
    ensures d * a <= d * b
  {
  }

  lemma Pow2Add(a: nat, b: nat)
    ensures Pow2(a + b) == Pow2(a) * Pow2(b)
    decreases a
  {
    if a > 0 {
      Pow2Add(a - 1, b);
    }
  }

  /** `a (b q + r) = (a b) q + a r`. */
  lemma ScaleSum(a: int, b: int, q: int, r: int)
    ensures a * (b * q + r) == (a * b) * q + a * r
  {
  }

  /** `0 <= a r2 + r < a b` when `0 <= r < a` and `0 <= r2 < b`. */
  lemma MixedRemainderBound(a: int, b: int, r: int, r2: int)
    requires a > 0 && b > 0 && 0 <= r < a && 0 <= r2 < b
    ensures 0 <= a * r2 + r < a * b
  {
    MulMono(a, r2, b - 1);
    assert a * (b - 1) == a * b - a;
  }

  /** Dividing twice is dividing by the product. */
  lemma {:induction false} DivDiv(v: int, a: int, b: int)
    requires a > 0 && b > 0
    ensures (v / a) / b == v / (a * b)
  {
    var q, r := v / a, v % a;
    var q2, r2 := q / b, q % b;
    var ab := a * b;
    assert v == a * q + r;
    assert q == b * q2 + r2;
    ScaleSum(a, b, q2, r2);
    assert v == ab * q2 + (a * r2 + r);
    MixedRemainderBound(a, b, r, r2);
    assert ab > 0 by { MulMono(a, 1, b); }
    DivUnique(v, ab, q2, a * r2 + r);
  }

  /** The low `k + 1` bits of `a` are its low bit below the low `k` bits of `a / 2`. */
  lemma {:induction false} ModSplit(a: int, k: nat)
    ensures a % Pow2(k + 1) == 2 * ((a / 2) % Pow2(k)) + a % 2
  {
    var p := Pow2(k);
    var h, a0 := a / 2, a % 2;
    var q, r := h / p, h % p;
    assert a == 2 * h + a0;
    assert h == p * q + r;
    assert a == (2 * p) * q + (2 * r + a0);
    DivUnique(a, 2 * p, q, 2 * r + a0);
  }

  /** Bit `i + 1` of `a` is bit `i` of `a / 2`. */
  lemma BitOfHalf(a: int, i: nat)
    ensures Bit(a, i + 1) == Bit(a / 2, i)
  {
    DivDiv(a, 2, Pow2(i));
  }

  /** Bit `i` of `v / 2^f` is bit `f + i` of `v`. */
  lemma BitOfShifted(v: int, f: nat, i: nat)
    ensures Bit(v / Pow2(f), i) == Bit(v, f + i)
  {
    DivDiv(v, Pow2(f), Pow2(i));
    Pow2Add(f, i);
  }

  // ---------------------------------------------------------------------
  // What the shift and the mask compute

  /** The shift one bit at a time is floor division by `2^n`. */
  lemma {:induction false} ShiftRightIsFloorDiv(v: int, n: nat)
    ensures ShiftRight(v, n) == v / Pow2(n)
    decreases n
  {
    if n > 0 {
      ShiftRightIsFloorDiv(v / 2, n - 1);
      DivDiv(v, 2, Pow2(n - 1));
    }
  }

  /** And-ing with an odd mask keeps the low bit below the and of the halves. */
  lemma BitAndOddMask(a: int, q: nat)
    ensures BitAnd(a, 2 * q + 1) == 2 * BitAnd(a / 2, q) + a % 2
  {
    DivUnique(2 * q + 1, 2, q, 1);
  }

  /** And-ing with `2^k - 1` keeps the remainder modulo `2^k`. */
  lemma {:induction false} BitAndLowMaskIsMod(a: int, k: nat)
    ensures BitAnd(a, Pow2(k) - 1) == a % Pow2(k)
    decreases k
  {
    if k > 0 {
      var p := Pow2(k - 1);
      var m := Pow2(k) - 1;
      assert m == 2 * (p - 1) + 1;
      var h := a / 2;
      var low := BitAnd(h, p - 1);
      BitAndLowMaskIsMod(h, k - 1);
      assert low == h % p;
      BitAndOddMask(a, p - 1);
      var whole := BitAnd(a, m);
      assert whole == 2 * low + a % 2;
      ModSplit(a, k - 1);
      var rem := a % Pow2(k);
      assert rem == 2 * (h % p) + a % 2;
      assert whole == rem;
    }
  }

  /** Two integers leave the same remainder modulo `2^k` exactly when their
      low `k` bits agree. */
  lemma {:induction false} LowBitsAgree(a: int, b: int, k: nat)
    ensures a % Pow2(k) == b % Pow2(k) <==> forall i :: 0 <= i < k ==> Bit(a, i) == Bit(b, i)
    decreases k
  {
    if k > 0 {
      LowBitsAgree(a / 2, b / 2, k - 1);
      ModSplit(a, k - 1);
      ModSplit(b, k - 1);
      assert Bit(a, 0) == a % 2 && Bit(b, 0) == b % 2;
      forall i | 0 <= i < k - 1
        ensures Bit(a, i + 1) == Bit(a / 2, i) && Bit(b, i + 1) == Bit(b / 2, i)
      {
        BitOfHalf(a, i);
        BitOfHalf(b, i);
      }
      if forall i :: 0 <= i < k ==> Bit(a, i) == Bit(b, i) {
        assert a % 2 == b % 2;
        assert forall i :: 0 <= i < k - 1 ==> Bit(a / 2, i) == Bit(b / 2, i) by {
          forall i | 0 <= i < k - 1 ensures Bit(a / 2, i) == Bit(b / 2, i) {
            assert Bit(a, i + 1) == Bit(b, i + 1);
          }
        }
      }
      if a % Pow2(k) == b % Pow2(k) {
        assert a % 2 == b % 2;
        assert (a / 2) % Pow2(k - 1) == (b / 2) % Pow2(k - 1);
        forall i | 0 <= i < k ensures Bit(a, i) == Bit(b, i) {
          if i > 0 {
            assert Bit(a / 2, i - 1) == Bit(b / 2, i - 1);
          }
        }
      }
    }
  }

  // ---------------------------------------------------------------------
  // Properties of `bitwise_extract`

  /** Right shift, then a mask of `to - from + 1` ones: the field read as
      `floor(v / 2^from) mod 2^size`, which lies in `[0, 2^size)`. */
  lemma ExtractIsFloorMod(v: int, fromBit: nat, toBit: Option<nat>)
    requires MaskSize(fromBit, toBit) >= 0
    ensures BitwiseExtract(v, fromBit, toBit) == (v / Pow2(fromBit)) % Pow2(MaskSize(fromBit, toBit))
    ensures 0 <= BitwiseExtract(v, fromBit, toBit) < Pow2(MaskSize(fromBit, toBit))
  {
    var size: nat := MaskSize(fromBit, toBit);
    ShiftRightIsFloorDiv(v, fromBit);
    BitAndLowMaskIsMod(ShiftRight(v, fromBit), size);
  }

  /** Without a (truthy) `to_bit`, exactly bit `from_bit` is read. */
  lemma ExtractSingleBit(v: int, fromBit: nat, toBit: Option<nat>)
    requires toBit.None? || toBit.value == 0
    ensures MaskSize(fromBit, toBit) == 1
    ensures BitwiseExtract(v, fromBit, toBit) == Bit(v, fromBit)
    ensures BitwiseExtract(v, fromBit, toBit) in {0, 1}
  {
    ExtractIsFloorMod(v, fromBit, toBit);
  }

  /** Two words give the same field exactly when they agree on bits
      `from .. to`; every other bit is ignored. */
  lemma ExtractDependsOnlyOnField(v: int, w: int, fromBit: nat, toBit: Option<nat>)
    requires MaskSize(fromBit, toBit) >= 0
    ensures BitwiseExtract(v, fromBit, toBit) == BitwiseExtract(w, fromBit, toBit)
        <==> forall i :: fromBit <= i < fromBit + MaskSize(fromBit, toBit) ==> Bit(v, i) == Bit(w, i)
  {
    var size: nat := MaskSize(fromBit, toBit);
    ExtractIsFloorMod(v, fromBit, toBit);
    ExtractIsFloorMod(w, fromBit, toBit);
    LowBitsAgree(v / Pow2(fromBit), w / Pow2(fromBit), size);
    forall j | 0 <= j < size
      ensures Bit(v / Pow2(fromBit), j) == Bit(v, fromBit + j)
      ensures Bit(w / Pow2(fromBit), j) == Bit(w, fromBit + j)
    {
      BitOfShifted(v, fromBit, j);
      BitOfShifted(w, fromBit, j);
    }
    if forall i :: fromBit <= i < fromBit + size ==> Bit(v, i) == Bit(w, i) {
      forall j | 0 <= j < size
        ensures Bit(v / Pow2(fromBit), j) == Bit(w / Pow2(fromBit), j)
      {
        assert Bit(v, fromBit + j) == Bit(w, fromBit + j);
      }
    }
    if BitwiseExtract(v, fromBit, toBit) == BitwiseExtract(w, fromBit, toBit) {
      forall i | fromBit <= i < fromBit + size ensures Bit(v, i) == Bit(w, i) {
        assert Bit(v / Pow2(fromBit), i - fromBit) == Bit(w / Pow2(fromBit), i - fromBit);
      }
    }
  }

  // ---------------------------------------------------------------------
  // The per-pixel cloud mask

  const CLOUD_SHADOW_BIT: nat := 4
  const SNOW_BIT: nat := 5
  /** Bit 6 of `QA_PIXEL`; the source names the value derived from it `cloud`. */
  const CLEAR_BIT: nat := 6

  /** The server's `.Not()`: 1 where the value is zero, 0 elsewhere. */
  function Not(x: int): int {
    if x == 0 then 1 else 0
  }

  /** The server's `.And()`: 1 where both values are non-zero, 0 elsewhere. */
  function And(x: int, y: int): int {
    if x != 0 && y != 0 then 1 else 0
  }

  /** The mask that `cloud_mask_lsat_sr` hands to `updateMask` for one pixel. */
  function CloudMask(qa: int): (r: int)
    ensures r == 0 || r == 1
  {
    var cloudShadow := BitwiseExtract(qa, CLOUD_SHADOW_BIT, None);
    var snow := BitwiseExtract(qa, SNOW_BIT, None);
    var cloud := Not(BitwiseExtract(qa, CLEAR_BIT, None));
    And(And(Not(cloudShadow), Not(snow)), Not(cloud))
  }

  /** A pixel is kept iff bits 4 and 5 are 0 and bit 6 is 1; the mask is 0 or 1. */
  lemma CloudMaskKeepsIff(qa: int)
    ensures CloudMask(qa) in {0, 1}
    ensures CloudMask(qa) == 1 <==>
      Bit(qa, CLOUD_SHADOW_BIT) == 0 && Bit(qa, SNOW_BIT) == 0 && Bit(qa, CLEAR_BIT) == 1
  {
    ExtractSingleBit(qa, CLOUD_SHADOW_BIT, None);
    ExtractSingleBit(qa, SNOW_BIT, None);
    ExtractSingleBit(qa, CLEAR_BIT, None);
  }

  /** The `.Not()` applied when `cloud` is built and the one applied when it is
      used cancel: the last factor of the mask is bit 6 itself. */
  lemma CloudDoubleNegationCancels(qa: int)
    ensures Not(Not(BitwiseExtract(qa, CLEAR_BIT, None))) == Bit(qa, CLEAR_BIT)
  {
    ExtractSingleBit(qa, CLEAR_BIT, None);
  }

  /** Bits other than 4, 5 and 6 (the water bit 7 among them) never change the decision. */
  lemma CloudMaskIgnoresOtherBits(qa: int, qa': int)
    requires Bit(qa, CLOUD_SHADOW_BIT) == Bit(qa', CLOUD_SHADOW_BIT)
    requires Bit(qa, SNOW_BIT) == Bit(qa', SNOW_BIT)
    requires Bit(qa, CLEAR_BIT) == Bit(qa', CLEAR_BIT)
    ensures CloudMask(qa) == CloudMask(qa')
  {
    CloudMaskKeepsIff(qa);
    CloudMaskKeepsIff(qa');
  }
}

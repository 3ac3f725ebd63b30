/** Proof-of-work targets in 32 bits (src/pow.rs): decoding, the encoding loop, and what a round
    trip keeps. Shifts and masks are written as products, quotients and remainders. */
module Compact {
  import opened Arithmetic
  import opened Types
  import opened Endian

  const BIT_23: nat := 0x80_0000
  const BIT_24: nat := 0x100_0000

  /** BlindHash::target_from_bits. A left shift drops what leaves u128. */
  function TargetFromBits(bits: u32): u128 {
    var exponent, mantissa := bits / BIT_24, bits % BIT_23;
    if exponent <= 3 then Quot(mantissa, Pow256(3 - exponent))
    else if exponent - 3 >= 16 then U128_LIMIT - 1
    else mantissa * Pow256(exponent - 3) % U128_LIMIT
  }

  /** `u128::from_le_bytes(hash[0..16])`: the leading half of a digest, read the other way round. */
  function HashValue(digest: Digest): u128 {
    var leading := ToBe(digest, 32)[..16];
    Widths();
    FromLeBound(leading);
    FromLe(leading)
  }

  /** How many bytes a number takes: the loop over `tmp`. */
  function ByteSize(n: nat): nat {
    if n == 0 then 0 else 1 + ByteSize(n / 256)
  }

  /** The three leading bytes of a target. */
  function Leading(target: nat): nat {
    var size := ByteSize(target);
    if size <= 3 then target * Pow256(3 - size) else Quot(target, Pow256(size - 3))
  }

  /** What bits_from_target returns for a target other than zero. */
  function EncodePositive(target: nat): nat {
    var size, compact := ByteSize(target), Leading(target);
    if compact / BIT_23 % 2 != 0 then (size + 1) * BIT_24 + compact / 256 % BIT_23
    else size * BIT_24 + compact % BIT_23
  }

  /** BlindHash::bits_from_target */
  function BitsFromTarget(target: u128): u32 {
    if target == 0 then 0x01000001
    else
      EncodesNormal(target);
      EncodePositive(target)
  }

  method BitsFromTargetLoop(target: u128) returns (bits: u32)
    ensures bits == BitsFromTarget(target)
  {
    if target == 0 {
      return 0x01000001;
    }
    var size, tmp := 0, target;
    while tmp > 0
      invariant size + ByteSize(tmp) == ByteSize(target)
    {
      size := size + 1;
      tmp := tmp / 256;
    }
    EncodesNormal(target);
    var compact := if size <= 3 then target * Pow256(3 - size) else Quot(target, Pow256(size - 3));
    if compact / BIT_23 % 2 != 0 {
      compact := compact / 256;
      size := size + 1;
    }
    bits := size * BIT_24 + compact % BIT_23;
  }

  // ---------- The encoding as a floating-point number ----------

  /** The least target that is encoded with a given exponent. */
  function Lower(exponent: nat): nat {
    if exponent <= 1 then exponent else 128 * Pow256(exponent - 2)
  }

  /** `target` is encoded with this exponent. */
  predicate Fits(target: nat, exponent: nat) {
    exponent >= 1 && Lower(exponent) <= target < Lower(exponent + 1)
  }

  function Mantissa(target: nat, exponent: nat): nat {
    if exponent <= 3 then target * Pow256(3 - exponent) else Quot(target, Pow256(exponent - 3))
  }

  lemma {:induction false} ByteSizeBounds(n: nat)
    requires n > 0
    ensures ByteSize(n) > 0 && Pow256(ByteSize(n) - 1) <= n < Pow256(ByteSize(n))
  {
    if n >= 256 {
      ByteSizeBounds(n / 256);
    }
  }

  lemma {:induction false} PowMonotone(j: nat, k: nat)
    requires j <= k
    ensures Pow256(j) <= Pow256(k)
  {
    if j < k {
      PowMonotone(j, k - 1);
    }
  }

  lemma LowerMonotone(j: nat, k: nat)
    requires j <= k
    ensures Lower(j) <= Lower(k)
  {
    if j >= 2 {
      PowMonotone(j - 2, k - 2);
    } else if k >= 2 {
      PowMonotone(0, k - 2);
    }
  }

  lemma SmallPowers()
    ensures Pow256(0) == 1 && Pow256(1) == 0x100 && Pow256(2) == 0x1_0000 && Pow256(3) == BIT_24
  {
  }

  /** A mantissa has its top bit in one of the eight places below bit 23. */
  lemma MantissaRange(target: nat, exponent: nat)
    requires Fits(target, exponent)
    ensures 0x8000 <= Mantissa(target, exponent) < BIT_23
  {
    SmallPowers();
    if exponent > 3 {
      var unit := Pow256(exponent - 3);
      assert Lower(exponent) == 0x8000 * unit && Lower(exponent + 1) == BIT_23 * unit;
      QuotientAtLeast(unit, 0x8000, target);
      Division(target, unit);
      if target / unit >= BIT_23 {
        MulMonotone(BIT_23, target / unit, unit);
      }
    }
  }

  lemma {:induction false} LeadingRange(target: nat)
    requires target > 0
    ensures var size := ByteSize(target);
      && 0x1_0000 <= Leading(target) < BIT_24
      && (Leading(target) >= BIT_23 <==> target >= Lower(size + 1))
  {
    var size := ByteSize(target);
    ByteSizeBounds(target);
    SmallPowers();
    if size > 3 {
      PowAdd(2, size - 3);
      PowAdd(3, size - 3);
      QuotientRange(target, Pow256(size - 3), 0x1_0000, BIT_23, BIT_24);
    }
  }

  /** Where a quotient lies, read off its dividend. */
  lemma QuotientRange(n: nat, d: nat, low: nat, middle: nat, high: nat)
    requires d > 0 && low * d <= n < high * d
    ensures low <= n / d < high
    ensures n / d >= middle <==> n >= middle * d
  {
    Division(n, d);
    QuotientAtLeast(d, low, n);
    if n / d >= high {
      MulMonotone(high, n / d, d);
    }
    if n >= middle * d {
      QuotientAtLeast(d, middle, n);
    } else if n / d >= middle {
      MulMonotone(middle, n / d, d);
    }
  }

  function Exponent(target: nat): nat {
    var size := ByteSize(target);
    if target >= Lower(size + 1) then size + 1 else size
  }

  lemma ExponentFits(target: u128)
    requires target > 0
    ensures Fits(target, Exponent(target)) && 1 <= Exponent(target) <= 17
  {
    var size := ByteSize(target);
    ByteSizeBounds(target);
    SmallPowers();
    if size > 16 {
      Widths();
      PowMonotone(16, size - 1);
    }
  }

  /** The adjusted three leading bytes are the mantissa. */
  lemma {:induction false} LeadingIsMantissa(target: nat)
    requires target > 0
    ensures Exponent(target) == ByteSize(target) + 1 ==> Leading(target) / 256 == Mantissa(target, Exponent(target))
    ensures Exponent(target) == ByteSize(target) ==> Leading(target) == Mantissa(target, Exponent(target))
  {
    var size := ByteSize(target);
    SmallPowers();
    if size >= 3 {
      QuotientTwice(target, Pow256(size - 3), 256);
    }
  }

  lemma TopBit(compact: nat)
    requires compact < BIT_24
    ensures compact / BIT_23 % 2 != 0 <==> compact >= BIT_23
  {
  }

  lemma Masked(n: nat)
    requires n < BIT_23
    ensures n % BIT_23 == n
  {
  }

  /** Every positive target is encoded as the exponent it fits and its mantissa there. */
  lemma EncodesNormal(target: u128)
    requires target > 0
    ensures Fits(target, Exponent(target)) && Exponent(target) <= 17
    ensures EncodePositive(target) == Exponent(target) * BIT_24 + Mantissa(target, Exponent(target)) < U32_LIMIT
  {
    ExponentFits(target);
    LeadingRange(target);
    LeadingIsMantissa(target);
    MantissaRange(target, Exponent(target));
    TopBit(Leading(target));
    Masked(Mantissa(target, Exponent(target)));
  }

  lemma ExponentMonotone(s: nat, j: nat, t: nat, k: nat)
    requires Fits(s, j) && Fits(t, k) && s <= t
    ensures j <= k
  {
    if k < j {
      LowerMonotone(k + 1, j);
    }
  }

  /** What decoding makes of an exponent and a mantissa. */
  function Decoded(exponent: nat, mantissa: nat): nat {
    if exponent <= 3 then Quot(mantissa, Pow256(3 - exponent)) else mantissa * Pow256(exponent - 3)
  }

  lemma DecodesParts(bits: u32, exponent: nat, mantissa: nat)
    requires bits == exponent * BIT_24 + mantissa && mantissa < BIT_23 && exponent < 19
    ensures bits / BIT_24 == exponent && bits % BIT_23 == mantissa
    ensures Decoded(exponent, mantissa) < U128_LIMIT ==> TargetFromBits(bits) == Decoded(exponent, mantissa)
  {
    Quotient(BIT_24, exponent, mantissa);
  }

  /** Decoding a mantissa gives the target back, rounded down to the unit of its exponent. */
  lemma {:induction false} RoundsDown(target: nat, exponent: nat)
    requires Fits(target, exponent)
    ensures var back := Decoded(exponent, Mantissa(target, exponent));
      && back <= target
      && (exponent <= 3 ==> back == target)
      && (exponent > 3 ==> back == target - target % Pow256(exponent - 3))
      && Fits(back, exponent)
      && Mantissa(back, exponent) == Mantissa(target, exponent)
  {
    if exponent <= 3 {
      Quotient(Pow256(3 - exponent), target, 0);
    } else {
      var unit := Pow256(exponent - 3);
      Division(target, unit);
      MantissaRange(target, exponent);
      MulMonotone(0x8000, target / unit, unit);
      Quotient(unit, target / unit, 0);
      SmallPowers();
    }
  }

  // ---------- The round trip ----------

  /** The number that encoding and decoding a positive target leads to. */
  lemma RoundTripParts(target: u128)
    requires target > 0
    ensures var s := Exponent(target); var back := TargetFromBits(BitsFromTarget(target));
      && Fits(target, s) && s <= 17
      && back == Decoded(s, Mantissa(target, s)) <= target
      && (s <= 3 ==> back == target)
      && (s > 3 ==> back == target - target % Pow256(s - 3))
      && Fits(back, s) && Mantissa(back, s) == Mantissa(target, s)
  {
    var s := Exponent(target);
    EncodesNormal(target);
    MantissaRange(target, s);
    RoundsDown(target, s);
    DecodesParts(BitsFromTarget(target), s, Mantissa(target, s));
  }

  /** Decoding an encoded target gives the target back rounded down: exactly below 2^23, never more
      than one part in 2^15 off, and without loss exactly when the bytes under the mantissa are zero. */
  lemma RoundTrip(target: u128)
    ensures var s := Exponent(target); var back := TargetFromBits(BitsFromTarget(target));
      && back <= target
      && (target > 0 ==> (target - back) * 0x8000 < target)
      && (target < BIT_23 ==> back == target)
      && (back == target <==> s <= 3 || target % Pow256(s - 3) == 0)
  {
    SmallPowers();
    if target > 0 {
      var s := Exponent(target);
      RoundTripParts(target);
      if s > 3 {
        var unit := Pow256(s - 3);
        PowMonotone(1, s - 3);
        Division(target, unit);
      }
    }
  }

  /** The exponent and the mantissa that the encoding of a positive target holds. */
  lemma EncodedParts(target: u128)
    requires target > 0
    ensures BitsFromTarget(target) / BIT_24 == Exponent(target) <= 17
    ensures BitsFromTarget(target) % BIT_23 == Mantissa(target, Exponent(target))
  {
    EncodesNormal(target);
    MantissaRange(target, Exponent(target));
    DecodesParts(BitsFromTarget(target), Exponent(target), Mantissa(target, Exponent(target)));
  }

  /** No bit is shifted out of u128 when an encoded target is decoded. */
  lemma NothingShiftedOut(target: u128)
    ensures var bits := BitsFromTarget(target); var exponent := bits / BIT_24;
      exponent > 3 ==> exponent <= 17 && bits % BIT_23 * Pow256(exponent - 3) < U128_LIMIT
  {
    if target > 0 {
      EncodedParts(target);
      RoundTripParts(target);
    }
  }

  lemma ExponentUnique(target: nat, j: nat, k: nat)
    requires Fits(target, j) && Fits(target, k)
    ensures j == k
  {
    ExponentMonotone(target, j, target, k);
    ExponentMonotone(target, k, target, j);
  }

  /** Whatever exponent a target fits is the one it is encoded with. */
  lemma EncodesAs(target: u128, s: nat)
    requires target > 0 && Fits(target, s)
    ensures BitsFromTarget(target) == s * BIT_24 + Mantissa(target, s)
  {
    EncodesNormal(target);
    ExponentUnique(target, s, Exponent(target));
  }

  /** Encoding, decoding and encoding again changes nothing. */
  lemma EncodeIdempotent(target: u128)
    ensures BitsFromTarget(TargetFromBits(BitsFromTarget(target))) == BitsFromTarget(target)
  {
    SmallPowers();
    if target > 0 {
      var s := Exponent(target);
      RoundTripParts(target);
      LowerMonotone(1, s);
      EncodesAs(target, s);
      EncodesAs(TargetFromBits(BitsFromTarget(target)), s);
    }
  }

  /** Larger targets have larger encodings, compared as plain integers. */
  lemma EncodeMonotone(s: u128, t: u128)
    requires s <= t
    ensures BitsFromTarget(s) <= BitsFromTarget(t)
  {
    if t > 0 {
      EncodesNormal(t);
      MantissaRange(t, Exponent(t));
      if s > 0 {
        EncodesNormal(s);
        MantissaRange(s, Exponent(s));
        ExponentMonotone(s, Exponent(s), t, Exponent(t));
        if Exponent(s) == Exponent(t) {
          MantissaMonotone(s, t, Exponent(s));
        }
      }
    }
  }

  lemma MantissaMonotone(s: nat, t: nat, exponent: nat)
    requires s <= t
    ensures Mantissa(s, exponent) <= Mantissa(t, exponent)
  {
    if exponent <= 3 {
      MulMonotone(s, t, Pow256(3 - exponent));
    } else {
      QuotientMonotone(Pow256(exponent - 3), s, t);
    }
  }

  lemma MultipleBelow(k: int, unit: nat, n: nat)
    requires unit > 0 && k * unit <= n
    ensures k * unit <= n - n % unit
  {
    Division(n, unit);
    if k > n / unit {
      MulMonotone(n / unit + 1, k, unit);
      MulAdd(n / unit, 1, unit);
    }
  }

  lemma MultipleAfterMod(a: nat, b: nat, unit: nat, n: nat, limit: nat) returns (k: int)
    requires limit > 0 && n == a * unit && limit == b * unit
    ensures n % limit == k * unit
  {
    var q := n / limit;
    Division(n, limit);
    Regroup(q, b, unit);
    MulAdd(a, -(q * b), unit);
    k := a - q * b;
  }

  /** A mantissa moved up by at least `s - 3` bytes is a multiple of that unit, wrapped or not. */
  lemma AlignedValue(m: nat, e: nat, s: nat) returns (k: int)
    requires 3 < s <= e < 19 && s <= 17
    ensures m * Pow256(e - 3) % U128_LIMIT == k * Pow256(s - 3)
  {
    Widths();
    hide Pow256;
    var unit := Pow256(s - 3);
    PowAdd(e - s, s - 3);
    PowAdd(19 - s, s - 3);
    Regroup(m, Pow256(e - s), unit);
    k := MultipleAfterMod(m * Pow256(e - s), Pow256(19 - s), unit, m * Pow256(e - 3), U128_LIMIT);
  }

  /** With an exponent below `s` a value stays below everything that fits `s`. */
  lemma LowExponentValue(bits: u32, s: nat)
    requires s > 3 && bits / BIT_24 < s <= 17
    ensures TargetFromBits(bits) <= Lower(s)
  {
    var e, m := bits / BIT_24, bits % BIT_23;
    SmallPowers();
    LowerMonotone(4, s);
    if e > 3 {
      LowerMonotone(e + 1, s);
      PowAdd(2, e - 3);
      MulMonotone(m, BIT_23, Pow256(e - 3));
      RemainderAtMost(m * Pow256(e - 3), U128_LIMIT);
    }
  }

  /** The encoding is the best one: no compact value short of the saturated ones (exponents 19 and up)
      lies above the round trip of a target and not above the target. */
  lemma BestBelow(target: u128, bits: u32)
    requires bits / BIT_24 < 19 && TargetFromBits(bits) <= target
    ensures TargetFromBits(bits) <= TargetFromBits(BitsFromTarget(target))
  {
    if target > 0 {
      var s := Exponent(target);
      RoundTripParts(target);
      if s > 3 {
        if bits / BIT_24 < s {
          LowExponentValue(bits, s);
        } else {
          var k := AlignedValue(bits % BIT_23, bits / BIT_24, s);
          MultipleBelow(k, Pow256(s - 3), target);
        }
      }
    }
  }

  // ---------- What the two numbers are ----------

  /** Of the number that a hash is compared by, the byte of weight 256^i is the `i`-th byte of the digest, counted from
      its front; there are sixteen. */
  lemma HashValueAt(digest: Digest, i: nat)
    requires i < 16
    ensures Quot(HashValue(digest), Pow256(i)) % 256 == Quot(digest, Pow256(31 - i)) % 256
    ensures HashValue(digest) < Pow256(16)
  {
    hide ToBe, FromLe, Pow256;
    var leading := ToBe(digest, 32)[..16];
    FromLeBound(leading);
    FromLeAt(leading, i);
    ToBeAt(digest, 32, i);
  }

  /** The target of any bits. With e the high byte and m the low 23 bits: m without its last 3 - e bytes for e up to 3;
      m moved up by e - 3 bytes, as far as it fits, for e up to 18; and the largest target of all from e = 19 on,
      which includes the default bits 0x1f00ffff. Bit 23 does not count. */
  lemma TargetExactly(bits: u32)
    ensures var e, m := bits / 0x100_0000, bits % 0x80_0000; var target := TargetFromBits(bits);
      && (e <= 3 ==> target * Pow256(3 - e) <= m < (target + 1) * Pow256(3 - e))
      && (3 < e < 19 ==> exists k: nat :: m * Pow256(e - 3) == k * Pow256(16) + target)
      && (e >= 19 ==> target == Pow256(16) - 1)
      && target < Pow256(16)
  {
    Widths();
    hide Pow256;
    var e, m := bits / BIT_24, bits % BIT_23;
    if e <= 3 {
      Division(m, Pow256(3 - e));
      MulAdd(m / Pow256(3 - e), 1, Pow256(3 - e));
    } else if e < 19 {
      Division(m * Pow256(e - 3), U128_LIMIT);
      var k := m * Pow256(e - 3) / U128_LIMIT;
      assert m * Pow256(e - 3) == k * Pow256(16) + TargetFromBits(bits);
    }
  }

  /** The encoding of any target: zero has its own; a positive one has an exponent and a mantissa from 0x8000 to
      0x7fffff, which are its leading bytes, exactly for exponents up to 3 and rounded down above. */
  lemma EncodingExactly(target: u128)
    ensures var e, m := BitsFromTarget(target) / 0x100_0000, BitsFromTarget(target) % 0x100_0000;
      if target == 0 then BitsFromTarget(target) == 0x0100_0001
      else
        && 1 <= e <= 17 && 0x8000 <= m < 0x80_0000
        && (e <= 3 ==> m == target * Pow256(3 - e))
        && (e > 3 ==> m * Pow256(e - 3) <= target < (m + 1) * Pow256(e - 3))
  {
    hide EncodePositive, Exponent, Mantissa, Lower, Pow256, BitsFromTarget;
    if target == 0 {
      ZeroEncoded();
    } else {
      var e := Exponent(target);
      var m := Mantissa(target, e);
      EncodesNormal(target);
      EncodesAs(target, e);
      MantissaRange(target, e);
      MantissaExactly(target, e);
      Quotient(BIT_24, e, m);
    }
  }

  lemma ZeroEncoded()
    ensures BitsFromTarget(0) == 0x0100_0001
  {
  }

  lemma {:induction false} MantissaExactly(target: nat, e: nat)
    ensures var m := Mantissa(target, e);
      && (e <= 3 ==> m == target * Pow256(3 - e))
      && (e > 3 ==> m * Pow256(e - 3) <= target < (m + 1) * Pow256(e - 3))
  {
    hide Pow256;
    if e > 3 {
      Division(target, Pow256(e - 3));
      MulAdd(target / Pow256(e - 3), 1, Pow256(e - 3));
    }
  }
}

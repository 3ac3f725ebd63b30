/** Fixed-width integers as bytes: `to_le_bytes` and `from_le_bytes`, and the same with the most significant byte
    first, which is how a digest is read as one number. What the one writes the other reads, different numbers have
    different bytes, and the single bytes are the digits of the number in base 256. */
module Endian {
  import opened Arithmetic
  import opened Types

  function Pow256(k: nat): (p: nat)
    ensures p > 0
  {
    if k == 0 then 1 else 256 * Pow256(k - 1)
  }

  function ToLe(n: nat, width: nat): (bytes: Bytes)
    ensures |bytes| == width
  {
    if width == 0 then [] else [n % 256] + ToLe(n / 256, width - 1)
  }

  function FromLe(bytes: Bytes): nat {
    if bytes == [] then 0 else bytes[0] + 256 * FromLe(bytes[1..])
  }

  /** The same bytes, most significant first. */
  function ToBe(n: nat, width: nat): (bytes: Bytes)
    ensures |bytes| == width
  {
    if width == 0 then [] else ToBe(n / 256, width - 1) + [n % 256]
  }

  lemma {:induction false} FromToLe(n: nat, width: nat)
    requires n < Pow256(width)
    ensures FromLe(ToLe(n, width)) == n
  {
    if width > 0 {
      FromToLe(n / 256, width - 1);
      assert ToLe(n, width)[1..] == ToLe(n / 256, width - 1);
    }
  }

  lemma {:induction false} FromLeBound(bytes: Bytes)
    ensures FromLe(bytes) < Pow256(|bytes|)
  {
    if bytes != [] {
      FromLeBound(bytes[1..]);
    }
  }

  /** Equal encodings of one width come from equal numbers. */
  lemma {:induction false} ToLeInjective(m: nat, n: nat, width: nat)
    requires m < Pow256(width) && n < Pow256(width)
    ensures ToLe(m, width) == ToLe(n, width) <==> m == n
  {
    FromToLe(m, width);
    FromToLe(n, width);
  }

  // Byte by byte.

  lemma {:induction false} FromLeAt(bytes: Bytes, i: nat)
    requires i < |bytes|
    ensures Quot(FromLe(bytes), Pow256(i)) % 256 == bytes[i]
  {
    if i > 0 {
      FromLeAt(bytes[1..], i - 1);
      assert FromLe(bytes) / 256 == FromLe(bytes[1..]);
      QuotientTwice(FromLe(bytes), 256, Pow256(i - 1));
    }
  }

  lemma {:induction false} ToBeAt(n: nat, width: nat, i: nat)
    requires i < width
    ensures ToBe(n, width)[i] == Quot(n, Pow256(width - 1 - i)) % 256
  {
    if i < width - 1 {
      ToBeAt(n / 256, width - 1, i);
      QuotientTwice(n, 256, Pow256(width - 2 - i));
    }
  }

  lemma Widths()
    ensures Pow256(4) == U32_LIMIT && Pow256(8) == U64_LIMIT && Pow256(16) == U128_LIMIT
    ensures Pow256(32) == U128_LIMIT * U128_LIMIT
  {
    assert Pow256(8) == U64_LIMIT;
    PowAdd(8, 8);
    PowAdd(16, 16);
  }

  lemma {:induction false} PowAdd(a: nat, b: nat)
    ensures Pow256(a + b) == Pow256(a) * Pow256(b)
  {
    if a > 0 {
      PowAdd(a - 1, b);
      assert Pow256(a + b) == 256 * Pow256(a - 1 + b);
      assert 256 * (Pow256(a - 1) * Pow256(b)) == (256 * Pow256(a - 1)) * Pow256(b);
    }
  }
}

/** Bytes and the fixed-width big-endian form of a natural number. */
module Bytes {

  type byte = b: int | 0 <= b < 256

  /** 256 to the power n. */
  function Pow256(n: nat): (p: nat)
    ensures p >= 1
  {
    if n == 0 then 1 else 256 * Pow256(n - 1)
  }

  /** 2 to the power n. */
  function Pow2(n: nat): (p: nat)
    ensures p >= 1
  {
    if n == 0 then 1 else 2 * Pow2(n - 1)
  }

  lemma Pow2Eight(k: nat)
    ensures Pow2(k + 8) == 256 * Pow2(k)
  {
    assert Pow2(k + 8) == 2 * Pow2(k + 7) && Pow2(k + 7) == 2 * Pow2(k + 6);
    assert Pow2(k + 6) == 2 * Pow2(k + 5) && Pow2(k + 5) == 2 * Pow2(k + 4);
    assert Pow2(k + 4) == 2 * Pow2(k + 3) && Pow2(k + 3) == 2 * Pow2(k + 2);
    assert Pow2(k + 2) == 2 * Pow2(k + 1);
  }

  lemma {:induction false} Pow2IsPow256(n: nat)
    ensures Pow2(8 * n) == Pow256(n)
  {
    if n > 0 {
      Pow2IsPow256(n - 1);
      Pow2Eight(8 * (n - 1));
    }
  }

  /** The number a byte string denotes, most significant byte first. */
  function ToNat(bytes: seq<byte>): (n: nat)
    ensures n < Pow256(|bytes|)
    decreases |bytes|
  {
    if bytes == [] then 0 else ToNat(bytes[..|bytes| - 1]) * 256 + bytes[|bytes| - 1]
  }

  /** The low `width` base-256 digits of n, most significant first. */
  function BigEndian(n: nat, width: nat): (bytes: seq<byte>)
    ensures |bytes| == width
    decreases width
  {
    if width == 0 then [] else BigEndian(n / 256, width - 1) + [n % 256]
  }

  lemma DivPow256(n: nat, k: nat)
    ensures n / 256 / Pow256(k) == n / Pow256(k + 1)
  {
    var p := Pow256(k);
    var q := n / (256 * p);
    var r := n % (256 * p);
    assert n == 256 * p * q + r;
    assert n / 256 == p * q + r / 256 by {
      assert n == 256 * (p * q) + r;
    }
    assert r / 256 < p;
    DivUnique(n / 256, p, q, r / 256);
  }

  lemma DivUnique(a: nat, p: nat, q: nat, r: nat)
    requires p > 0 && r < p && a == p * q + r
    ensures a / p == q && a % p == r
  {
    var d, m := a / p, a % p;
    assert a == p * d + m && 0 <= m < p;
    assert p * (d - q) == p * d - p * q;
    NoMultipleBetween(p, d - q);
  }

  lemma NoMultipleBetween(p: int, d: int)
    requires -p < p * d < p
    ensures d == 0
  {
    if d >= 1 {
      MulAtLeast(p, d);
    } else if d <= -1 {
      MulAtLeast(p, -d);
    }
  }

  lemma MulAtLeast(p: int, d: int)
    requires p >= 0 && d >= 1
    ensures p * d >= p && p * -d <= -p
  {
    assert p * d == p + p * (d - 1);
  }

  /** Digit i of the big-endian form is the quotient by the matching power of 256, taken mod 256. */
  lemma {:induction false} BigEndianAt(n: nat, width: nat, i: nat)
    requires i < width
    ensures BigEndian(n, width)[i] == n / Pow256(width - 1 - i) % 256
    decreases width
  {
    if i < width - 1 {
      BigEndianAt(n / 256, width - 1, i);
      DivPow256(n, width - 2 - i);
    }
  }

  /** Reading the big-endian form back gives the number modulo 256^width. */
  lemma {:induction false} ToNatBigEndian(n: nat, width: nat)
    ensures ToNat(BigEndian(n, width)) == n % Pow256(width)
    decreases width
  {
    if width > 0 {
      var init := BigEndian(n / 256, width - 1);
      ToNatBigEndian(n / 256, width - 1);
      assert (init + [n % 256])[..width - 1] == init;
      ModPow256(n, Pow256(width - 1));
    }
  }

  lemma ModPow256(n: nat, p: nat)
    requires p > 0
    ensures n / 256 % p * 256 + n % 256 == n % (256 * p)
  {
    var q, r, d := n / 256 / p, n / 256 % p, n % 256;
    assert n / 256 == p * q + r;
    assert n == (256 * p) * q + (256 * r + d) by {
      assert 256 * (p * q) == (256 * p) * q;
    }
    DivUnique(n, 256 * p, q, 256 * r + d);
  }

  /** Every byte string is the big-endian form of the number it denotes. */
  lemma {:induction false} BigEndianToNat(bytes: seq<byte>)
    ensures BigEndian(ToNat(bytes), |bytes|) == bytes
    decreases |bytes|
  {
    if bytes != [] {
      BigEndianToNat(bytes[..|bytes| - 1]);
    }
  }

  lemma SmallMod(n: nat, limit: nat)
    requires n < limit
    ensures n % limit == n
  {
  }
}

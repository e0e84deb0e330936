/** Python's `int.to_bytes(k, "big")` and `int.from_bytes(b, "big")`. */
module BigEndian {
  import opened Bytewise

  function Pow256(k: nat): nat {
    if k == 0 then 1 else 256 * Pow256(k - 1)
  }

  function ToBytes(n: nat, k: nat): (b: Bytes)
    ensures |b| == k
  {
    if k == 0 then [] else ToBytes(n / 256, k - 1) + [(n % 256) as byte]
  }

  function FromBytes(b: Bytes): nat {
    if b == [] then 0 else 256 * FromBytes(b[..|b| - 1]) + b[|b| - 1] as nat
  }

  /** A number that fits is read back unchanged. */
  lemma {:induction false} ToFrom(n: nat, k: nat)
    requires n < Pow256(k)
    ensures FromBytes(ToBytes(n, k)) == n
  {
    if k > 0 {
      var b := ToBytes(n, k);
      assert b[..|b| - 1] == ToBytes(n / 256, k - 1);
      ToFrom(n / 256, k - 1);
    }
  }

  lemma {:induction false} FromBytesFits(b: Bytes)
    ensures FromBytes(b) < Pow256(|b|)
  {
    if b != [] { FromBytesFits(b[..|b| - 1]); }
  }

  /** Every string of bytes is the encoding of the number it is read as. */
  lemma {:induction false} FromTo(b: Bytes)
    ensures ToBytes(FromBytes(b), |b|) == b
  {
    if b != [] {
      var init := b[..|b| - 1];
      FromTo(init);
      assert FromBytes(b) / 256 == FromBytes(init) && FromBytes(b) % 256 == b[|b| - 1] as nat;
      assert b == init + [b[|b| - 1]];
    }
  }

  /** The most significant byte comes first. */
  lemma {:induction false} DigitAt(n: nat, k: nat, i: nat)
    requires i < k
    ensures Pow256(k - 1 - i) > 0 && ToBytes(n, k)[i] as nat == n / Pow256(k - 1 - i) % 256
  {
    PowPositive(k - 1 - i);
    if i < k - 1 {
      DigitAt(n / 256, k - 1, i);
      DivDiv(n, Pow256(k - 2 - i));
    }
  }

  lemma {:induction false} PowPositive(k: nat)
    ensures Pow256(k) > 0
  {
    if k > 0 { PowPositive(k - 1); }
  }

  lemma DivDiv(n: nat, d: nat)
    requires d > 0
    ensures n / 256 / d == n / (256 * d)
  {
    var q := n / 256 / d;
    assert n / 256 == d * q + n / 256 % d;
    assert n == 256 * d * q + 256 * (n / 256 % d) + n % 256;
    QuotientIs(n, 256 * d, q);
  }

  lemma QuotientIs(n: nat, d: nat, q: nat)
    requires d > 0 && d * q <= n < d * q + d
    ensures n / d == q
  {
    assert n == d * (n / d) + n % d;
    Scale(d, n / d + 1, q);
    Scale(d, q + 1, n / d);
  }

  lemma Scale(d: nat, a: int, b: int)
    ensures a <= b ==> d * a <= d * b
  {
  }

  lemma ToBytesInjective(m: nat, n: nat, k: nat)
    requires m < Pow256(k) && n < Pow256(k) && ToBytes(m, k) == ToBytes(n, k)
    ensures m == n
  {
    ToFrom(m, k);
    ToFrom(n, k);
  }

  lemma Pow256Of8()
    ensures Pow256(8) == 0x1_0000_0000_0000_0000
  {
    assert Pow256(2) == 65536;
    assert Pow256(4) == 65536 * 65536;
    assert Pow256(6) == 65536 * 65536 * 65536;
  }
}

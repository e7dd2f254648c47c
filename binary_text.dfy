/** The decoder never looks at its instruction word as a number: it renders the
    word as a 32-character string of binary digits, cuts that string into fields
    with string slices, compares the fields against string literals and converts
    the chosen fields back to integers. This module models that text: the
    zero-padded binary rendering of a word, the conversion of binary digits back
    to a number, and the facts that tie slices of the text to the arithmetic
    value of the corresponding bits. */
module BinaryText {

  function Pow2(n: nat): (r: nat)
    ensures r > 0
  {
    if n == 0 then 1 else 2 * Pow2(n - 1)
  }

  predicate IsBinary(s: string) {
    forall i | 0 <= i < |s| :: s[i] == '0' || s[i] == '1'
  }

  /** The `width` low-order bits of `x` as binary digits, most significant
      first, padded on the left with '0' (a rendering followed by a zero fill). */
  function ToBinary(x: nat, width: nat): (s: string)
    ensures |s| == width && IsBinary(s)
  {
    if width == 0 then "" else ToBinary(x / 2, width - 1) + [if x % 2 == 1 then '1' else '0']
  }

  /** The integer a string of binary digits denotes, most significant digit
      first. Every digit other than '1' counts as zero; the decoder only ever
      converts slices of a binary rendering, so no other digit occurs. */
  function FromBinary(s: string): (v: nat)
    ensures v < Pow2(|s|)
  {
    if s == "" then 0 else 2 * FromBinary(s[..|s| - 1]) + (if s[|s| - 1] == '1' then 1 else 0)
  }

  /** A multiple of a positive `d` by a non-zero factor is at least `d` away from zero. */
  lemma {:induction false} MultipleAtLeast(d: nat, k: nat)
    requires d > 0 && k >= 1
    ensures d * k >= d
  {
    if k > 1 {
      MultipleAtLeast(d, k - 1);
      assert d * k == d * (k - 1) + d;
    }
  }

  lemma DivModUnique(x: int, d: int, q: int, r: int)
    requires d > 0 && 0 <= r < d && x == d * q + r
    ensures x / d == q && x % d == r
  {
    var q', r' := x / d, x % d;
    assert x == d * q' + r';
    if q < q' {
      MultipleAtLeast(d, q' - q);
      assert false;
    } else if q > q' {
      MultipleAtLeast(d, q - q');
      assert false;
    }
  }

  lemma SmallRemainder(x: nat, m: nat)
    requires x < m
    ensures x % m == x
  {
    DivModUnique(x, m, 0, x);
  }

  /** Dividing by 2p is halving and then dividing by p; the remainder keeps the
      halved-away bit at the bottom. */
  lemma HalveDivMod(x: nat, p: nat)
    requires p > 0
    ensures x / (2 * p) == (x / 2) / p
    ensures x % (2 * p) == 2 * ((x / 2) % p) + x % 2
  {
    var q, r := (x / 2) / p, 2 * ((x / 2) % p) + x % 2;
    assert x / 2 == p * q + (x / 2) % p;
    assert x == (2 * p) * q + r;
    DivModUnique(x, 2 * p, q, r);
  }

  /** Reading back a rendering gives the rendered bits: the value modulo 2^width. */
  lemma {:induction false} FromToBinary(x: nat, width: nat)
    ensures FromBinary(ToBinary(x, width)) == x % Pow2(width)
  {
    if width > 0 {
      var s := ToBinary(x, width);
      assert s[..width - 1] == ToBinary(x / 2, width - 1);
      FromToBinary(x / 2, width - 1);
      HalveDivMod(x, Pow2(width - 1));
    }
  }

  /** Rendering the value of a binary string at its own width gives the string back. */
  lemma {:induction false} ToFromBinary(s: string)
    requires IsBinary(s)
    ensures ToBinary(FromBinary(s), |s|) == s
  {
    if s != "" {
      var n := |s|;
      var prefix := s[..n - 1];
      assert IsBinary(prefix);
      ToFromBinary(prefix);
      var v := FromBinary(s);
      assert v / 2 == FromBinary(prefix) && v % 2 == (if s[n - 1] == '1' then 1 else 0);
      assert s == prefix + [s[n - 1]];
    }
  }

  /** Two binary strings of the same length are equal exactly when their values are. */
  lemma BinaryEqualIff(s: string, t: string)
    requires IsBinary(s) && IsBinary(t) && |s| == |t|
    ensures s == t <==> FromBinary(s) == FromBinary(t)
  {
    if FromBinary(s) == FromBinary(t) {
      ToFromBinary(s);
      ToFromBinary(t);
    }
  }

  /** Dropping the last `lo` digits of a rendering renders the value shifted right by `lo`. */
  lemma {:induction false} ToBinaryPrefix(x: nat, width: nat, lo: nat)
    requires lo <= width
    ensures ToBinary(x, width)[..width - lo] == ToBinary(x / Pow2(lo), width - lo)
  {
    if lo > 0 {
      assert ToBinary(x, width)[..width - lo] == ToBinary(x / 2, width - 1)[..width - lo];
      ToBinaryPrefix(x / 2, width - 1, lo - 1);
      HalveDivMod(x, Pow2(lo - 1));
    }
  }

  /** The last `k` digits of a rendering are the rendering of the same value at width `k`. */
  lemma {:induction false} ToBinarySuffix(x: nat, width: nat, k: nat)
    requires k <= width
    ensures ToBinary(x, width)[width - k..] == ToBinary(x, k)
  {
    if 0 < k < width {
      var s := ToBinary(x, width);
      var head := ToBinary(x / 2, width - 1);
      assert s[width - k..] == head[(width - 1) - (k - 1)..] + [s[width - 1]];
      ToBinarySuffix(x / 2, width - 1, k - 1);
    }
  }

  /** Slicing bits hi..lo out of a `width`-digit rendering, counting bit 0 as
      the last digit, yields the binary text of exactly those bits, and that
      text denotes the value of bits hi..lo of `x`. */
  lemma FieldText(x: nat, width: nat, hi: nat, lo: nat)
    requires lo <= hi < width
    ensures ToBinary(x, width)[width - 1 - hi..width - lo] == ToBinary(x / Pow2(lo), hi - lo + 1)
    ensures FromBinary(ToBinary(x, width)[width - 1 - hi..width - lo])
            == (x / Pow2(lo)) % Pow2(hi - lo + 1)
  {
    var s, y, k := ToBinary(x, width), x / Pow2(lo), hi - lo + 1;
    var prefix := s[..width - lo];
    assert s[width - 1 - hi..width - lo] == prefix[width - 1 - hi..];
    ToBinaryPrefix(x, width, lo);
    assert prefix == ToBinary(y, width - lo);
    ToBinarySuffix(y, width - lo, k);
    assert (width - lo) - k == width - 1 - hi;
    FromToBinary(y, k);
  }

  lemma DoubleFactor(h: int, p: int)
    ensures h * (2 * p) == 2 * (h * p)
  {
  }

  /** Converting the concatenation of two digit strings puts the first one
      above the second. */
  lemma {:induction false} FromBinaryConcat(a: string, b: string)
    ensures FromBinary(a + b) == FromBinary(a) * Pow2(|b|) + FromBinary(b)
  {
    if b == "" {
      assert a + b == a;
    } else {
      var n := |b|;
      var ab, init := a + b, b[..n - 1];
      assert ab[..|ab| - 1] == a + init;
      assert ab[|ab| - 1] == b[n - 1];
      var c := if b[n - 1] == '1' then 1 else 0;
      assert FromBinary(ab) == 2 * FromBinary(a + init) + c;
      assert FromBinary(b) == 2 * FromBinary(init) + c;
      FromBinaryConcat(a, init);
      var hi, p := FromBinary(a), Pow2(n - 1);
      assert FromBinary(a + init) == hi * p + FromBinary(init);
      assert Pow2(n) == 2 * p;
      DoubleFactor(hi, p);
    }
  }
}

/** Bytes and fixed-width machine integers, with the little- and big-endian layouts of Rust's
    `to_le_bytes`, `from_le_bytes` and `to_be_bytes`. */
module Bytes {

  type byte = n: int | 0 <= n < 0x100
  type u16 = n: int | 0 <= n < 0x1_0000
  type u32 = n: int | 0 <= n < 0x1_0000_0000
  type u64 = n: int | 0 <= n < 0x1_0000_0000_0000_0000

  const U16_MAX: u16 := 0xFFFF

  ghost function Pow256(w: nat): (p: nat)
    ensures p > 0
  {
    if w == 0 then 1 else 0x100 * Pow256(w - 1)
  }

  /** The `w` low bytes of `n`, least significant first. */
  function ToLe(n: nat, w: nat): (b: seq<byte>)
    ensures |b| == w
  {
    if w == 0 then [] else [n % 0x100] + ToLe(n / 0x100, w - 1)
  }

  function FromLe(b: seq<byte>): nat {
    if b == [] then 0 else b[0] + 0x100 * FromLe(b[1..])
  }

  lemma {:induction false} FromLeInvertsToLe(n: nat, w: nat)
    requires n < Pow256(w)
    ensures FromLe(ToLe(n, w)) == n
  {
    if w > 0 {
      FromLeInvertsToLe(n / 0x100, w - 1);
    }
  }

  lemma {:induction false} ToLeInvertsFromLe(b: seq<byte>)
    ensures FromLe(b) < Pow256(|b|)
    ensures ToLe(FromLe(b), |b|) == b
  {
    if b != [] {
      ToLeInvertsFromLe(b[1..]);
    }
  }

  /** The widths used on the wire, so that callers need no arithmetic of their own. */
  lemma Widths()
    ensures Pow256(2) == 0x1_0000
    ensures Pow256(4) == 0x1_0000_0000
    ensures Pow256(8) == 0x1_0000_0000_0000_0000
    ensures Pow256(16) == 0x1_0000_0000_0000_0000_0000_0000_0000_0000
  {
    assert Pow256(2) == 0x100 * Pow256(1);
    assert Pow256(4) == 0x100 * (0x100 * Pow256(2));
    assert Pow256(6) == 0x100 * (0x100 * Pow256(4));
    assert Pow256(8) == 0x100 * (0x100 * Pow256(6));
    assert Pow256(10) == 0x100 * (0x100 * Pow256(8));
    assert Pow256(12) == 0x100 * (0x100 * Pow256(10));
    assert Pow256(14) == 0x100 * (0x100 * Pow256(12));
    assert Pow256(16) == 0x100 * (0x100 * Pow256(14));
  }

  /** Most significant byte first. */
  function ToBe(n: nat, w: nat): (b: seq<byte>)
    ensures |b| == w
  {
    if w == 0 then [] else ToBe(n / 0x100, w - 1) + [n % 0x100]
  }

  /** The big-endian layout loses nothing of a number that fits. */
  lemma {:induction false} ToBeInjective(m: nat, n: nat, w: nat)
    requires m < Pow256(w) && n < Pow256(w)
    requires ToBe(m, w) == ToBe(n, w)
    ensures m == n
  {
    if w > 0 {
      assert ToBe(m, w)[..w - 1] == ToBe(m / 0x100, w - 1);
      assert ToBe(n, w)[..w - 1] == ToBe(n / 0x100, w - 1);
      assert ToBe(m, w)[w - 1] == ToBe(n, w)[w - 1];
      ToBeInjective(m / 0x100, n / 0x100, w - 1);
    }
  }

  // Which byte stands where

  lemma DivDiv(n: nat, a: nat, b: nat)
    requires a > 0 && b > 0
    ensures a * b > 0 && n / a / b == n / (a * b)
  {
    var q, r := n / a / b, n / a % b;
    assert n / a == q * b + r;
    assert n == a * (q * b + r) + n % a;
    assert a * (q * b + r) == (a * b) * q + a * r by {
      assert a * (q * b) == (a * b) * q;
    }
    assert a * r + n % a < a * b by {
      assert a * r <= a * (b - 1);
    }
    QuotientIs(n, a * b, q, a * r + n % a);
  }

  lemma Below(d: nat, p: nat, q: nat)
    ensures p < q ==> d * (p + 1) <= d * q
  {
  }

  lemma QuotientIs(n: nat, d: nat, q: nat, r: nat)
    requires n == d * q + r && r < d
    ensures n / d == q && n % d == r
  {
    Below(d, n / d, q);
    Below(d, q, n / d);
  }

  /** Byte `k` of the little-endian layout has weight 256 to the `k`. */
  lemma {:induction false} LeBytes(n: nat, w: nat, k: nat)
    requires k < w
    ensures ToLe(n, w)[k] == n / Pow256(k) % 0x100
  {
    if k > 0 {
      LeBytes(n / 0x100, w - 1, k - 1);
      DivDiv(n, 0x100, Pow256(k - 1));
    }
  }

  /** The big-endian layout is the other one backwards. */
  lemma {:induction false} BeBytes(n: nat, w: nat, k: nat)
    requires k < w
    ensures ToBe(n, w)[k] == ToLe(n, w)[w - 1 - k] == n / Pow256(w - 1 - k) % 0x100
  {
    LeBytes(n, w, w - 1 - k);
    if k < w - 1 {
      BeBytes(n / 0x100, w - 1, k);
    }
  }

  lemma LowByte(high: nat, low: nat, p: nat)
    ensures var n := high * (0x100 * p) + low;
            n / 0x100 == high * p + low / 0x100 && n % 0x100 == low % 0x100
  {
    assert high * (0x100 * p) == 0x100 * (high * p);
    QuotientIs(high * (0x100 * p) + low, 0x100, high * p + low / 0x100, low % 0x100);
  }

  lemma {:induction false} BeConcat(high: nat, w: nat, low: nat, v: nat)
    requires low < Pow256(v)
    ensures ToBe(high * Pow256(v) + low, w + v) == ToBe(high, w) + ToBe(low, v)
  {
    if v > 0 {
      LowByte(high, low, Pow256(v - 1));
      BeConcat(high, w, low / 0x100, v - 1);
    }
  }

  lemma {:induction false} ZeroBytes(w: nat, k: nat)
    requires k < w
    ensures ToBe(0, w)[k] == 0
  {
    if k < w - 1 {
      ZeroBytes(w - 1, k);
    }
  }
}

/** Handshake tokens: a process-wide counter in the high half, the clock in the low half, sixteen
    big-endian bytes. */
module Tokens {
  import opened Wrappers
  import opened Bytes
  import opened Bits

  const HANDSHAKE_TOKEN_LEN: nat := 16
  const TWO_64: nat := 0x1_0000_0000_0000_0000
  const TWO_128: nat := 0x1_0000_0000_0000_0000_0000_0000_0000_0000

  type u128 = n: int | 0 <= n < TWO_128

  type Token = b: seq<byte> | |b| == HANDSHAKE_TOKEN_LEN witness seq(HANDSHAKE_TOKEN_LEN, _ => 0)

  /** `(nanos ^ (counter << 64)).to_be_bytes()` */
  function TokenOf(counter: u64, nanos: u128): Token {
    ToBe(Xor(nanos, counter * TWO_64), HANDSHAKE_TOKEN_LEN)
  }

  /** The value `fetch_add` hands to the `draw`-th caller, counting from zero: the counter starts at
      one and wraps around. */
  function CounterAt(draw: nat): u64 {
    (1 + draw) % TWO_64
  }

  /** A clock set before the epoch reads zero. */
  function Nanos(clock: Option<u128>): u128 {
    match clock case Some(duration) => duration case None => 0
  }

  class HandshakeCounter {
    var next: u64
    ghost var draws: nat

    ghost predicate Valid()
      reads this
    {
      next == CounterAt(draws)
    }

    constructor ()
      ensures Valid() && draws == 0
    {
      next, draws := 1, 0;
    }

    /** `clock` is `None` when the system clock is set before the epoch. */
    method NextToken(clock: Option<u128>) returns (token: Token)
      requires Valid()
      modifies this
      ensures Valid() && draws == old(draws) + 1
      ensures token == TokenOf(CounterAt(old(draws)), Nanos(clock))
    {
      var counter := next;
      next := if next == TWO_64 - 1 then 0 else next + 1;
      draws := draws + 1;
      var nanos: u128 := match clock case Some(duration) => duration case None => 0;
      token := TokenOf(counter, nanos);
    }
  }

  lemma Pow2Step(k: nat)
    ensures Pow2(k + 8) == 0x100 * Pow2(k)
  {
    assert Pow2(k + 2) == 2 * Pow2(k + 1) == 4 * Pow2(k);
    assert Pow2(k + 4) == 2 * Pow2(k + 3) == 4 * Pow2(k + 2);
    assert Pow2(k + 6) == 2 * Pow2(k + 5) == 4 * Pow2(k + 4);
    assert Pow2(k + 8) == 2 * Pow2(k + 7) == 4 * Pow2(k + 6);
  }

  lemma Pow2Chain(k: nat)
    ensures Pow2(k + 64) == TWO_64 * Pow2(k)
  {
    Pow2Step(k);
    Pow2Step(k + 8);
    Pow2Step(k + 16);
    Pow2Step(k + 24);
    Pow2Step(k + 32);
    Pow2Step(k + 40);
    Pow2Step(k + 48);
    Pow2Step(k + 56);
  }

  lemma Pow2At64()
    ensures Pow2(64) == TWO_64 && Pow2(128) == TWO_128
  {
    Pow2Chain(0);
    Pow2Chain(64);
  }

  lemma {:induction false} XorBound(a: nat, b: nat, w: nat)
    requires a < Pow2(w) && b < Pow2(w)
    ensures Xor(a, b) < Pow2(w)
  {
    if w > 0 && a != 0 && b != 0 {
      XorBound(a / 2, b / 2, w - 1);
    }
  }

  /** Two tokens agree exactly when the exclusive ors behind them do. */
  lemma TokensAgree(c: u64, n: u128, d: u64, m: u128)
    ensures TokenOf(c, n) == TokenOf(d, m) <==> Xor(n, c * TWO_64) == Xor(m, d * TWO_64)
  {
    Pow2At64();
    Widths();
    XorBound(n, c * TWO_64, 128);
    XorBound(m, d * TWO_64, 128);
    if TokenOf(c, n) == TokenOf(d, m) {
      ToBeInjective(Xor(n, c * TWO_64), Xor(m, d * TWO_64), HANDSHAKE_TOKEN_LEN);
    }
  }

  lemma HalvesStayApart(c: u64, n: u64)
    ensures Xor(n, c * TWO_64) == c * TWO_64 + n
  {
    Pow2At64();
    XorAbove(n, c, 64);
  }

  /** While the clock fits in 64 bits, a token is the counter in eight bytes and the clock in eight bytes, the most
      significant ones first. */
  lemma TokenHalves(c: u64, n: u64)
    ensures TokenOf(c, n) == ToBe(c, 8) + ToBe(n, 8)
  {
    Widths();
    HalvesStayApart(c, n);
    BeConcat(c, 8, n, 8);
  }

  /** The first token of a process whose clock is set before the epoch. */
  lemma FirstToken()
    ensures var token := TokenOf(CounterAt(0), Nanos(None));
            token[7] == 1 && forall k :: 0 <= k < 16 && k != 7 ==> token[k] == 0
  {
    TokenHalves(1, 0);
    assert ToBe(1, 8) == ToBe(0, 7) + [1];
    forall k | 0 <= k < 8 ensures ToBe(0, 8)[k] == 0 && (k < 7 ==> ToBe(0, 7)[k] == 0) {
      ZeroBytes(8, k);
      if k < 7 {
        ZeroBytes(7, k);
      }
    }
  }

  /** While the clock fits in 64 bits a token determines both the counter and the clock. */
  lemma TokenDeterminesDraw(c: u64, n: u64, d: u64, m: u64)
    ensures TokenOf(c, n) == TokenOf(d, m) <==> c == d && n == m
  {
    HalvesStayApart(c, n);
    HalvesStayApart(d, m);
    TokensAgree(c, n, d, m);
  }

  /** All tokens of the first 2^64 draws of a process are pairwise distinct, for all clocks of 64 bits. */
  lemma DrawsAreDistinct(i: nat, n: u64, j: nat, m: u64)
    requires i < TWO_64 && j < TWO_64
    ensures TokenOf(CounterAt(i), n) == TokenOf(CounterAt(j), m) ==> i == j && n == m
  {
    TokenDeterminesDraw(CounterAt(i), n, CounterAt(j), m);
  }

  lemma XorDouble(x: nat, y: nat)
    ensures Xor(2 * x, 2 * y) == 2 * Xor(x, y)
  {
  }

  ghost function Doubled(a: nat, k: nat): nat {
    if k == 0 then a else 2 * Doubled(a, k - 1)
  }

  lemma {:induction false} XorDoubled(a: nat, b: nat, k: nat)
    ensures Xor(Doubled(a, k), Doubled(b, k)) == Doubled(Xor(a, b), k)
  {
    if k > 0 {
      XorDouble(Doubled(a, k - 1), Doubled(b, k - 1));
      XorDoubled(a, b, k - 1);
    }
  }

  lemma {:induction false} DoubledIsProduct(a: nat, k: nat)
    ensures Doubled(a, k) == a * Pow2(k)
  {
    if k > 0 {
      DoubledIsProduct(a, k - 1);
    }
  }

  /** The bound on the clock is needed: past it, consecutive draws can repeat a token. */
  lemma LateClocksCollide()
    ensures TokenOf(CounterAt(0), 3 * TWO_64) == TokenOf(CounterAt(1), 0)
  {
    Pow2At64();
    XorDoubled(3, 1, 64);
    DoubledIsProduct(3, 64);
    DoubledIsProduct(1, 64);
    DoubledIsProduct(2, 64);
    assert Xor(3, 1) == 2;
    TokensAgree(CounterAt(0), 3 * TWO_64, CounterAt(1), 0);
  }
}

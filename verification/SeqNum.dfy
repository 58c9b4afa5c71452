// 32-bit TCP sequence numbers as images of unbounded stream positions.
module SeqNum {
  const MOD: int := 0x1_0000_0000
  const HALF: int := 0x8000_0000

  type U32 = x: int | 0 <= x < MOD

  function Plus(a: U32, n: int): U32 {
    (a + n) % MOD
  }

  function Minus(a: U32, b: U32): U32 {
    (a - b) % MOD
  }

  // (int32_t)(a - b)
  function Diff(a: U32, b: U32): int {
    var d := Minus(a, b);
    if d < HALF then d else d - MOD
  }

  // tcp_seq_after and tcp_seq_before.
  predicate After(a: U32, b: U32) { Diff(a, b) > 0 }

  predicate Before(a: U32, b: U32) { Diff(a, b) < 0 }

  // The sequence number of stream position p when position 0 has number base.
  function Image(base: U32, p: int): U32 {
    (base + p) % MOD
  }

  lemma ModSum(a: int, b: int)
    ensures (a % MOD + b) % MOD == (a + b) % MOD
  {
  }

  lemma ImagePlus(base: U32, p: int, n: int)
    ensures Plus(Image(base, p), n) == Image(base, p + n)
  {
    ModSum(base + p, n);
  }

  lemma ImageMinus(base: U32, p: int, q: int)
    ensures Minus(Image(base, p), Image(base, q)) == (p - q) % MOD
  {
    var a, b := base + p, base + q;
    assert (a % MOD - b % MOD) % MOD == (a - b) % MOD;
  }

  lemma PlusForm(a: U32, n: int)
    requires 0 <= n < MOD
    ensures Plus(a, n) == if a + n < MOD then a + n else a + n - MOD
  {
  }

  lemma MinusForm(a: U32, b: U32)
    ensures Minus(a, b) == if a >= b then a - b else a - b + MOD
  {
  }

  lemma MinusPlus(a: U32, b: U32, n: int)
    requires 0 <= n && Minus(a, b) + n < MOD
    ensures Minus(Plus(a, n), b) == Minus(a, b) + n
  {
    hide Plus, Minus;
    MinusForm(a, b);
    PlusForm(a, n);
    MinusForm(Plus(a, n), b);
  }

  // Within half the number space the signed difference is the true distance.
  lemma ImageDiff(base: U32, p: int, q: int)
    requires -HALF <= p - q < HALF
    ensures Diff(Image(base, p), Image(base, q)) == p - q
    ensures After(Image(base, p), Image(base, q)) <==> p > q
    ensures Before(Image(base, p), Image(base, q)) <==> p < q
    ensures Image(base, p) == Image(base, q) <==> p == q
  {
    ImageMinus(base, p, q);
  }

  // Every number is the image of the position its signed difference points at.
  lemma DiffImage(base: U32, a: U32, q: int)
    ensures a == Image(base, q + Diff(a, Image(base, q)))
    ensures -HALF <= Diff(a, Image(base, q)) < HALF
  {
    var b := Image(base, q);
    var d := Diff(a, b);
    assert (b + d) % MOD == a;
    ModSum(base + q, d);
  }

  lemma SmallMod(d: int)
    requires 0 <= d < MOD
    ensures d % MOD == d
  {
  }

  lemma ImageDistance(base: U32, p: int, q: int)
    requires 0 <= p - q < MOD
    ensures Minus(Image(base, p), Image(base, q)) == p - q
  {
    hide Image, Minus;
    ImageMinus(base, p, q);
    SmallMod(p - q);
  }

  // A number after that of u and not after that of u + n is the number of a position between.
  lemma Between(base: U32, u: int, n: int, x: U32) returns (a: int)
    requires 0 <= n < HALF && After(x, Image(base, u)) && !After(x, Image(base, u + n))
    ensures u < a <= u + n && x == Image(base, a)
    ensures Minus(x, Image(base, u)) == a - u && Minus(Image(base, u + n), x) == u + n - a
  {
    hide Image, Minus, Diff;
    DiffImage(base, x, u);
    a := u + Diff(x, Image(base, u));
    ImageDiff(base, a, u + n);
    ImageDistance(base, a, u);
    ImageDistance(base, u + n, a);
  }
}

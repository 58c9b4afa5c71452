// The Internet checksum of net/net.c and its use on IPv4 headers.
module Checksum {
  import opened Basics

  const WORD: int := 0x1_0000
  const ONES: int := 0xFFFF
  const MOD: int := 0x1_0000_0000

  // The sum of the 16-bit big-endian words; an odd last byte counts as the high half of one.
  function Sum(b: seq<Byte>): nat {
    if b == [] then 0
    else if |b| == 1 then b[0] as int * 256
    else b[0] as int * 256 + b[1] + Sum(b[2..])
  }

  // The loop that adds the carries back in.
  function Fold(s: nat): (r: nat)
    ensures r <= ONES
  {
    if s < WORD then s else Fold(s / WORD + s % WORD)
  }

  // ip_checksum and ip_checksum_pseudo: init is the sum of the pseudo header, 0 without one.
  // The accumulator has 32 bits.
  function Check(init: nat, b: seq<Byte>): (r: nat)
    ensures r <= ONES
  {
    ONES - Fold((init + Sum(b)) % MOD)
  }

  // ---- folding ----

  // Folding keeps the residue modulo 65535, and only zero folds to zero.
  lemma {:induction false} FoldResidue(s: nat)
    ensures Fold(s) % ONES == s % ONES
    ensures Fold(s) == 0 <==> s == 0
  {
    if s >= WORD {
      var q, r := s / WORD, s % WORD;
      FoldResidue(q + r);
      assert s == q + r + ONES * q;
      AddMultiple(q + r, q);
    }
  }

  lemma AddMultiple(x: nat, k: nat)
    ensures (x + ONES * k) % ONES == x % ONES
  {
    var d := x / ONES;
    assert x == d * ONES + x % ONES;
    assert x + ONES * k == (d + k) * ONES + x % ONES;
    Residue(x + ONES * k, d + k, x % ONES);
  }

  lemma Residue(x: nat, q: nat, r: nat)
    requires x == q * ONES + r && r < ONES
    ensures x % ONES == r
  {
  }

  // So the check value is 0 exactly for a nonzero sum divisible by 65535.
  lemma CheckZero(init: nat, b: seq<Byte>)
    requires init + Sum(b) < MOD
    ensures Check(init, b) == 0 <==> init + Sum(b) > 0 && (init + Sum(b)) % ONES == 0
  {
    FoldResidue(init + Sum(b));
    var f := Fold(init + Sum(b));
    assert f % ONES == 0 <==> f == 0 || f == ONES;
  }

  lemma CheckIs(init: nat, b: seq<Byte>)
    requires init + Sum(b) < MOD
    ensures Check(init, b) == ONES - Fold(init + Sum(b))
  {
    hide Sum, Fold;
  }

  // ---- sums ----

  lemma {:induction false} SumBound(b: seq<Byte>)
    ensures Sum(b) <= (|b| + 1) / 2 * ONES
  {
    if |b| > 1 { SumBound(b[2..]); }
  }

  lemma {:induction false} SumSplit(a: seq<Byte>, b: seq<Byte>)
    requires |a| % 2 == 0
    ensures Sum(a + b) == Sum(a) + Sum(b)
  {
    if a == [] {
      assert a + b == b;
    } else {
      SumSplit(a[2..], b);
      assert (a + b)[2..] == a[2..] + b;
    }
  }

  function Word(b: seq<Byte>, k: nat): (r: nat)
    requires k + 1 < |b|
    ensures r <= ONES
  {
    b[k] as int * 256 + b[k + 1]
  }

  // Write a 16-bit value big-endian at k.
  function Put(b: seq<Byte>, k: nat, w: nat): (r: seq<Byte>)
    requires k + 1 < |b| && w <= ONES
    ensures |r| == |b| && Word(r, k) == w
  {
    b[k := w / 256][k + 1 := w % 256]
  }

  // Changing one aligned word changes the sum by the difference.
  lemma SumPut(b: seq<Byte>, k: nat, w: nat)
    requires k % 2 == 0 && k + 1 < |b| && w <= ONES
    ensures Sum(Put(b, k, w)) == Sum(b) - Word(b, k) + w
    ensures Sum(b) >= Word(b, k)
  {
    hide Sum, Put, Word;
    SumAt(b, k);
    SumAt(Put(b, k, w), k);
    PutParts(b, k, w);
  }

  lemma SumAt(b: seq<Byte>, k: nat)
    requires k % 2 == 0 && k + 1 < |b|
    ensures Sum(b) == Sum(b[..k]) + Word(b, k) + Sum(b[k + 2..])
  {
    hide Sum;
    var y := b[k..k + 2];
    assert b == b[..k] + (y + b[k + 2..]);
    SumSplit(b[..k], y + b[k + 2..]);
    SumSplit(y, b[k + 2..]);
    OneWord(y);
  }

  lemma PutParts(b: seq<Byte>, k: nat, w: nat)
    requires k + 1 < |b| && w <= ONES
    ensures Put(b, k, w)[..k] == b[..k] && Put(b, k, w)[k + 2..] == b[k + 2..]
  {
  }

  lemma OneWord(y: seq<Byte>)
    requires |y| == 2
    ensures Sum(y) == Word(y, 0)
  {
    assert y[2..] == [];
  }

  // ---- the round trip ----

  // For every content with a zero checksum field at an even place: storing the check value
  // there makes the check over the same bytes 0.
  lemma RoundTrip(init: nat, b: seq<Byte>, k: nat)
    requires init + Sum(b) + ONES < MOD && k % 2 == 0 && k + 1 < |b| && Word(b, k) == 0
    ensures Check(init, Put(b, k, Check(init, b))) == 0
  {
    hide Sum, Fold, Put, Check;
    var s := init + Sum(b);
    var w := Check(init, b);
    CheckIs(init, b);
    SumPut(b, k, w);
    FoldResidue(s);
    Complement(s, Fold(s));
    CheckZero(init, Put(b, k, w));
  }

  lemma Complement(s: nat, f: nat)
    requires f <= ONES && f % ONES == s % ONES && (f == 0 <==> s == 0)
    ensures (s + (ONES - f)) % ONES == 0 && s + (ONES - f) > 0
  {
    var q, r := s / ONES, s % ONES;
    assert s == q * ONES + r;
    if f == ONES {
      assert r == 0;
      Residue(s + (ONES - f), q, 0);
    } else {
      assert f == r;
      Residue(s + (ONES - f), q + 1, 0);
    }
  }

  // What the check catches: altering one aligned word of an accepted header goes unnoticed
  // exactly when the word changes between its two zeros, 0x0000 and 0xFFFF, or not at all,
  // and the header does not become all zero.
  lemma DetectsWord(init: nat, b: seq<Byte>, k: nat, w: nat)
    requires init + Sum(b) + ONES < MOD && k % 2 == 0 && k + 1 < |b| && w <= ONES && Check(init, b) == 0
    ensures Check(init, Put(b, k, w)) == 0 <==>
              w == Word(b, k) || (w == ONES && Word(b, k) == 0)
                || (w == 0 && Word(b, k) == ONES && init + Sum(b) > ONES)
  {
    hide Sum, Put, Word, Check;
    SumPut(b, k, w);
    CheckZero(init, b);
    CheckZero(init, Put(b, k, w));
    var s, v := init + Sum(b), Word(b, k);
    Shift(s, v, w);
  }

  lemma Shift(s: nat, v: nat, w: nat)
    requires s % ONES == 0 && v <= s && v <= ONES && w <= ONES
    ensures (s - v + w) % ONES == 0 <==> v == w || (v == 0 && w == ONES) || (v == ONES && w == 0)
  {
    var q := s / ONES;
    assert s == q * ONES;
    var d := w - v;
    if d == 0 || d == ONES || d == -ONES {
      Residue(s + d, if d == 0 then q else if d == ONES then q + 1 else q - 1, 0);
    } else if d > 0 {
      Residue(s + d, q, d);
    } else {
      assert q >= 1;
      Residue(s + d, q - 1, ONES + d);
    }
  }

  // ---- as it runs ----

  // ip_checksum, with init != 0 the tail of ip_checksum_pseudo
  method IpChecksum(init: nat, b: seq<Byte>) returns (r: nat)
    requires init < MOD
    ensures r == Check(init, b)
  {
    hide Sum, Fold;
    var sum: nat := init;
    var i := 0;
    assert b[0..] == b;
    while |b| - i > 1
      invariant 0 <= i <= |b| && 0 <= sum < MOD
      invariant (sum + Sum(b[i..])) % MOD == (init + Sum(b)) % MOD
    {
      var w: nat := b[i] as int * 256 + b[i + 1];
      SumStep(b, i);
      Wrap(sum + w, Sum(b[i + 2..]));
      sum := (sum + w) % MOD;
      i := i + 2;
    }
    if |b| - i == 1 {
      var w: nat := b[i] as int * 256;
      SumLast(b, i);
      Wrap(sum + w, 0);
      sum := (sum + w) % MOD;
    } else {
      SumNone(b, i);
    }
    assert sum == (init + Sum(b)) % MOD;
    ghost var total := sum;
    while sum >= WORD
      invariant 0 <= sum && Fold(sum) == Fold(total)
      decreases sum
    {
      FoldStep(sum);
      sum := sum / WORD + sum % WORD;
    }
    FoldStep(sum);
    r := ONES - sum;
  }

  lemma FoldStep(s: nat)
    ensures if s < WORD then Fold(s) == s else Fold(s) == Fold(s / WORD + s % WORD)
  {
  }

  lemma SumStep(b: seq<Byte>, i: nat)
    requires i + 1 < |b|
    ensures Sum(b[i..]) == b[i] as int * 256 + b[i + 1] + Sum(b[i + 2..])
  {
    assert b[i..][2..] == b[i + 2..];
  }

  lemma SumLast(b: seq<Byte>, i: nat)
    requires i + 1 == |b|
    ensures Sum(b[i..]) == b[i] as int * 256
  {
  }

  lemma SumNone(b: seq<Byte>, i: nat)
    requires i == |b|
    ensures Sum(b[i..]) == 0
  {
  }

  lemma Wrap(x: nat, y: nat)
    ensures (x % MOD + y) % MOD == (x + y) % MOD
  {
  }

  const IP_HEADER: nat := 20
  const CSUM_AT: nat := 10

  // end_ip on the frame: total length and checksum go into the header at place h, whose
  // checksum field begin_ip left zero; ip_handle's check then passes.
  method EndIp(f: array<Byte>, h: nat, seglen: nat)
    requires h + IP_HEADER <= f.Length && f[h + CSUM_AT] == 0 && f[h + CSUM_AT + 1] == 0
    modifies f
    ensures Check(0, f[h..h + IP_HEADER]) == 0
    ensures Word(f[h..h + IP_HEADER], 2) == (IP_HEADER + seglen) % WORD
    ensures forall i: nat | i < f.Length && i - h !in {2, 3, CSUM_AT, CSUM_AT + 1} :: f[i] == old(f[i])
  {
    var len := (IP_HEADER + seglen) % WORD;
    f[h + 2], f[h + 3] := len / 256, len % 256;
    ghost var b := f[h..h + IP_HEADER];
    assert Word(b, CSUM_AT) == 0;
    SumBound(b);
    RoundTrip(0, b, CSUM_AT);
    var c := IpChecksum(0, f[h..h + IP_HEADER]);
    f[h + CSUM_AT], f[h + CSUM_AT + 1] := c / 256, c % 256;
    assert f[h..h + IP_HEADER] == Put(b, CSUM_AT, c);
  }
}

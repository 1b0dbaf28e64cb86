/** Bit strings, most significant bit first, the numbers they spell, and the
    shift and mask operators of the C sources.  The operators are defined by
    recursion on the shift count, one bit at a time. */
module BitSeq {

  /** `x << k` on unbounded numbers. */
  function Shl(x: int, k: nat): (r: int)
    ensures x >= 0 ==> r >= x
    decreases k, x
  {
    if k == 0 then x else 2 * Shl(x, k - 1)
  }

  /** `x >> k`; like C's arithmetic shift it rounds towards minus infinity. */
  function Shr(x: int, k: nat): (r: int)
    ensures x >= 0 ==> 0 <= r <= x
    decreases k, x
  {
    if k == 0 then x else Shr(x / 2, k - 1)
  }

  /** The `k` low bits of `x`. */
  function Low(x: int, k: nat): (r: nat)
    decreases k, x
  {
    if k == 0 then 0 else 2 * Low(x / 2, k - 1) + x % 2
  }

  function Pow2(n: nat): (p: nat)
    ensures p > 0
  {
    Shl(1, n)
  }

  /** The number a bit string spells. */
  function Val(s: seq<bool>): nat
  {
    if s == [] then 0 else 2 * Val(s[..|s| - 1]) + (if s[|s| - 1] then 1 else 0)
  }

  /** The `n` low bits of `v`, as a bit string. */
  function Bin(v: nat, n: nat): (s: seq<bool>)
    ensures |s| == n
  {
    if n == 0 then [] else Bin(v / 2, n - 1) + [v % 2 == 1]
  }

  function Zeros(n: nat): (s: seq<bool>)
    ensures |s| == n
  {
    seq(n, _ => false)
  }

  /** The first `n` bits of `s` followed by zeros without end. */
  function Take(s: seq<bool>, n: nat): (r: seq<bool>)
    ensures |r| == n
  {
    if n <= |s| then s[..n] else s + Zeros(n - |s|)
  }

  /** What is left of `s` once `n` bits are gone. */
  function Drop(s: seq<bool>, n: nat): (r: seq<bool>)
  {
    if n <= |s| then s[n..] else []
  }

  lemma Pow2Values()
    ensures Pow2(0) == 1 && Pow2(1) == 2 && Pow2(2) == 4 && Pow2(3) == 8 && Pow2(4) == 16
    ensures Pow2(5) == 32 && Pow2(6) == 64 && Pow2(7) == 128 && Pow2(8) == 256 && Pow2(9) == 512
    ensures Pow2(15) == 0x8000 && Pow2(16) == 0x1_0000
  {
    assert Shl(1, 4) == 16;
    assert Shl(1, 8) == 256;
    assert Shl(1, 12) == 4096;
    assert Shl(1, 15) == 0x8000;
  }

  lemma {:induction false} ShlAdd(x: int, y: int, k: nat)
    ensures Shl(x + y, k) == Shl(x, k) + Shl(y, k)
  {
    if k > 0 { ShlAdd(x, y, k - 1); }
  }

  lemma {:induction false} ShlDouble(x: int, k: nat)
    ensures Shl(2 * x, k) == 2 * Shl(x, k) == Shl(x, k + 1)
  {
    if k > 0 { ShlDouble(x, k - 1); }
  }

  lemma {:induction false} ShlMono(x: int, y: int, k: nat)
    ensures x < y <==> Shl(x, k) < Shl(y, k)
  {
    if k > 0 { ShlMono(x, y, k - 1); }
  }

  lemma {:induction false} Pow2Mono(a: nat, b: nat)
    requires a <= b
    ensures Pow2(a) <= Pow2(b)
    decreases b - a
  {
    if a < b { Pow2Mono(a, b - 1); }
  }

  /** A shift right keeps what was above the bits shifted out. */
  lemma {:induction false} ShrSplit(x: int, v: nat, k: nat)
    requires v < Pow2(k)
    ensures Shr(Shl(x, k) + v, k) == x && Low(Shl(x, k) + v, k) == v
  {
    if k > 0 {
      ShrSplit(x, v / 2, k - 1);
      assert (Shl(x, k) + v) / 2 == Shl(x, k - 1) + v / 2;
    }
  }

  lemma {:induction false} ShrLow(x: int, k: nat)
    ensures x == Shl(Shr(x, k), k) + Low(x, k) && Low(x, k) < Pow2(k)
    decreases k
  {
    if k > 0 { ShrLow(x / 2, k - 1); }
  }

  lemma {:induction false} ValBound(s: seq<bool>)
    ensures Val(s) < Pow2(|s|)
  {
    if s != [] { ValBound(s[..|s| - 1]); }
  }

  lemma {:induction false} ValConcat(a: seq<bool>, b: seq<bool>)
    ensures Val(a + b) == Shl(Val(a), |b|) + Val(b)
    decreases |b|
  {
    if b == [] {
      assert a + b == a;
    } else {
      var b' := b[..|b| - 1];
      assert (a + b)[..|a + b| - 1] == a + b';
      ValConcat(a, b');
    }
  }

  /** Cutting a bit string in two is shifting and masking its value. */
  lemma ValCut(a: seq<bool>, b: seq<bool>)
    ensures Val(a) == Shr(Val(a + b), |b|) && Val(b) == Low(Val(a + b), |b|)
  {
    ValConcat(a, b);
    ValBound(b);
    ShrSplit(Val(a), Val(b), |b|);
  }

  lemma {:induction false} ValZeros(n: nat)
    ensures Val(Zeros(n)) == 0
  {
    if n > 0 {
      ValZeros(n - 1);
      assert Zeros(n)[..n - 1] == Zeros(n - 1);
    }
  }

  lemma {:induction false} ValBin(v: nat, n: nat)
    requires v < Pow2(n)
    ensures Val(Bin(v, n)) == v
  {
    if n > 0 {
      ValBin(v / 2, n - 1);
      assert Bin(v, n)[..n - 1] == Bin(v / 2, n - 1);
    }
  }

  lemma {:induction false} BinVal(s: seq<bool>)
    ensures Bin(Val(s), |s|) == s
  {
    if s != [] {
      BinVal(s[..|s| - 1]);
      assert s == s[..|s| - 1] + [s[|s| - 1]];
    }
  }

  /** The cast to `int16_t`. */
  function Int16(x: int): (r: int)
    ensures -0x8000 <= r < 0x8000
    ensures -0x8000 <= x < 0x8000 ==> r == x
  {
    (x + 0x8000) % 0x1_0000 - 0x8000
  }

  /** The cast to `int32_t`. */
  function Int32(x: int): (r: int)
    ensures -0x8000_0000 <= r < 0x8000_0000
    ensures -0x8000_0000 <= x < 0x8000_0000 ==> r == x
  {
    (x + 0x8000_0000) % 0x1_0000_0000 - 0x8000_0000
  }
}

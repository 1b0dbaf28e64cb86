/** The coder of section G.1.2 of ITU-T T.81 and the proof that the progressive
    decoder undoes it: a first scan at bit position `a` followed by refinements
    down to 0 restores every coefficient of the band, however the coder groups
    its end-of-band runs. */
module ProgressiveCoder {
  import opened BitSeq
  import opened BitReader
  import opened Huffman
  import opened Progressive

  // ---- tokens ---------------------------------------------------------------

  /** What a coder emits: Huffman-coded symbols and plain bits. */
  datatype Token = Sym(sym: nat) | Raw(bits: seq<bool>)

  ghost predicate Names(c: Code, sym: nat, l: nat, i: nat)
    requires c.WellFormed() && c.Feasible()
  {
    c.IsWord(l, i) && (CountMono(c, l + 1, 17); c.Sym(l, i)) == sym
  }

  ghost predicate Has(c: Code, sym: nat)
    requires c.WellFormed() && c.Feasible()
  {
    exists l, i :: Names(c, sym, l, i)
  }

  /** A code word for `sym`. */
  ghost function WordFor(c: Code, sym: nat): (w: seq<bool>)
    requires c.WellFormed() && c.Feasible() && Has(c, sym)
  {
    var l, i :| Names(c, sym, l, i);
    c.Word(l, i)
  }

  ghost predicate Covers(c: Code, ts: seq<Token>)
    requires c.WellFormed() && c.Feasible()
  {
    forall i :: 0 <= i < |ts| && ts[i].Sym? ==> Has(c, ts[i].sym)
  }

  ghost function Bits(c: Code, ts: seq<Token>): (b: seq<bool>)
    requires c.WellFormed() && c.Feasible() && Covers(c, ts)
  {
    if ts == [] then [] else
      (match ts[0] case Sym(s) => WordFor(c, s) case Raw(b) => b) + Bits(c, ts[1..])
  }

  lemma {:induction false} BitsConcat(c: Code, ts: seq<Token>, us: seq<Token>)
    requires c.WellFormed() && c.Feasible() && Covers(c, ts) && Covers(c, us)
    ensures Covers(c, ts + us) && Bits(c, ts + us) == Bits(c, ts) + Bits(c, us)
    decreases |ts|
  {
    hide Has, Code.WellFormed, Code.Feasible, WordFor, Covers, Bits;
    if ts == [] {
      assert ts + us == us;
      BitsNone(c);
      assert [] + Bits(c, us) == Bits(c, us);
    } else {
      CoversJoin(c, ts, us);
      BitsFirst(c, ts);
      BitsFirst(c, ts + us);
      BitsConcat(c, ts[1..], us);
      assert (ts + us)[1..] == ts[1..] + us;
    }
  }

  lemma BitsNone(c: Code)
    requires c.WellFormed() && c.Feasible()
    ensures Covers(c, []) && Bits(c, []) == []
  {
  }

  lemma BitsFirst(c: Code, ts: seq<Token>)
    requires c.WellFormed() && c.Feasible() && Covers(c, ts) && ts != []
    ensures Covers(c, ts[1..]) && (ts[0].Sym? ==> Has(c, ts[0].sym))
    ensures ts[0].Sym? ==> Bits(c, ts) == WordFor(c, ts[0].sym) + Bits(c, ts[1..])
    ensures ts[0].Raw? ==> Bits(c, ts) == ts[0].bits + Bits(c, ts[1..])
  {
    hide Has, Code.WellFormed, Code.Feasible, WordFor;
  }

  lemma CoversJoin(c: Code, ts: seq<Token>, us: seq<Token>)
    requires c.WellFormed() && c.Feasible() && Covers(c, ts) && Covers(c, us)
    ensures Covers(c, ts + us)
  {
    hide Has, Code.WellFormed, Code.Feasible;
  }

  /** The decoder reads a coded symbol back and stands right behind it. */
  lemma SymbolBack(c: Code, sym: nat, more: seq<bool>)
    requires c.WellFormed() && c.Feasible() && Has(c, sym)
    ensures Symbol(c, Stream(WordFor(c, sym) + more, false)) == (sym, Stream(more, false))
  {
    var l: nat, i: nat :| Names(c, sym, l, i) && WordFor(c, sym) == c.Word(l, i);
    var bits := c.Word(l, i) + more;
    var w := Take(bits, 16);
    assert c.Word(l, i) <= w;
    FindIffPrefix(c, w, l, i);
    CountMono(c, l + 1, 17);
    assert Drop(bits, l) == more;
  }

  lemma BitsBack(v: nat, n: nat, more: seq<bool>)
    requires v < Pow2(n)
    ensures GetBits(Stream(Bin(v, n) + more, false), n) == (v, Stream(more, false))
  {
    ValBin(v, n);
    assert Take(Bin(v, n) + more, n) == Bin(v, n);
    assert Drop(Bin(v, n) + more, n) == more;
  }

  lemma BitBack(bit: bool, more: seq<bool>)
    ensures GetBits(Stream([bit] + more, false), 1) == (if bit then 1 else 0, Stream(more, false))
  {
    Pow2Values();
    BitsBack(if bit then 1 else 0, 1, more);
    assert Bin(if bit then 1 else 0, 1) == [bit];
  }

  // ---- signed magnitudes ----------------------------------------------------

  function Abs(x: int): nat { if x < 0 then -x else x }

  /** The magnitude of `x` without its `a` low bits. */
  function Mag(x: int, a: nat): nat { Shr(Abs(x), a) }

  function Signed(x: int, m: nat): int { if x < 0 then -(m as int) else m }

  /** What is known of `x` once bits `a` and up have been sent. */
  function Approx(x: int, a: nat): int { Signed(x, Shl(Mag(x, a), a)) }

  /** The number of bits in `m` (SSSS of section F.1.2.1.2). */
  function Size(m: nat): (n: nat)
    ensures m < Pow2(n) && (m > 0 ==> n > 0 && Pow2(n - 1) <= m)
  {
    if m == 0 then 0 else Size(m / 2) + 1
  }

  /** The additional bits of a nonzero value. */
  function Extra(v: int): (b: seq<bool>)
  {
    var n := Size(Abs(v));
    if v > 0 then Bin(v, n) else Bin(Pow2(n) - 1 - Abs(v), n)
  }

  lemma ExtraBack(v: int, more: seq<bool>)
    requires v != 0
    ensures RecvExt(Stream(Extra(v) + more, false), Size(Abs(v))) == (v, Stream(more, false))
  {
    hide GetBits, Bin, Size;
    var n := Size(Abs(v));
    BitsBack(if v > 0 then v else Pow2(n) - 1 - Abs(v), n, more);
  }

  lemma {:induction false} SizeBound(m: nat, n: nat)
    requires m < Pow2(n)
    ensures Size(m) <= n
  {
    if m > 0 { SizeBound(m / 2, n - 1); }
  }

  /** Shifting one bit less brings in one more bit. */
  lemma {:induction false} MagStep(x: int, a: nat)
    ensures Mag(x, a + 1) == Mag(x, a) / 2
  {
    ShrShr(Abs(x), a, 1);
  }

  lemma ApproxRange(x: int, a: nat)
    ensures Abs(Approx(x, a)) <= Abs(x) && (Approx(x, a) == 0 <==> Mag(x, a) == 0)
    ensures Mag(x, a) > 0 ==> (Approx(x, a) > 0 <==> x > 0)
  {
    ShrLow(Abs(x), a);
    if Mag(x, a) == 0 { ShlZero(a); }
  }

  /** Bit `a` of an approximation that still lacks it is clear. */
  lemma BitClear(x: int, a: nat)
    ensures Shr(Approx(x, a + 1), a) % 2 == 0
  {
    var m := Mag(x, a + 1);
    Pow2Values();
    ShlNeg(m, a + 1);
    ShlDouble(Signed(x, m), a);
    ShrSplit(2 * Signed(x, m), 0, a);
  }

  lemma {:induction false} ShlNeg(x: int, k: nat)
    ensures Shl(-x, k) == -Shl(x, k)
  {
    if k > 0 { ShlNeg(x, k - 1); }
  }

  /** One refinement step on a value already seen. */
  lemma ApproxStep(x: int, a: nat)
    ensures Approx(x, a) == Approx(x, a + 1) + (if Mag(x, a) % 2 == 1 then Unit(x >= 0, a) else 0)
  {
    MagStep(x, a);
    var m := Mag(x, a + 1);
    ShlDouble(m, a);
    ShlAdd(2 * m, Mag(x, a) % 2, a);
    ShlZero(a);
  }

  // ---- one block ------------------------------------------------------------

  /** A coefficient the scan makes known for the first time. */
  predicate IsNew(sc: Scan, x: int)
  {
    if sc.refine then Mag(x, sc.al) == 1 else Mag(x, sc.al) > 0
  }

  /** A coefficient known to be nonzero from earlier scans. */
  predicate IsOld(sc: Scan, x: int)
  {
    sc.refine && Mag(x, sc.al) > 1
  }

  /** What the decoder holds for `x` before and after the scan. */
  function Prior(sc: Scan, x: int): int
  {
    if sc.refine then Approx(x, sc.al + 1) else 0
  }

  function Target(sc: Scan, x: int): int
  {
    Approx(x, sc.al)
  }

  ghost predicate More(sc: Scan, x: Block, k: nat)
    requires sc.Valid()
  {
    exists j :: k <= j <= sc.se && IsNew(sc, x[j])
  }

  /** The next new coefficient from `k`, unless `r` zeros come before another. */
  ghost function Stop(sc: Scan, x: Block, k: nat, r: nat): (j: nat)
    requires sc.Valid() && More(sc, x, k)
    ensures k <= j <= sc.se && !IsOld(sc, x[j])
    ensures IsNew(sc, x[j]) || Plain(sc, x, k, j) == r
    ensures Plain(sc, x, k, j) <= r
    ensures forall i :: k <= i < j ==> !IsNew(sc, x[i])
    decreases 64 - k
  {
    if IsNew(sc, x[k]) then k
    else if IsOld(sc, x[k]) then Stop(sc, x, k + 1, r)
    else if r == 0 then k
    else Stop(sc, x, k + 1, r - 1)
  }

  /** How many coefficients in `k..j` the decoder still holds as zero. */
  function Plain(sc: Scan, x: Block, k: nat, j: nat): (n: nat)
    requires j <= 64
    decreases 64 - k
  {
    if k >= j then 0 else (if IsOld(sc, x[k]) then 0 else 1) + Plain(sc, x, k + 1, j)
  }

  /** The correction bits of the old coefficients in `k..j`. */
  function Corr(sc: Scan, x: Block, k: nat, j: nat): (b: seq<bool>)
    requires j <= 64
    decreases 64 - k
  {
    if k >= j then []
    else (if IsOld(sc, x[k]) then [Mag(x[k], sc.al) % 2 == 1] else []) + Corr(sc, x, k + 1, j)
  }

  /** The symbol and bits for the coefficient `v` after `r` zeros. */
  function NewTokens(sc: Scan, v: int, r: nat): (ts: seq<Token>)
  {
    if sc.refine then [Sym(16 * r + 1), Raw([v >= 0])]
    else [Sym(16 * r + Size(Mag(v, sc.al))), Raw(Extra(Signed(v, Mag(v, sc.al))))]
  }

  /** One symbol of a block with what follows it, up to the place `j`. */
  ghost function StepTokens(sc: Scan, x: Block, k: nat, j: nat): (ts: seq<Token>)
    requires j < 64
  {
    (if IsNew(sc, x[j]) then NewTokens(sc, x[j], Plain(sc, x, k, j)) else [Sym(0xF0)])
    + [Raw(Corr(sc, x, k, j))]
  }

  /** The symbols of a block from `k` to its last new coefficient. */
  ghost function HeadTokens(sc: Scan, x: Block, k: nat): (ts: seq<Token>)
    requires sc.Valid()
    decreases 64 - k
  {
    if !More(sc, x, k) then [] else
      var j := Stop(sc, x, k, 15);
      StepTokens(sc, x, k, j) + HeadTokens(sc, x, j + 1)
  }

  /** Where those symbols end. */
  ghost function EndPos(sc: Scan, x: Block, k: nat): (e: nat)
    requires sc.Valid() && k <= sc.se + 1
    ensures k <= e <= sc.se + 1 && !More(sc, x, e)
    decreases 64 - k
  {
    if !More(sc, x, k) then k else EndPos(sc, x, Stop(sc, x, k, 15) + 1)
  }

  /** A block with the coefficients `k..j` brought to the scan's level. */
  function Fill(sc: Scan, x: Block, z: Block, k: nat, j: nat): (r: Block)
  {
    seq(64, i requires 0 <= i < 64 => if k <= i < j then Target(sc, x[i]) else z[i])
  }

  /** The decoder's block `z` is where earlier scans left `x`, from `k` on. */
  ghost predicate Ready(sc: Scan, x: Block, z: Block, k: nat)
    requires sc.Valid()
  {
    forall i :: k <= i <= sc.se ==> z[i] == Prior(sc, x[i])
  }

  /** Coefficients fit the decoder's 16 bits and the four bits of SSSS. */
  ghost predicate Codable(sc: Scan, x: Block)
    requires sc.Valid()
  {
    forall i :: sc.ss <= i <= sc.se ==>
      -0x8000 <= x[i] < 0x8000 && (sc.refine || Mag(x[i], sc.al) < 0x8000)
  }

  lemma Kinds(sc: Scan, x: int)
    ensures IsOld(sc, x) <==> Prior(sc, x) != 0
    ensures !IsOld(sc, x) && !IsNew(sc, x) ==> Target(sc, x) == 0
    ensures IsNew(sc, x) && sc.refine ==> Target(sc, x) == Unit(x >= 0, sc.al)
    ensures IsNew(sc, x) && !sc.refine ==> Target(sc, x) == Shl(Signed(x, Mag(x, sc.al)), sc.al)
  {
    MagStep(x, sc.al);
    ApproxRange(x, sc.al);
    ApproxRange(x, sc.al + 1);
    ShlNeg(Mag(x, sc.al), sc.al);
  }

  lemma CorrectBack(sc: Scan, x: int, z: Block, k: nat, more: seq<bool>)
    requires sc.Valid() && k < 64 && IsOld(sc, x) && z[k] == Prior(sc, x) && -0x8000 <= x < 0x8000
    ensures Correct(Stream([Mag(x, sc.al) % 2 == 1] + more, false), z, k, sc.al)
      == (z[k := Target(sc, x)], Stream(more, false))
  {
    hide Shr, Shl, GetBits, Mag;
    BitBack(Mag(x, sc.al) % 2 == 1, more);
    ApproxStep(x, sc.al);
    BitClear(x, sc.al);
    ApproxRange(x, sc.al);
    MagStep(x, sc.al);
    ApproxRange(x, sc.al + 1);
    assert z[k] >= 0 <==> x >= 0;
    assert z[k := z[k]] == z;
  }

  lemma FillStep(sc: Scan, x: Block, z: Block, k: nat, j: nat)
    requires k < j <= 64
    ensures Fill(sc, x, z[k := Target(sc, x[k])], k + 1, j) == Fill(sc, x, z, k, j)
  {
  }

  lemma FillJoin(sc: Scan, x: Block, z: Block, a: nat, b: nat, e: nat)
    requires a <= b <= e <= 64
    ensures Fill(sc, x, Fill(sc, x, z, a, b), b, e) == Fill(sc, x, z, a, e)
  {
  }

  lemma SkipStep(sc: Scan, x: Block, z: Block, k: nat, j: nat)
    requires k < j <= 64 && z[k] == Target(sc, x[k])
    ensures Fill(sc, x, z, k + 1, j) == Fill(sc, x, z, k, j)
  {
  }

  /** The walk to the next symbol's place applies the corrections on its way. */
  lemma {:induction false} WalkBack(sc: Scan, x: Block, z: Block, k: nat, j: nat, more: seq<bool>)
    requires sc.Valid() && sc.refine && Codable(sc, x) && sc.ss <= k <= j <= sc.se && Ready(sc, x, z, k)
    requires !IsOld(sc, x[j]) && forall i :: k <= i < j ==> !IsNew(sc, x[i])
    ensures Walk(Stream(Corr(sc, x, k, j) + more, false), z, k, sc.se, Plain(sc, x, k, j), sc.al)
      == (Fill(sc, x, z, k, j), Stream(more, false), j)
    decreases j - k
  {
    hide Shr, Shl, GetBits, Mag, Target, Prior, IsOld, IsNew, Correct, Fill;
    Kinds(sc, x[k]);
    if k == j {
      assert [] + more == more;
      FillNone(sc, x, z, k);
    } else if IsOld(sc, x[k]) {
      var bit := [Mag(x[k], sc.al) % 2 == 1];
      assert Corr(sc, x, k, j) + more == bit + (Corr(sc, x, k + 1, j) + more);
      CorrectBack(sc, x[k], z, k, Corr(sc, x, k + 1, j) + more);
      WalkBack(sc, x, z[k := Target(sc, x[k])], k + 1, j, more);
      FillStep(sc, x, z, k, j);
    } else {
      assert Corr(sc, x, k, j) == Corr(sc, x, k + 1, j);
      WalkBack(sc, x, z, k + 1, j, more);
      SkipStep(sc, x, z, k, j);
    }
  }

  lemma FillNone(sc: Scan, x: Block, z: Block, k: nat)
    ensures Fill(sc, x, z, k, k) == z
  {
  }

  /** Corrections of a block inside a run. */
  lemma {:induction false} TailBack(sc: Scan, x: Block, z: Block, k: nat, more: seq<bool>)
    requires sc.Valid() && Codable(sc, x) && sc.ss <= k <= sc.se + 1 && Ready(sc, x, z, k) && !More(sc, x, k)
    ensures Tail(sc, Stream(Corr(sc, x, k, sc.se + 1) + more, false), z, k)
      == (Fill(sc, x, z, k, sc.se + 1), Stream(more, false))
    decreases 64 - k
  {
    hide Shr, Shl, GetBits, Mag, Target, Prior, IsOld, IsNew, Correct, Fill;
    if k > sc.se {
      assert [] + more == more;
      FillNone(sc, x, z, k);
    } else {
      Kinds(sc, x[k]);
      assert !More(sc, x, k + 1);
      if IsOld(sc, x[k]) {
        assert sc.refine by { OldRefines(sc, x[k]); }
        var bit := [Mag(x[k], sc.al) % 2 == 1];
        assert Corr(sc, x, k, sc.se + 1) + more == bit + (Corr(sc, x, k + 1, sc.se + 1) + more);
        CorrectBack(sc, x[k], z, k, Corr(sc, x, k + 1, sc.se + 1) + more);
        TailBack(sc, x, z[k := Target(sc, x[k])], k + 1, more);
        FillStep(sc, x, z, k, sc.se + 1);
      } else {
        assert Corr(sc, x, k, sc.se + 1) == Corr(sc, x, k + 1, sc.se + 1);
        TailBack(sc, x, z, k + 1, more);
        SkipStep(sc, x, z, k, sc.se + 1);
      }
    }
  }

  lemma OldRefines(sc: Scan, x: int)
    requires IsOld(sc, x)
    ensures sc.refine
  {
  }

  lemma FillPut(sc: Scan, x: Block, z: Block, k: nat, j: nat)
    requires k <= j < 64
    ensures Put(Fill(sc, x, z, k, j), j, Target(sc, x[j])) == Fill(sc, x, z, k, j + 1)
  {
  }

  lemma FillRest(sc: Scan, x: Block, z: Block, k: nat, j: nat)
    requires k <= j < 64 && z[j] == Target(sc, x[j])
    ensures Fill(sc, x, z, k, j) == Fill(sc, x, z, k, j + 1)
  {
  }

  /** In a first scan every coefficient before the next new one is zero. */
  lemma {:induction false} FirstRun(sc: Scan, x: Block, z: Block, k: nat, j: nat)
    requires sc.Valid() && !sc.refine && k <= j <= sc.se + 1 && Ready(sc, x, z, k)
    requires forall i :: k <= i < j ==> !IsNew(sc, x[i])
    ensures Plain(sc, x, k, j) == j - k && Corr(sc, x, k, j) == [] && Fill(sc, x, z, k, j) == z
    decreases j - k
  {
    hide Mag, Target, Fill;
    if k < j {
      FirstRun(sc, x, z, k + 1, j);
      Kinds(sc, x[k]);
      SkipStep(sc, x, z, k, j);
    } else {
      FillNone(sc, x, z, k);
    }
  }

  lemma TwoTokens(c: Code, sym: nat, a: seq<bool>)
    requires c.WellFormed() && c.Feasible() && Has(c, sym)
    ensures Covers(c, [Sym(sym), Raw(a)]) && Bits(c, [Sym(sym), Raw(a)]) == WordFor(c, sym) + a
  {
    hide Has;
    var ts := [Sym(sym), Raw(a)];
    assert ts[1..] == [Raw(a)] && ts[1..][1..] == [];
    assert Bits(c, ts[1..]) == a + Bits(c, []);
  }

  lemma ThreeTokens(c: Code, sym: nat, a: seq<bool>, b: seq<bool>)
    requires c.WellFormed() && c.Feasible() && Has(c, sym)
    ensures Covers(c, [Sym(sym), Raw(a), Raw(b)])
    ensures Bits(c, [Sym(sym), Raw(a), Raw(b)]) == WordFor(c, sym) + a + b
  {
    hide Has;
    var ts := [Sym(sym), Raw(a), Raw(b)];
    assert ts[1..] == [Raw(a), Raw(b)] && ts[2..] == [Raw(b)];
    assert ts[1..][1..] == ts[2..] && ts[2..][1..] == [];
    assert Bits(c, ts[2..]) == b + Bits(c, []);
    assert Bits(c, ts[1..]) == a + Bits(c, ts[2..]);
  }

  /** A symbol of a refinement scan. */
  lemma RefineStep(c: Code, sc: Scan, x: Block, z: Block, k: nat, j: nat, more: seq<bool>)
    requires c.WellFormed() && c.Feasible() && sc.Valid() && sc.refine && Codable(sc, x)
    requires sc.ss <= k <= sc.se && Ready(sc, x, z, k) && More(sc, x, k) && j == Stop(sc, x, k, 15)
    requires Covers(c, StepTokens(sc, x, k, j))
    ensures Head(c, sc, Stream(Bits(c, StepTokens(sc, x, k, j)) + more, false), z, k)
      == Head(c, sc, Stream(more, false), Fill(sc, x, z, k, j + 1), j + 1)
  {
    hide Shr, Shl, GetBits, Mag, Symbol, Walk, Corr, Target, Prior, Has, WordFor, IsOld, IsNew, Fill, Unit, Plain, Stop, Head, Code.Feasible, Bits;
    var n := Plain(sc, x, k, j);
    var sym := if IsNew(sc, x[j]) then 16 * n + 1 else 0xF0;
    var corr := Corr(sc, x, k, j);
    var ts := StepTokens(sc, x, k, j);
    assert ts[0] == Sym(sym);
    WalkBack(sc, x, z, k, j, more);
    Kinds(sc, x[j]);
    if IsNew(sc, x[j]) {
      assert ts == [Sym(sym), Raw([x[j] >= 0]), Raw(corr)];
      ThreeTokens(c, sym, [x[j] >= 0], corr);
      assert WordFor(c, sym) + [x[j] >= 0] + corr + more == WordFor(c, sym) + ([x[j] >= 0] + (corr + more));
      SymbolBack(c, sym, [x[j] >= 0] + (corr + more));
      BitBack(x[j] >= 0, corr + more);
      FillPut(sc, x, z, k, j);
      UnfoldRefine(c, sc, Stream(Bits(c, ts) + more, false), z, k);
    } else {
      assert ts == [Sym(sym), Raw(corr)];
      TwoTokens(c, sym, corr);
      assert WordFor(c, sym) + corr + more == WordFor(c, sym) + (corr + more);
      SymbolBack(c, sym, corr + more);
      FillRest(sc, x, z, k, j);
      UnfoldRefine(c, sc, Stream(Bits(c, ts) + more, false), z, k);
    }
  }

  /** A new coefficient of a first scan. */
  lemma FirstNew(c: Code, sc: Scan, z: Block, k: nat, r: nat, x: int, more: seq<bool>)
    requires c.WellFormed() && c.Feasible() && sc.Valid() && !sc.refine && sc.ss <= k <= k + r <= sc.se && r <= 15
    requires IsNew(sc, x) && -0x8000 <= x < 0x8000 && Mag(x, sc.al) < 0x8000
    requires Has(c, 16 * r + Size(Mag(x, sc.al)))
    ensures Covers(c, NewTokens(sc, x, r))
    ensures Head(c, sc, Stream(Bits(c, NewTokens(sc, x, r)) + more, false), z, k)
      == Head(c, sc, Stream(more, false), Put(z, k + r, Target(sc, x)), k + r + 1)
  {
    hide Shr, Shl, RecvExt, Symbol, Has, Head, Code.Feasible, Code.WellFormed, Bits, Mag, Put, Size, Extra, Int16;
    var m := Mag(x, sc.al);
    var v := Signed(x, m);
    Kinds(sc, x);
    NewBack(c, 16 * r + Size(m), v, more);
    Pow2Values();
    SizeBound(m, 15);
    SixteenSplit(r, Size(m));
    ApproxRange(x, sc.al);
    UnfoldFirst(c, sc, Stream(Bits(c, NewTokens(sc, x, r)) + more, false), z, k);
  }

  lemma SixteenSplit(r: nat, n: nat)
    requires n < 16
    ensures (16 * r + n) / 16 == r && (16 * r + n) % 16 == n
  {
  }

  /** A symbol and the additional bits of `v` come back. */
  lemma NewBack(c: Code, sym: nat, v: int, more: seq<bool>)
    requires c.WellFormed() && c.Feasible() && Has(c, sym) && v != 0
    ensures var ts := [Sym(sym), Raw(Extra(v))];
      && Covers(c, ts)
      && var (got, s1) := Symbol(c, Stream(Bits(c, ts) + more, false));
      && got == sym && RecvExt(s1, Size(Abs(v))) == (v, Stream(more, false))
  {
    hide RecvExt, Symbol, Has, WordFor, Code.Feasible, Code.WellFormed, Bits, Size, Extra;
    TwoTokens(c, sym, Extra(v));
    assert WordFor(c, sym) + Extra(v) + more == WordFor(c, sym) + (Extra(v) + more);
    SymbolBack(c, sym, Extra(v) + more);
    ExtraBack(v, more);
  }

  lemma RawLast(c: Code, ts: seq<Token>)
    requires c.WellFormed() && c.Feasible() && Covers(c, ts + [Raw([])])
    ensures Covers(c, ts) && Bits(c, ts + [Raw([])]) == Bits(c, ts)
  {
    hide Has;
    forall i | 0 <= i < |ts| && ts[i].Sym? ensures Has(c, ts[i].sym) {
      assert (ts + [Raw([])])[i] == ts[i];
    }
    BitsConcat(c, ts, [Raw([])]);
    assert Bits(c, [Raw([])]) == [] + Bits(c, []);
  }

  /** A symbol of a first scan. */
  lemma FirstStep(c: Code, sc: Scan, x: Block, z: Block, k: nat, j: nat, more: seq<bool>)
    requires c.WellFormed() && c.Feasible() && sc.Valid() && !sc.refine && Codable(sc, x)
    requires sc.ss <= k <= sc.se && Ready(sc, x, z, k) && More(sc, x, k) && j == Stop(sc, x, k, 15)
    requires Covers(c, StepTokens(sc, x, k, j))
    ensures Head(c, sc, Stream(Bits(c, StepTokens(sc, x, k, j)) + more, false), z, k)
      == Head(c, sc, Stream(more, false), Fill(sc, x, z, k, j + 1), j + 1)
  {
    hide Shr, Shl, Corr, Target, Has, Fill, Plain, Stop, Head, Code.Feasible, Code.WellFormed, Bits, Mag, Put, Size, Extra, StepTokens, Covers;
    FirstRun(sc, x, z, k, j);
    Kinds(sc, x[j]);
    if IsNew(sc, x[j]) {
      NewStep(c, sc, x, z, k, j, more);
    } else {
      ZeroStep(c, sc, x, z, k, j, more);
    }
  }

  lemma NewStep(c: Code, sc: Scan, x: Block, z: Block, k: nat, j: nat, more: seq<bool>)
    requires c.WellFormed() && c.Feasible() && sc.Valid() && !sc.refine && Codable(sc, x)
    requires sc.ss <= k <= j <= sc.se && IsNew(sc, x[j]) && Plain(sc, x, k, j) == j - k <= 15
    requires Corr(sc, x, k, j) == [] && Fill(sc, x, z, k, j) == z && Covers(c, StepTokens(sc, x, k, j))
    ensures Head(c, sc, Stream(Bits(c, StepTokens(sc, x, k, j)) + more, false), z, k)
      == Head(c, sc, Stream(more, false), Fill(sc, x, z, k, j + 1), j + 1)
  {
    hide Shr, Shl, Symbol, Corr, Target, Has, WordFor, IsOld, Fill, Plain, Head, Code.Feasible, Code.WellFormed, Bits, Mag, Put, Size, Extra;
    var ts := StepTokens(sc, x, k, j);
    assert ts == NewTokens(sc, x[j], j - k) + [Raw([])];
    assert ts[0] == Sym(16 * (j - k) + Size(Mag(x[j], sc.al)));
    RawLast(c, NewTokens(sc, x[j], j - k));
    FirstNew(c, sc, z, k, j - k, x[j], more);
    FillPut(sc, x, z, k, j);
  }

  lemma ZeroStep(c: Code, sc: Scan, x: Block, z: Block, k: nat, j: nat, more: seq<bool>)
    requires c.WellFormed() && c.Feasible() && sc.Valid() && !sc.refine
    requires sc.ss <= k <= j <= sc.se && !IsNew(sc, x[j]) && j - k == 15 && z[j] == Target(sc, x[j])
    requires Corr(sc, x, k, j) == [] && Fill(sc, x, z, k, j) == z && Covers(c, StepTokens(sc, x, k, j))
    ensures Head(c, sc, Stream(Bits(c, StepTokens(sc, x, k, j)) + more, false), z, k)
      == Head(c, sc, Stream(more, false), Fill(sc, x, z, k, j + 1), j + 1)
  {
    hide Shr, Shl, Symbol, Corr, Target, Has, WordFor, IsNew, Fill, Plain, Head, Code.Feasible, Code.WellFormed, Bits, Mag, Put, Size, Extra;
    var ts := StepTokens(sc, x, k, j);
    assert ts == [Sym(0xF0), Raw([])] && ts[0] == Sym(0xF0);
    TwoTokens(c, 0xF0, []);
    assert WordFor(c, 0xF0) + [] + more == WordFor(c, 0xF0) + more;
    SymbolBack(c, 0xF0, more);
    FillRest(sc, x, z, k, j);
    UnfoldFirst(c, sc, Stream(Bits(c, ts) + more, false), z, k);
  }

  /** The decoder follows a block's symbols to where the coder stopped. */
  lemma {:induction false} HeadBack(c: Code, sc: Scan, x: Block, z: Block, k: nat, more: seq<bool>)
    requires c.WellFormed() && c.Feasible() && sc.Valid() && Codable(sc, x)
    requires sc.ss <= k <= sc.se + 1 && Ready(sc, x, z, k) && Covers(c, HeadTokens(sc, x, k))
    ensures Head(c, sc, Stream(Bits(c, HeadTokens(sc, x, k)) + more, false), z, k)
      == (var e := EndPos(sc, x, k); Head(c, sc, Stream(more, false), Fill(sc, x, z, k, e), e))
    decreases 64 - k
  {
    hide Has, Head, StepTokens, Stop, IsNew, Fill, Prior, Target, Code.Feasible, Mag;
    if !More(sc, x, k) {
      assert [] + more == more;
      FillNone(sc, x, z, k);
    } else {
      var j := Stop(sc, x, k, 15);
      var step, rest := StepTokens(sc, x, k, j), HeadTokens(sc, x, j + 1);
      assert HeadTokens(sc, x, k) == step + rest;
      CoversSplit(c, step, rest);
      BitsConcat(c, step, rest);
      assert Bits(c, step) + Bits(c, rest) + more == Bits(c, step) + (Bits(c, rest) + more);
      var z' := Fill(sc, x, z, k, j + 1);
      if sc.refine {
        RefineStep(c, sc, x, z, k, j, Bits(c, rest) + more);
      } else {
        FirstStep(c, sc, x, z, k, j, Bits(c, rest) + more);
      }
      FillReady(sc, x, z, k, j + 1);
      HeadBack(c, sc, x, z', j + 1, more);
      FillJoin(sc, x, z, k, j + 1, EndPos(sc, x, j + 1));
    }
  }

  lemma FillReady(sc: Scan, x: Block, z: Block, k: nat, j: nat)
    requires sc.Valid() && k <= j && Ready(sc, x, z, k)
    ensures Ready(sc, x, Fill(sc, x, z, k, j), j)
  {
  }

  lemma CoversSplit(c: Code, ts: seq<Token>, us: seq<Token>)
    requires c.WellFormed() && c.Feasible() && Covers(c, ts + us)
    ensures Covers(c, ts) && Covers(c, us)
  {
    hide Has;
    forall i | 0 <= i < |ts| && ts[i].Sym? ensures Has(c, ts[i].sym) {
      assert (ts + us)[i] == ts[i];
    }
    forall i | 0 <= i < |us| && us[i].Sym? ensures Has(c, us[i].sym) {
      assert (ts + us)[|ts| + i] == us[i];
    }
  }

  // ---- end-of-band runs -----------------------------------------------------

  /** The symbol and bits for a run of `n` blocks. */
  function RunTokens(n: nat): (ts: seq<Token>)
    requires n > 0
  {
    var r := Size(n) - 1;
    [Sym(16 * r), Raw(Bin(n - Pow2(r), r))]
  }

  lemma RunLengthBack(n: nat, more: seq<bool>)
    requires n > 0
    ensures var r := Size(n) - 1;
      RunLength(Stream(Bin(n - Pow2(r), r) + more, false), r) == (n, Stream(more, false))
  {
    hide Shl, GetBits, Bin, Pow2, RunLength, Size;
    var r := Size(n) - 1;
    PowDouble(r);
    RunLengthFrom(n - Pow2(r), r, more);
  }

  lemma RunLengthFrom(v: nat, r: nat, more: seq<bool>)
    requires v < Pow2(r)
    ensures RunLength(Stream(Bin(v, r) + more, false), r) == (Pow2(r) + v, Stream(more, false))
  {
    hide Shl, GetBits, Bin, Pow2;
    if r == 0 {
      Pow2Values();
      NoBits(v);
      assert [] + more == more;
    } else {
      BitsBack(v, r, more);
    }
  }

  lemma PowDouble(r: nat)
    ensures Pow2(r + 1) == 2 * Pow2(r)
  {
    ShlDouble(1, r);
  }

  lemma NoBits(v: nat)
    ensures Bin(v, 0) == []
  {
  }

  lemma RunBack(c: Code, n: nat, more: seq<bool>)
    requires c.WellFormed() && c.Feasible() && 0 < n < 0x8000 && Covers(c, RunTokens(n))
    ensures var (sym, s1) := Symbol(c, Stream(Bits(c, RunTokens(n)) + more, false));
      0 <= sym < 0xF0 && sym % 16 == 0 && RunLength(s1, sym / 16) == (n, Stream(more, false))
  {
    hide Has, Symbol, WordFor, Code.Feasible, Bits, RunLength, Shl, Pow2, Size, Bin;
    var r := Size(n) - 1;
    Pow2Values();
    SizeBound(n, 15);
    var extra := Bin(n - Pow2(r), r);
    assert RunTokens(n)[0] == Sym(16 * r);
    TwoTokens(c, 16 * r, extra);
    assert WordFor(c, 16 * r) + extra + more == WordFor(c, 16 * r) + (extra + more);
    SymbolBack(c, 16 * r, extra + more);
    RunLengthBack(n, more);
  }

  /** The correction bits of whole blocks. */
  function CorrAll(sc: Scan, xs: seq<Block>): (b: seq<bool>)
    requires sc.Valid()
  {
    if xs == [] then [] else Corr(sc, xs[0], sc.ss, sc.se + 1) + CorrAll(sc, xs[1..])
  }

  /** `n` blocks may share one run: the first leaves something over, and the
      others have nothing new. */
  ghost predicate RunFits(sc: Scan, xs: seq<Block>, n: nat)
    requires sc.Valid()
  {
    && 1 <= n <= |xs| && n < 0x8000
    && (n > 1 ==> EndPos(sc, xs[0], sc.ss) <= sc.se)
    && forall i :: 1 <= i < n ==> !More(sc, xs[i], sc.ss)
  }

  /** A block's symbols and, unless they fill the band, the run that starts in it. */
  ghost function GroupTokens(sc: Scan, xs: seq<Block>, n: nat): (ts: seq<Token>)
    requires sc.Valid() && RunFits(sc, xs, n)
  {
    var e := EndPos(sc, xs[0], sc.ss);
    HeadTokens(sc, xs[0], sc.ss)
    + if e > sc.se then []
      else RunTokens(n) + [Raw(Corr(sc, xs[0], e, sc.se + 1) + CorrAll(sc, xs[1..n]))]
  }

  /** The coder's choice of run lengths over a scan. */
  ghost predicate PlanFits(sc: Scan, xs: seq<Block>, plan: seq<nat>)
    requires sc.Valid()
    decreases |plan|
  {
    if plan == [] then xs == []
    else RunFits(sc, xs, plan[0]) && PlanFits(sc, xs[plan[0]..], plan[1..])
  }

  ghost function ScanTokens(sc: Scan, xs: seq<Block>, plan: seq<nat>): (ts: seq<Token>)
    requires sc.Valid() && PlanFits(sc, xs, plan)
    decreases |plan|
  {
    if plan == [] then [] else
      GroupTokens(sc, xs, plan[0]) + ScanTokens(sc, xs[plan[0]..], plan[1..])
  }

  /** Every list of blocks can be coded: one block to a run always fits. */
  lemma {:induction false} SomePlan(sc: Scan, xs: seq<Block>)
    requires sc.Valid()
    ensures PlanFits(sc, xs, seq(|xs|, _ => 1))
  {
    if xs != [] {
      SomePlan(sc, xs[1..]);
      assert seq(|xs|, _ => 1)[1..] == seq(|xs[1..]|, _ => 1);
    }
  }

  // ---- a scan ---------------------------------------------------------------

  ghost predicate AllReady(sc: Scan, xs: seq<Block>, zs: seq<Block>)
    requires sc.Valid()
  {
    && |xs| == |zs|
    && forall i :: 0 <= i < |xs| ==> Codable(sc, xs[i]) && Ready(sc, xs[i], zs[i], sc.ss)
  }

  ghost function FillAll(sc: Scan, xs: seq<Block>, zs: seq<Block>): (r: seq<Block>)
    requires sc.Valid() && |xs| == |zs|
    ensures |r| == |zs|
  {
    seq(|zs|, i requires 0 <= i < |zs| => Fill(sc, xs[i], zs[i], sc.ss, sc.se + 1))
  }

  /** Blocks that lie wholly inside a run. */
  lemma {:induction false} RunBlocksBack(c: Code, sc: Scan, xs: seq<Block>, zs: seq<Block>, e: nat, more: seq<bool>)
    requires c.WellFormed() && sc.Valid() && AllReady(sc, xs, zs) && e <= |xs|
    requires forall i :: 0 <= i < e ==> !More(sc, xs[i], sc.ss)
    ensures AcScan(c, sc, Stream(CorrAll(sc, xs[..e]) + more, false), zs, e)
      == (var (rest, s) := AcScan(c, sc, Stream(more, false), zs[e..], 0);
          (FillAll(sc, xs[..e], zs[..e]) + rest, s))
    decreases e
  {
    hide Corr, Fill, AcBlock, AcScan, CorrAll, FillAll, More, Ready, Codable, Code.WellFormed;
    if e == 0 {
      CorrNone(sc, xs[..0]);
      assert [] + more == more && zs[0..] == zs;
      var end := AcScan(c, sc, Stream(more, false), zs, 0).0;
      assert FillAll(sc, xs[..0], zs[..0]) + end == end;
    } else {
      var corr, rest := Corr(sc, xs[0], sc.ss, sc.se + 1), CorrAll(sc, xs[1..][..e - 1]);
      assert xs[..e][1..] == xs[1..][..e - 1] && xs[..e][0] == xs[0] && zs[..e][1..] == zs[1..][..e - 1] && zs[..e][0] == zs[0];
      CorrCons(sc, xs[..e]);
      assert corr + rest + more == corr + (rest + more);
      RunBlock(c, sc, xs[0], zs[0], e, rest + more);
      ScanCons(c, sc, Stream(corr + (rest + more), false), zs, e);
      ReadyTail(sc, xs, zs);
      RunBlocksBack(c, sc, xs[1..], zs[1..], e - 1, more);
      assert zs[1..][e - 1..] == zs[e..];
      FillAllCons(sc, xs[..e], zs[..e]);
      var first, others := Fill(sc, xs[0], zs[0], sc.ss, sc.se + 1), FillAll(sc, xs[1..][..e - 1], zs[1..][..e - 1]);
      var end := AcScan(c, sc, Stream(more, false), zs[e..], 0).0;
      assert [first] + others + end == [first] + (others + end);
    }
  }

  lemma CorrCons(sc: Scan, xs: seq<Block>)
    requires sc.Valid() && xs != []
    ensures CorrAll(sc, xs) == Corr(sc, xs[0], sc.ss, sc.se + 1) + CorrAll(sc, xs[1..])
  {
  }

  lemma ScanCons(c: Code, sc: Scan, s: Stream, zs: seq<Block>, e: nat)
    requires c.WellFormed() && sc.Valid() && zs != [] && !s.starved
    ensures var (z, s', e') := AcBlock(c, sc, s, zs[0], e);
      var (rest, end) := AcScan(c, sc, s', zs[1..], e');
      AcScan(c, sc, s, zs, e) == ([z] + rest, end)
  {
    hide AcBlock;
  }

  lemma ReadyTail(sc: Scan, xs: seq<Block>, zs: seq<Block>)
    requires sc.Valid() && AllReady(sc, xs, zs) && xs != []
    ensures AllReady(sc, xs[1..], zs[1..])
  {
    hide Ready, Codable;
  }

  /** One block inside a run. */
  lemma RunBlock(c: Code, sc: Scan, x: Block, z: Block, e: nat, more: seq<bool>)
    requires c.WellFormed() && sc.Valid() && Codable(sc, x) && Ready(sc, x, z, sc.ss) && !More(sc, x, sc.ss) && e > 0
    ensures AcBlock(c, sc, Stream(Corr(sc, x, sc.ss, sc.se + 1) + more, false), z, e)
      == (Fill(sc, x, z, sc.ss, sc.se + 1), Stream(more, false), e - 1)
  {
    hide Corr, Fill, Head, Tail, More, Ready, Codable, Code.WellFormed;
    TailBack(sc, x, z, sc.ss, more);
  }

  /** A block's symbols and the end of its band, with the run it starts. */
  lemma BlockBack(c: Code, sc: Scan, xs: seq<Block>, z: Block, n: nat, more: seq<bool>)
    requires c.WellFormed() && c.Feasible() && sc.Valid() && RunFits(sc, xs, n)
    requires Codable(sc, xs[0]) && Ready(sc, xs[0], z, sc.ss) && Covers(c, GroupTokens(sc, xs, n))
    ensures AcBlock(c, sc, Stream(Bits(c, GroupTokens(sc, xs, n)) + more, false), z, 0)
      == (Fill(sc, xs[0], z, sc.ss, sc.se + 1), Stream(CorrAll(sc, xs[1..n]) + more, false), n - 1)
  {
    hide Has, Code.Feasible, Bits, Head, Fill, Corr, CorrAll, More, HeadTokens, Ready, Codable, Symbol, RunLength, Tail;
    var x := xs[0];
    var e := EndPos(sc, x, sc.ss);
    var head := HeadTokens(sc, x, sc.ss);
    var z' := Fill(sc, x, z, sc.ss, e);
    if e > sc.se {
      assert GroupTokens(sc, xs, n) == head;
      HeadBack(c, sc, x, z, sc.ss, more);
      HeadDone(c, sc, Stream(more, false), z', e);
      assert CorrAll(sc, xs[1..n]) + more == more by { CorrNone(sc, xs[1..n]); }
    } else {
      var corr, others := Corr(sc, x, e, sc.se + 1), CorrAll(sc, xs[1..n]);
      var run, raw := RunTokens(n), [Raw(corr + others)];
      assert GroupTokens(sc, xs, n) == head + (run + raw);
      CoversSplit(c, head, run + raw);
      CoversSplit(c, run, raw);
      BitsConcat(c, head, run + raw);
      BitsConcat(c, run, raw);
      OneRaw(c, corr + others);
      var after := corr + (others + more);
      assert Bits(c, head) + (Bits(c, run) + (corr + others)) + more == Bits(c, head) + (Bits(c, run) + after);
      HeadBack(c, sc, x, z, sc.ss, Bits(c, run) + after);
      RunBack(c, n, after);
      UnfoldRun(c, sc, Stream(Bits(c, run) + after, false), z', e);
      FillReady(sc, x, z, sc.ss, e);
      TailBack(sc, x, z', e, others + more);
      FillJoin(sc, x, z, sc.ss, e, sc.se + 1);
    }
  }

  lemma OneRaw(c: Code, b: seq<bool>)
    requires c.WellFormed() && c.Feasible()
    ensures Covers(c, [Raw(b)]) && Bits(c, [Raw(b)]) == b
  {
    assert Bits(c, [Raw(b)]) == b + Bits(c, []);
  }

  lemma HeadDone(c: Code, sc: Scan, s: Stream, z: Block, k: nat)
    requires c.WellFormed() && sc.Valid() && k > sc.se
    ensures Head(c, sc, s, z, k) == (z, s, 0)
  {
  }

  lemma CorrNone(sc: Scan, xs: seq<Block>)
    requires sc.Valid() && xs == []
    ensures CorrAll(sc, xs) == []
  {
  }

  /** A scan restores every block of the band to the scan's bit position, and
      leaves the stream right behind the coded bits. */
  lemma {:induction false} ScanBack(c: Code, sc: Scan, xs: seq<Block>, zs: seq<Block>, plan: seq<nat>, more: seq<bool>)
    requires c.WellFormed() && c.Feasible() && sc.Valid() && AllReady(sc, xs, zs)
    requires PlanFits(sc, xs, plan) && Covers(c, ScanTokens(sc, xs, plan))
    ensures AcScan(c, sc, Stream(Bits(c, ScanTokens(sc, xs, plan)) + more, false), zs, 0)
      == (FillAll(sc, xs, zs), Stream(more, false))
    decreases |plan|
  {
    hide Has, Code.Feasible, Bits, Fill, AcBlock, GroupTokens, More, Ready, Codable, CorrAll, Code.WellFormed;
    if plan == [] {
      assert FillAll(sc, xs, zs) == zs;
      assert Bits(c, []) + more == more by { BitsNone(c); }
    } else {
      var n := plan[0];
      var group, rest := GroupTokens(sc, xs, n), ScanTokens(sc, xs[n..], plan[1..]);
      CoversSplit(c, group, rest);
      BitsConcat(c, group, rest);
      var after := Bits(c, rest) + more;
      assert Bits(c, group) + Bits(c, rest) + more == Bits(c, group) + after;
      GroupBack(c, sc, xs, zs, n, after);
      ScanBack(c, sc, xs[n..], zs[n..], plan[1..], more);
      FillAllJoin(sc, xs, zs, n);
    }
  }

  /** The blocks of one run. */
  lemma GroupBack(c: Code, sc: Scan, xs: seq<Block>, zs: seq<Block>, n: nat, more: seq<bool>)
    requires c.WellFormed() && c.Feasible() && sc.Valid() && AllReady(sc, xs, zs)
    requires RunFits(sc, xs, n) && Covers(c, GroupTokens(sc, xs, n))
    ensures AcScan(c, sc, Stream(Bits(c, GroupTokens(sc, xs, n)) + more, false), zs, 0)
      == (var (rest, s) := AcScan(c, sc, Stream(more, false), zs[n..], 0);
          (FillAll(sc, xs[..n], zs[..n]) + rest, s))
  {
    hide Has, Code.Feasible, Bits, Fill, AcBlock, AcScan, GroupTokens, More, Ready, Codable, CorrAll, Code.WellFormed, FillAll, Covers;
    BlockBack(c, sc, xs, zs[0], n, more);
    ScanCons(c, sc, Stream(Bits(c, GroupTokens(sc, xs, n)) + more, false), zs, 0);
    ReadyTail(sc, xs, zs);
    RunBlocksBack(c, sc, xs[1..], zs[1..], n - 1, more);
    assert xs[1..][..n - 1] == xs[1..n] && zs[1..][..n - 1] == zs[1..n] && zs[1..][n - 1..] == zs[n..];
    var first := Fill(sc, xs[0], zs[0], sc.ss, sc.se + 1);
    FillAllCons(sc, xs[..n], zs[..n]);
    assert xs[..n][1..] == xs[1..n] && zs[..n][1..] == zs[1..n];
    var end := AcScan(c, sc, Stream(more, false), zs[n..], 0).0;
    assert FillAll(sc, xs[..n], zs[..n]) + end == [first] + (FillAll(sc, xs[1..n], zs[1..n]) + end);
  }

  lemma FillAllCons(sc: Scan, xs: seq<Block>, zs: seq<Block>)
    requires sc.Valid() && |xs| == |zs| > 0
    ensures FillAll(sc, xs, zs) == [Fill(sc, xs[0], zs[0], sc.ss, sc.se + 1)] + FillAll(sc, xs[1..], zs[1..])
  {
  }

  lemma FillAllJoin(sc: Scan, xs: seq<Block>, zs: seq<Block>, n: nat)
    requires sc.Valid() && |xs| == |zs| && n <= |xs|
    ensures FillAll(sc, xs, zs) == FillAll(sc, xs[..n], zs[..n]) + FillAll(sc, xs[n..], zs[n..])
  {
  }

  // ---- successive approximation ---------------------------------------------

  /** One coded scan: the table, the coder's run lengths and what follows. */
  datatype Pass = Pass(code: Code, plan: seq<nat>, more: seq<bool>)

  /** The stream a coder produces for one scan of `xs`. */
  ghost predicate CodesFor(p: Pass, sc: Scan, xs: seq<Block>)
    requires sc.Valid()
  {
    && p.code.WellFormed() && p.code.Feasible()
    && PlanFits(sc, xs, p.plan) && Covers(p.code, ScanTokens(sc, xs, p.plan))
  }

  ghost function Coded(p: Pass, sc: Scan, xs: seq<Block>): (s: Stream)
    requires sc.Valid() && CodesFor(p, sc, xs)
  {
    Stream(Bits(p.code, ScanTokens(sc, xs, p.plan)) + p.more, false)
  }

  /** Every pass refines the band by one more bit position. */
  ghost predicate PassesFor(ps: seq<Pass>, ss: nat, se: nat, a: nat, refine: bool, xs: seq<Block>)
    requires Scan(ss, se, a, refine).Valid()
    decreases a
  {
    && |ps| == a + 1 && CodesFor(ps[0], Scan(ss, se, a, refine), xs)
    && (a > 0 ==> PassesFor(ps[1..], ss, se, a - 1, true, xs))
  }

  /** Runs the decoder over the scans of a band, one after the other. */
  ghost function DecodePasses(ps: seq<Pass>, ss: nat, se: nat, a: nat, refine: bool, xs: seq<Block>, zs: seq<Block>)
    : (r: seq<Block>)
    requires Scan(ss, se, a, refine).Valid() && PassesFor(ps, ss, se, a, refine, xs)
    decreases a
  {
    var sc := Scan(ss, se, a, refine);
    var zs' := AcScan(ps[0].code, sc, Coded(ps[0], sc, xs), zs, 0).0;
    if a == 0 then zs' else DecodePasses(ps[1..], ss, se, a - 1, true, xs, zs')
  }

  /** A block with the band taken from `x`. */
  function Spliced(x: Block, z: Block, ss: nat, se: nat): (r: Block)
    requires ss <= se < 64
  {
    z[..ss] + x[ss..se + 1] + z[se + 1..]
  }

  lemma FillTwice(sc: Scan, x: Block, z: Block, ss: nat, se: nat)
    requires ss <= se < 64
    ensures var f := Fill(sc, x, z, ss, se + 1);
      && Spliced(x, f, ss, se) == Spliced(x, z, ss, se)
      && (sc.al == 0 ==> f == Spliced(x, z, ss, se))
  {
    var f := Fill(sc, x, z, ss, se + 1);
    if sc.al == 0 {
      forall i | 0 <= i < 64 ensures f[i] == Spliced(x, z, ss, se)[i] {
        ApproxExact(x[i]);
      }
    }
  }

  lemma ApproxExact(x: int)
    ensures Approx(x, 0) == x
  {
  }

  /** After a scan at `a` the band is ready for a refinement at `a - 1`. */
  lemma NextReady(sc: Scan, xs: seq<Block>, zs: seq<Block>)
    requires sc.Valid() && sc.al > 0 && AllReady(sc, xs, zs)
    ensures AllReady(Scan(sc.ss, sc.se, sc.al - 1, true), xs, FillAll(sc, xs, zs))
  {
    hide Mag, Approx;
  }

  /** Successive approximation is exact: a first scan at bit position `a` and
      refinements down to 0 put the original coefficients of the band into every
      block, and touch nothing outside the band. */
  lemma {:induction false} SuccessiveApproximation(ps: seq<Pass>, ss: nat, se: nat, a: nat, refine: bool, xs: seq<Block>, zs: seq<Block>)
    requires Scan(ss, se, a, refine).Valid() && AllReady(Scan(ss, se, a, refine), xs, zs)
    requires PassesFor(ps, ss, se, a, refine, xs)
    ensures var r := DecodePasses(ps, ss, se, a, refine, xs, zs);
      |r| == |xs| && forall i :: 0 <= i < |r| ==> r[i] == Spliced(xs[i], zs[i], ss, se)
    decreases a
  {
    hide CodesFor, Covers, Fill, Spliced, Ready, Codable, Bits, ScanTokens, PlanFits, AcScan;
    var sc := Scan(ss, se, a, refine);
    var zs' := PassBack(ps[0], sc, xs, zs);
    if a > 0 {
      NextReady(sc, xs, zs);
      SuccessiveApproximation(ps[1..], ss, se, a - 1, true, xs, zs');
    }
    forall i | 0 <= i < |xs|
      ensures Spliced(xs[i], zs'[i], ss, se) == Spliced(xs[i], zs[i], ss, se)
      ensures a == 0 ==> zs'[i] == Spliced(xs[i], zs[i], ss, se)
    {
      FillTwice(sc, xs[i], zs[i], ss, se);
    }
  }

  lemma PassBack(p: Pass, sc: Scan, xs: seq<Block>, zs: seq<Block>) returns (zs': seq<Block>)
    requires sc.Valid() && AllReady(sc, xs, zs) && CodesFor(p, sc, xs)
    ensures p.code.WellFormed() && zs' == AcScan(p.code, sc, Coded(p, sc, xs), zs, 0).0 == FillAll(sc, xs, zs)
  {
    ScanBack(p.code, sc, xs, zs, p.plan, p.more);
    zs' := FillAll(sc, xs, zs);
  }
}

/** Successive approximation of DC coefficients (section G.1.2.1 of ITU-T T.81):
    an interleaved first scan of differences and one-bit refinements restore
    every DC value. */
module ProgressiveDc {
  import opened BitSeq
  import opened BitReader
  import opened Huffman
  import opened Progressive
  import opened ProgressiveCoder

  /** What is known of `x` once bits `a` and up have been sent; DC values are
      shifted arithmetically. */
  function DcApprox(x: int, a: nat): int
  {
    Shl(Shr(x, a), a)
  }

  function DcLevel(xs: seq<int>, a: nat): (r: seq<int>)
    ensures |r| == |xs|
  {
    seq(|xs|, i requires 0 <= i < |xs| => DcApprox(xs[i], a))
  }

  function DcLevels(mcus: seq<seq<int>>, a: nat): (r: seq<seq<int>>)
    ensures |r| == |mcus|
  {
    seq(|mcus|, i requires 0 <= i < |mcus| => DcLevel(mcus[i], a))
  }

  lemma DcApproxRange(x: int, a: nat)
    requires -0x8000 <= x < 0x8000 && a <= 13
    ensures -0x8000 <= DcApprox(x, a) <= x && -0x8000 <= Shr(x, a) < 0x8000
  {
    hide Shl, Shr, Low;
    var p := Pow2(15 - a);
    ShrLow(x, a);
    ShlShl(1, 15 - a, a);
    ShlNeg(p, a);
    Pow2Values();
    ShlAdd(Shr(x, a), 1, a);
    ShlMono(Shr(x, a), -(p as int), a);
    ShlMono(Shr(x, a) + 1, -(p as int), a);
    ShlMono(p - 1, Shr(x, a), a);
    ShlAdd(p - 1, 1, a);
    Pow2Mono(15 - a, 15);
  }

  /** A refinement brings in bit `a`. */
  lemma DcApproxStep(x: int, a: nat)
    ensures DcApprox(x, a) == DcApprox(x, a + 1) + (if Shr(x, a) % 2 == 1 then Pow2(a) else 0)
    ensures Shr(DcApprox(x, a + 1), a) % 2 == 0
  {
    hide Shl, Shr, Pow2;
    ShrShr(x, a, 1);
    var q := Shr(x, a);
    assert Shr(x, a + 1) == q / 2 by { ShrOne(q); }
    ShlDouble(q / 2, a);
    ShlAdd(2 * (q / 2), q % 2, a);
    ShlZero(a);
    ShrSplit(2 * (q / 2), 0, a);
    PowIs(a);
  }

  lemma ShrOne(q: int)
    ensures Shr(q, 1) == q / 2
  {
    assert Shr(q, 1) == Shr(q / 2, 0);
  }

  lemma PowIs(a: nat)
    ensures Pow2(a) == Shl(1, a) > 0
  {
  }

  // ---- the coder ------------------------------------------------------------

  /** The difference of a shifted value to its prediction. */
  function DcTokens(al: nat, x: int, pred: int): (ts: seq<Token>)
  {
    var diff := Shr(x, al) - pred;
    if diff == 0 then [Sym(0)] else [Sym(Size(Abs(diff))), Raw(Extra(diff))]
  }

  /** The blocks of an MCU can be coded with the components' tables. */
  ghost predicate DcCodable(codes: seq<Code>, al: nat, pattern: seq<nat>, xs: seq<int>, preds: seq<int>)
    requires |xs| == |pattern| && |codes| == |preds|
    decreases |pattern|
  {
    pattern == [] ||
    (var c := pattern[0];
     && c < |codes| && codes[c].WellFormed() && codes[c].Feasible()
     && -0x8000 <= xs[0] < 0x8000 && -0x8000 <= preds[c] < 0x8000
     && Covers(codes[c], DcTokens(al, xs[0], preds[c]))
     && DcCodable(codes, al, pattern[1..], xs[1..], preds[c := Shr(xs[0], al)]))
  }

  ghost function DcBits(codes: seq<Code>, al: nat, pattern: seq<nat>, xs: seq<int>, preds: seq<int>): (b: seq<bool>)
    requires |xs| == |pattern| && |codes| == |preds| && DcCodable(codes, al, pattern, xs, preds)
    decreases |pattern|
  {
    if pattern == [] then [] else
      var c := pattern[0];
      Bits(codes[c], DcTokens(al, xs[0], preds[c]))
      + DcBits(codes, al, pattern[1..], xs[1..], preds[c := Shr(xs[0], al)])
  }

  /** The predictions after an MCU. */
  function DcPreds(al: nat, pattern: seq<nat>, xs: seq<int>, preds: seq<int>): (r: seq<int>)
    requires |xs| == |pattern| && forall i :: 0 <= i < |pattern| ==> pattern[i] < |preds|
    ensures |r| == |preds|
    decreases |pattern|
  {
    if pattern == [] then preds
    else DcPreds(al, pattern[1..], xs[1..], preds[pattern[0] := Shr(xs[0], al)])
  }

  lemma DcDiffBack(c: Code, al: nat, x: int, pred: int, more: seq<bool>)
    requires c.WellFormed() && c.Feasible() && Covers(c, DcTokens(al, x, pred))
    ensures DcDiff(c, Stream(Bits(c, DcTokens(al, x, pred)) + more, false))
      == (Shr(x, al) - pred, Stream(more, false))
  {
    hide Shr, Shl, Symbol, Has, WordFor, RecvExt, Code.Feasible, Code.WellFormed, Extra, Size, Bits;
    var diff := Shr(x, al) - pred;
    var ts := DcTokens(al, x, pred);
    if diff == 0 {
      assert ts[0] == Sym(0);
      OneToken(c, 0);
      SymbolBack(c, 0, more);
    } else {
      assert ts[0] == Sym(Size(Abs(diff)));
      NewBack(c, Size(Abs(diff)), diff, more);
    }
  }

  lemma OneToken(c: Code, sym: nat)
    requires c.WellFormed() && c.Feasible() && Has(c, sym)
    ensures Covers(c, [Sym(sym)]) && Bits(c, [Sym(sym)]) == WordFor(c, sym)
  {
    hide Has, WordFor, Code.Feasible, Code.WellFormed;
    assert Bits(c, [Sym(sym)]) == WordFor(c, sym) + Bits(c, []);
  }

  /** An MCU of a first scan comes back, and the predictions follow the coder's. */
  lemma {:induction false} DcMcuBack(codes: seq<Code>, al: nat, pattern: seq<nat>, xs: seq<int>, preds: seq<int>, more: seq<bool>)
    requires |xs| == |pattern| && |codes| == |preds| && al <= 13 && DcCodable(codes, al, pattern, xs, preds)
    requires forall i :: 0 <= i < |codes| ==> codes[i].WellFormed()
    requires forall i :: 0 <= i < |pattern| ==> pattern[i] < |preds|
    ensures DcMcu(codes, al, Stream(DcBits(codes, al, pattern, xs, preds) + more, false), pattern, preds)
      == (DcLevel(xs, al), DcPreds(al, pattern, xs, preds), Stream(more, false))
    decreases |pattern|
  {
    hide Shr, Shl, Covers, Code.Feasible, Code.WellFormed, Bits, DcTokens, DcDiff;
    if pattern == [] {
      assert [] + more == more;
    } else {
      var c := pattern[0];
      var bits := Bits(codes[c], DcTokens(al, xs[0], preds[c]));
      var preds' := preds[c := Shr(xs[0], al)];
      var rest := DcBits(codes, al, pattern[1..], xs[1..], preds');
      assert bits + rest + more == bits + (rest + more);
      DcDiffBack(codes[c], al, xs[0], preds[c], rest + more);
      DcApproxRange(xs[0], al);
      DcMcuBack(codes, al, pattern[1..], xs[1..], preds', more);
      assert DcLevel(xs, al) == [DcApprox(xs[0], al)] + DcLevel(xs[1..], al);
    }
  }

  ghost predicate DcScanCodable(codes: seq<Code>, al: nat, pattern: seq<nat>, mcus: seq<seq<int>>, preds: seq<int>)
    requires |codes| == |preds| && forall i :: 0 <= i < |pattern| ==> pattern[i] < |preds|
    decreases |mcus|
  {
    mcus == [] ||
    (&& |mcus[0]| == |pattern| && DcCodable(codes, al, pattern, mcus[0], preds)
     && DcScanCodable(codes, al, pattern, mcus[1..], DcPreds(al, pattern, mcus[0], preds)))
  }

  ghost function DcScanBits(codes: seq<Code>, al: nat, pattern: seq<nat>, mcus: seq<seq<int>>, preds: seq<int>): (b: seq<bool>)
    requires |codes| == |preds| && forall i :: 0 <= i < |pattern| ==> pattern[i] < |preds|
    requires DcScanCodable(codes, al, pattern, mcus, preds)
    decreases |mcus|
  {
    if mcus == [] then [] else
      DcBits(codes, al, pattern, mcus[0], preds)
      + DcScanBits(codes, al, pattern, mcus[1..], DcPreds(al, pattern, mcus[0], preds))
  }

  /** A first DC scan brings every value to bit position `al`. */
  lemma {:induction false} DcScanBack(codes: seq<Code>, al: nat, pattern: seq<nat>, mcus: seq<seq<int>>, preds: seq<int>, before: seq<seq<int>>, more: seq<bool>)
    requires |codes| == |preds| && al <= 13 && |before| == |mcus|
    requires forall i :: 0 <= i < |codes| ==> codes[i].WellFormed()
    requires forall i :: 0 <= i < |pattern| ==> pattern[i] < |preds|
    requires DcScanCodable(codes, al, pattern, mcus, preds)
    ensures DcScan(codes, al, Stream(DcScanBits(codes, al, pattern, mcus, preds) + more, false), pattern, preds, before)
      == (DcLevels(mcus, al), Stream(more, false))
    decreases |mcus|
  {
    hide Shr, Shl, Code.WellFormed, DcCodable, DcBits, DcPreds, DcLevel, DcMcu;
    if mcus == [] {
      assert [] + more == more;
    } else {
      var bits, preds' := DcBits(codes, al, pattern, mcus[0], preds), DcPreds(al, pattern, mcus[0], preds);
      var rest := DcScanBits(codes, al, pattern, mcus[1..], preds');
      assert bits + rest + more == bits + (rest + more);
      DcMcuBack(codes, al, pattern, mcus[0], preds, rest + more);
      DcScanBack(codes, al, pattern, mcus[1..], preds', before[1..], more);
      assert DcLevels(mcus, al) == [DcLevel(mcus[0], al)] + DcLevels(mcus[1..], al);
    }
  }

  // ---- refinements ----------------------------------------------------------

  function DcRefineBits(al: nat, xs: seq<int>): (b: seq<bool>)
  {
    if xs == [] then [] else [Shr(xs[0], al) % 2 == 1] + DcRefineBits(al, xs[1..])
  }

  function DcRefineScanBits(al: nat, mcus: seq<seq<int>>): (b: seq<bool>)
  {
    if mcus == [] then [] else DcRefineBits(al, mcus[0]) + DcRefineScanBits(al, mcus[1..])
  }

  lemma {:induction false} DcRefineMcuBack(al: nat, xs: seq<int>, more: seq<bool>)
    requires al <= 12 && forall i :: 0 <= i < |xs| ==> -0x8000 <= xs[i] < 0x8000
    ensures DcRefineMcu(al, Stream(DcRefineBits(al, xs) + more, false), DcLevel(xs, al + 1))
      == (DcLevel(xs, al), Stream(more, false))
  {
    hide Shr, Shl, Pow2, DcApprox, GetBits;
    if xs == [] {
      assert [] + more == more;
    } else {
      var rest := DcRefineBits(al, xs[1..]);
      assert DcRefineBits(al, xs) + more == [Shr(xs[0], al) % 2 == 1] + (rest + more);
      BitBack(Shr(xs[0], al) % 2 == 1, rest + more);
      DcApproxStep(xs[0], al);
      DcApproxRange(xs[0], al);
      DcRefineMcuBack(al, xs[1..], more);
      assert DcLevel(xs, al + 1)[1..] == DcLevel(xs[1..], al + 1);
      assert DcLevel(xs, al) == [DcApprox(xs[0], al)] + DcLevel(xs[1..], al);
    }
  }

  lemma {:induction false} DcRefineScanBack(al: nat, mcus: seq<seq<int>>, more: seq<bool>)
    requires al <= 12 && forall m :: m in mcus ==> forall i :: 0 <= i < |m| ==> -0x8000 <= m[i] < 0x8000
    ensures DcRefineScan(al, Stream(DcRefineScanBits(al, mcus) + more, false), DcLevels(mcus, al + 1))
      == (DcLevels(mcus, al), Stream(more, false))
  {
    hide Shr, Shl, DcLevel, DcRefineMcu, DcRefineBits;
    if mcus == [] {
      assert [] + more == more;
    } else {
      var rest := DcRefineScanBits(al, mcus[1..]);
      assert DcRefineScanBits(al, mcus) + more == DcRefineBits(al, mcus[0]) + (rest + more);
      DcRefineMcuBack(al, mcus[0], rest + more);
      DcRefineScanBack(al, mcus[1..], more);
      assert DcLevels(mcus, al + 1)[1..] == DcLevels(mcus[1..], al + 1);
      assert DcLevels(mcus, al) == [DcLevel(mcus[0], al)] + DcLevels(mcus[1..], al);
    }
  }

  /** Refinement scans `a - 1` down to 0, each from its own segment. */
  function DcRefinements(a: nat, mcus: seq<seq<int>>, mores: seq<seq<bool>>, now: seq<seq<int>>): (r: seq<seq<int>>)
    requires |mores| == a
  {
    if a == 0 then now else
      var s := Stream(DcRefineScanBits(a - 1, mcus) + mores[0], false);
      DcRefinements(a - 1, mcus, mores[1..], DcRefineScan(a - 1, s, now).0)
  }

  lemma {:induction false} DcRefinementsBack(a: nat, mcus: seq<seq<int>>, mores: seq<seq<bool>>)
    requires |mores| == a <= 13
    requires forall m :: m in mcus ==> forall i :: 0 <= i < |m| ==> -0x8000 <= m[i] < 0x8000
    ensures DcRefinements(a, mcus, mores, DcLevels(mcus, a)) == mcus
  {
    hide DcRefineScan, DcRefineScanBits;
    if a == 0 {
      assert DcLevels(mcus, 0) == mcus by {
        forall i | 0 <= i < |mcus| ensures DcLevels(mcus, 0)[i] == mcus[i] {
          assert DcLevel(mcus[i], 0) == mcus[i];
        }
      }
    } else {
      DcRefineScanBack(a - 1, mcus, mores[0]);
      DcRefinementsBack(a - 1, mcus, mores[1..]);
    }
  }

  /** A first DC scan at `a` followed by its refinements restores every value. */
  lemma DcSuccessiveApproximation(codes: seq<Code>, a: nat, pattern: seq<nat>, mcus: seq<seq<int>>, preds: seq<int>,
    before: seq<seq<int>>, more: seq<bool>, mores: seq<seq<bool>>)
    requires |codes| == |preds| && |mores| == a <= 13 && |before| == |mcus|
    requires forall i :: 0 <= i < |codes| ==> codes[i].WellFormed()
    requires forall i :: 0 <= i < |pattern| ==> pattern[i] < |preds|
    requires forall m :: m in mcus ==> forall i :: 0 <= i < |m| ==> -0x8000 <= m[i] < 0x8000
    requires DcScanCodable(codes, a, pattern, mcus, preds)
    ensures var s := Stream(DcScanBits(codes, a, pattern, mcus, preds) + more, false);
      DcRefinements(a, mcus, mores, DcScan(codes, a, s, pattern, preds, before).0) == mcus
  {
    DcScanBack(codes, a, pattern, mcus, preds, before, more);
    DcRefinementsBack(a, mcus, mores);
  }
}

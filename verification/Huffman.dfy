/** Canonical Huffman codes of Annex C of ITU-T T.81, the decoder tables built
    from them, and symbol decoding by lookup with a canonical fallback. */
module Huffman {
  import opened BitSeq
  import opened BitReader

  const HLOOK: nat := 9

  /** The contents of a DHT segment: `bits[l]` codes of length `l` (1..16), and
      the symbols in code order. */
  datatype Code = Code(bits: seq<nat>, vals: seq<nat>)
  {
    predicate WellFormed()
    {
      |bits| == 17 && |vals| == 256 && (forall i :: 0 <= i < 256 ==> vals[i] < 256)
    }

    /** The first code word of length `l`, as a number. */
    function First(l: nat): (r: nat)
      requires |bits| == 17 && 1 <= l <= 17
    {
      if l == 1 then 0 else 2 * (First(l - 1) + bits[l - 1])
    }

    /** How many symbols have codes shorter than `l`. */
    function Count(l: nat): (r: nat)
      requires |bits| == 17 && 1 <= l <= 17
    {
      if l == 1 then 0 else Count(l - 1) + bits[l - 1]
    }

    /** The share of the code space used by codes no longer than `l`, in units
        of 2^-16. */
    function Kraft(l: nat): (r: nat)
      requires |bits| == 17 && l <= 16
    {
      if l == 0 then 0 else Kraft(l - 1) + Shl(bits[l], 16 - l)
    }

    predicate Feasible()
      requires |bits| == 17
    {
      Count(17) <= 256 && Kraft(16) <= 0x1_0000
    }

    /** The code word of the `i`-th symbol of length `l`. */
    function Word(l: nat, i: nat): (w: seq<bool>)
      requires |bits| == 17 && 1 <= l <= 16
    {
      Bin(First(l) + i, l)
    }

    predicate IsWord(l: nat, i: nat)
      requires |bits| == 17
    {
      1 <= l <= 16 && i < bits[l]
    }

    function Sym(l: nat, i: nat): (r: nat)
      requires WellFormed() && 1 <= l <= 16 && Count(l) + i < 256
    {
      vals[Count(l) + i]
    }

    /** Where the codes of length `l` begin among `w`-bit strings. */
    function Edge(w: nat, l: nat): (r: nat)
      requires |bits| == 17 && 1 <= l <= w + 1 <= 17 && 1 <= w
    {
      if l == w + 1 then First(w) + bits[w] else Shl(First(l), w - l)
    }

    /** Searches the lengths from `l` up to `w` for one whose codes include the
        top bits of the `w`-bit number `x`. */
    function Find(w: nat, x: nat, l: nat): (h: Hit)
      requires |bits| == 17 && 1 <= l <= w + 1 <= 17
      ensures h.Hit? ==> l <= h.len <= w
      decreases w - l, x
    {
      if l == w + 1 then Miss
      else if First(l) <= Shr(x, w - l) < First(l) + bits[l]
      then Hit(l, Count(l) + (Shr(x, w - l) - First(l)))
      else Find(w, x, l + 1)
    }
  }

  datatype Hit = Miss | Hit(len: nat, idx: nat)

  /** Length and symbol of the code word that begins the sixteen bits `x`; a
      window that begins none counts for 16 bits and the symbol -1. */
  function Match(c: Code, x: nat): (r: (nat, int))
    requires c.WellFormed()
  {
    match c.Find(16, x, 1)
    case Miss => (16, -1)
    case Hit(l, idx) => (l, if idx < 256 then c.vals[idx] else -1)
  }

  /** Decodes one symbol: the symbol and the stream after its code word, or -1
      after 16 bits when no code word comes next. */
  function Symbol(c: Code, s: Stream): (r: (int, Stream))
    requires c.WellFormed()
  {
    var (len, sym) := Match(c, Val(Take(s.bits, 16)));
    (sym, Advance(s, len))
  }

  // ---- the geometry of canonical codes ------------------------------------

  lemma {:induction false} ShrBelow(x: nat, c: nat, k: nat)
    ensures Shr(x, k) < c <==> x < Shl(c, k)
    decreases k
  {
    if k > 0 { ShrBelow(x / 2, c, k - 1); }
  }

  lemma EdgeStep(c: Code, w: nat, l: nat)
    requires |c.bits| == 17 && 1 <= l <= w <= 16
    ensures c.Edge(w, l + 1) == Shl(c.First(l) + c.bits[l], w - l) >= c.Edge(w, l)
  {
    ShlAdd(c.First(l), c.bits[l], w - l);
    if l < w { ShlDouble(c.First(l) + c.bits[l], w - l - 1); }
  }

  lemma {:induction false} EdgeMono(c: Code, w: nat, a: nat, b: nat)
    requires |c.bits| == 17 && 1 <= a <= b <= w + 1 <= 17 && 1 <= w
    ensures c.Edge(w, a) <= c.Edge(w, b)
    decreases b - a
  {
    if a < b {
      EdgeStep(c, w, a);
      EdgeMono(c, w, a + 1, b);
    }
  }

  /** The codes of length `l` own the interval between two edges. */
  lemma InRange(c: Code, w: nat, x: nat, l: nat)
    requires |c.bits| == 17 && 1 <= l <= w <= 16
    ensures c.Edge(w, l) <= x < c.Edge(w, l + 1)
      <==> c.First(l) <= Shr(x, w - l) < c.First(l) + c.bits[l]
  {
    EdgeStep(c, w, l);
    ShrBelow(x, c.First(l), w - l);
    ShrBelow(x, c.First(l) + c.bits[l], w - l);
  }

  /** Below edge `l` nothing from length `l` on can match. */
  lemma {:induction false} FindSkips(c: Code, w: nat, x: nat, a: nat, l: nat)
    requires |c.bits| == 17 && 1 <= a <= l <= w + 1 <= 17 && 1 <= w
    requires c.Edge(w, l) <= x
    ensures c.Find(w, x, a) == c.Find(w, x, l)
    decreases l - a
  {
    if a < l {
      InRange(c, w, x, a);
      EdgeMono(c, w, a + 1, l);
      FindSkips(c, w, x, a + 1, l);
    }
  }

  lemma FindIn(c: Code, w: nat, x: nat, l: nat)
    requires |c.bits| == 17 && 1 <= l <= w <= 16
    requires c.Edge(w, l) <= x < c.Edge(w, l + 1)
    ensures c.First(l) <= Shr(x, w - l) < c.First(l) + c.bits[l]
    ensures c.Find(w, x, 1) == Hit(l, c.Count(l) + (Shr(x, w - l) - c.First(l)))
  {
    InRange(c, w, x, l);
    FindSkips(c, w, x, 1, l);
  }

  /** A hit names the interval `x` lies in. */
  lemma {:induction false} FindHit(c: Code, w: nat, x: nat, l: nat)
    requires |c.bits| == 17 && 1 <= l <= w + 1 <= 17 && 1 <= w
    ensures var h := c.Find(w, x, l); h.Hit? ==>
      && c.Edge(w, h.len) <= x < c.Edge(w, h.len + 1)
      && c.First(h.len) <= Shr(x, w - h.len) < c.First(h.len) + c.bits[h.len]
      && h.idx == c.Count(h.len) + (Shr(x, w - h.len) - c.First(h.len))
    decreases w - l
  {
    hide Shl, Shr, Code.First, Code.Count, Code.Edge;
    if l <= w {
      InRange(c, w, x, l);
      FindHit(c, w, x, l + 1);
    }
  }

  /** The Kraft sum is where the codes end on the left-aligned axis. */
  lemma {:induction false} KraftEdge(c: Code, l: nat)
    requires |c.bits| == 17 && 1 <= l <= 16
    ensures c.Kraft(l) == Shl(c.First(l) + c.bits[l], 16 - l)
  {
    if l == 1 {
      assert c.Kraft(0) == 0;
    } else {
      KraftEdge(c, l - 1);
      ShlDouble(c.First(l - 1) + c.bits[l - 1], 16 - l);
      ShlAdd(c.First(l), c.bits[l], 16 - l);
    }
  }

  lemma {:induction false} KraftMono(c: Code, a: nat, b: nat)
    requires |c.bits| == 17 && a <= b <= 16
    ensures c.Kraft(a) <= c.Kraft(b)
    decreases b - a
  {
    if a < b { KraftMono(c, a, b - 1); }
  }

  lemma {:induction false} CountMono(c: Code, a: nat, b: nat)
    requires |c.bits| == 17 && 1 <= a <= b <= 17
    ensures c.Count(a) <= c.Count(b)
    decreases b - a
  {
    if a < b { CountMono(c, a, b - 1); }
  }

  /** Code words of length `l` fit in `l` bits exactly when the Kraft sum up to
      `l` is at most one. */
  lemma Fits(c: Code, l: nat)
    requires |c.bits| == 17 && 1 <= l <= 16
    ensures c.First(l) + c.bits[l] <= Pow2(l) <==> c.Kraft(l) <= 0x1_0000
  {
    hide Shl, Code.First, Code.Kraft;
    KraftEdge(c, l);
    ShlMono(Pow2(l), c.First(l) + c.bits[l], 16 - l);
    ShlShl(1, l, 16 - l);
    Pow2Values();
  }

  lemma {:induction false} ShlShl(x: int, a: nat, b: nat)
    ensures Shl(Shl(x, a), b) == Shl(x, a + b)
  {
    if b > 0 { ShlShl(x, a, b - 1); }
  }

  lemma {:induction false} ShrShr(x: int, a: nat, b: nat)
    ensures Shr(Shr(x, a), b) == Shr(x, a + b)
    decreases a
  {
    if a > 0 { ShrShr(x / 2, a - 1, b); }
  }

  // ---- decoding is prefix matching ----------------------------------------

  /** Symbol `idx` of length `l` is found exactly when its code word is a prefix
      of the next sixteen bits. */
  lemma FindIffPrefix(c: Code, w: seq<bool>, l: nat, i: nat)
    requires c.WellFormed() && c.Feasible() && |w| == 16 && c.IsWord(l, i)
    ensures c.Find(16, Val(w), 1) == Hit(l, c.Count(l) + i) <==> c.Word(l, i) <= w
  {
    hide Val, Bin, Shr, Shl, Low;
    var head, tail := w[..l], w[l..];
    assert w == head + tail;
    ValCut(head, tail);
    KraftMono(c, l, 16);
    Fits(c, l);
    FindHit(c, 16, Val(w), 1);
    if c.Word(l, i) <= w {
      assert head == c.Word(l, i);
      ValBin(c.First(l) + i, l);
      InRange(c, 16, Val(w), l);
      FindIn(c, 16, Val(w), l);
    } else if c.Find(16, Val(w), 1) == Hit(l, c.Count(l) + i) {
      BinVal(head);
      assert false;
    }
  }

  /** A hit is always some code word, and a miss means there is none. */
  lemma FindIsWord(c: Code, w: seq<bool>)
    requires c.WellFormed() && c.Feasible() && |w| == 16
    ensures var h := c.Find(16, Val(w), 1);
      if h.Hit? then
        h.idx >= c.Count(h.len) && h.idx < 256
        && c.IsWord(h.len, h.idx - c.Count(h.len)) && c.Word(h.len, h.idx - c.Count(h.len)) <= w
      else
        forall l, i :: c.IsWord(l, i) ==> !(c.Word(l, i) <= w)
  {
    hide Val, Bin, Shr, Shl, Low;
    var h := c.Find(16, Val(w), 1);
    FindHit(c, 16, Val(w), 1);
    if h.Hit? {
      FindIffPrefix(c, w, h.len, h.idx - c.Count(h.len));
      CountMono(c, h.len + 1, 17);
    } else {
      forall l, i | c.IsWord(l, i) ensures !(c.Word(l, i) <= w) {
        FindIffPrefix(c, w, l, i);
      }
    }
  }

  /** No code word is a prefix of another. */
  lemma PrefixFree(c: Code, l: nat, i: nat, l': nat, i': nat)
    requires c.WellFormed() && c.Feasible() && c.IsWord(l, i) && c.IsWord(l', i')
    requires c.Word(l, i) <= c.Word(l', i')
    ensures l == l' && i == i'
  {
    var w := c.Word(l', i') + Zeros(16 - l');
    assert c.Word(l, i) <= w;
    FindIffPrefix(c, w, l, i);
    FindIffPrefix(c, w, l', i');
  }

  // ---- decoder tables -----------------------------------------------------

  /** What the lookup table holds for the nine bits `j`: 0, or a length and a
      symbol. */
  function LookEntry(c: Code, j: nat): (e: nat)
    requires c.WellFormed()
  {
    match c.Find(HLOOK, j, 1)
    case Miss => 0
    case Hit(l, idx) => if idx < 256 then l * 256 + c.vals[idx] else 0
  }

  /** The entries below edge `hi` are final, the others still empty. */
  ghost predicate LookDone(c: Code, look: seq<nat>, hi: nat)
    requires c.WellFormed()
  {
    && |look| == 512
    && (forall j :: 0 <= j < hi && j < 512 ==> look[j] == LookEntry(c, j))
    && (forall j :: hi <= j < 512 ==> look[j] == 0)
  }

  /** Lengths below `l` have their limits and offsets, and their codes fit. */
  ghost predicate LimitsDone(c: Code, maxcode: seq<int>, valoff: seq<int>, l: nat)
    requires c.WellFormed() && l <= 17
  {
    && |maxcode| == 18 && |valoff| == 17
    && (forall m :: 1 <= m < l ==>
          && maxcode[m] == (if c.bits[m] > 0 then c.First(m) + c.bits[m] - 1 else -1)
          && valoff[m] == c.Count(m) - c.First(m))
  }

  /** Every code checked so far fits its length. */
  ghost predicate FitsBelow(c: Code, l: nat)
    requires c.WellFormed() && l <= 17
  {
    forall m :: 1 <= m < l && c.bits[m] > 0 ==> c.First(m) + c.bits[m] <= Pow2(m)
  }

  lemma LimitsStep(c: Code, maxcode: seq<int>, valoff: seq<int>, l: nat)
    requires c.WellFormed() && 1 <= l <= 16 && LimitsDone(c, maxcode, valoff, l)
    ensures var m := if c.bits[l] > 0 then c.First(l) + c.bits[l] - 1 else -1;
      LimitsDone(c, maxcode[l := m], valoff[l := c.Count(l) - c.First(l)], l + 1)
  {
  }

  lemma FitsStep(c: Code, l: nat)
    requires c.WellFormed() && 1 <= l <= 16 && FitsBelow(c, l)
    requires c.bits[l] > 0 ==> c.First(l) + c.bits[l] <= Pow2(l)
    ensures FitsBelow(c, l + 1)
  {
  }

  lemma StartDone(c: Code, look: seq<nat>, maxcode: seq<int>, valoff: seq<int>)
    requires c.WellFormed() && |look| == 512 && |maxcode| == 18 && |valoff| == 17
    requires forall j :: 0 <= j < 512 ==> look[j] == 0
    ensures LookDone(c, look, Frontier(c, 1)) && LimitsDone(c, maxcode, valoff, 1) && FitsBelow(c, 1)
    ensures c.First(1) == 0 && c.Count(1) == 0
  {
    ShlZero(HLOOK - 1);
  }

  lemma AllLengths(c: Code, look: seq<nat>)
    requires c.WellFormed() && c.Count(17) <= 256 && FitsBelow(c, 17) && LookDone(c, look, Frontier(c, 17))
    ensures c.Feasible() && LookDone(c, look, 512)
  {
    hide FitsBelow, LookDone;
    FitsBelowKraft(c, 17);
  }

  lemma LookAt(c: Code, look: seq<nat>, j: nat)
    requires c.WellFormed() && LookDone(c, look, 512) && j < 512 && |look| == 512
    ensures look[j] == LookEntry(c, j)
  {
    hide LookEntry;
  }

  lemma LimitsAt(c: Code, maxcode: seq<int>, valoff: seq<int>, l: nat)
    requires c.WellFormed() && 1 <= l <= 16 && LimitsDone(c, maxcode, valoff, 17)
    ensures |maxcode| == 18 && maxcode[l] == (if c.bits[l] > 0 then c.First(l) + c.bits[l] - 1 else -1)
    ensures |valoff| == 17 && valoff[l] == c.Count(l) - c.First(l)
  {
  }

  lemma LimitsTop(c: Code, maxcode: seq<int>, valoff: seq<int>)
    requires c.WellFormed() && LimitsDone(c, maxcode, valoff, 17)
    ensures LimitsDone(c, maxcode[17 := 0x7FFF_FFFF], valoff, 17)
  {
  }

  lemma {:induction false} FitsBelowKraft(c: Code, l: nat)
    requires c.WellFormed() && 1 <= l <= 17 && FitsBelow(c, l)
    ensures c.Kraft(l - 1) <= 0x1_0000
  {
    hide Shl, Code.First;
    if l > 1 {
      FitsBelowKraft(c, l - 1);
      if c.bits[l - 1] > 0 {
        Fits(c, l - 1);
      } else {
        ShlZero(16 - (l - 1));
      }
    }
  }

  lemma {:induction false} ShlZero(k: nat)
    ensures Shl(0, k) == 0
  {
    if k > 0 { ShlZero(k - 1); }
  }

  /** A code word too large for its length means an infeasible table. */
  lemma Oversubscribed(c: Code, l: nat, code: nat)
    requires c.WellFormed() && 1 <= l <= 16
    requires Pow2(l) <= code < c.First(l) + c.bits[l]
    ensures !c.Feasible()
  {
    Fits(c, l);
    KraftMono(c, l, 16);
  }

  class Table {
    const bits: array<nat>
    const vals: array<nat>
    const look: array<nat>
    const maxcode: array<int>
    const valoff: array<int>
    var defined: bool

    ghost predicate Shape()
      reads vals
    {
      && bits.Length == 17 && vals.Length == 256 && look.Length == 512
      && maxcode.Length == 18 && valoff.Length == 17
      && bits != look && vals != look && maxcode != valoff
      && (forall i :: 0 <= i < 256 ==> vals[i] < 256)
    }

    ghost function Spec(): (c: Code)
      requires Shape()
      reads bits, vals
    {
      Code(bits[..], vals[..])
    }

    ghost predicate Built()
      reads bits, vals, look, maxcode, valoff
    {
      && Shape() && Spec().Feasible()
      && LimitsDone(Spec(), maxcode[..], valoff[..], 17)
      && LookDone(Spec(), look[..], 512)
    }

    /** Enters the code `code` of length `l` for the symbol at index `k`. */
    method FillLook(code: nat, l: nat, k: nat)
      requires Shape() && 1 <= l <= HLOOK
      requires Spec().First(l) <= code < Spec().First(l) + bits[l] && code < Pow2(l)
      requires k == Spec().Count(l) + (code - Spec().First(l)) < 256
      requires LookDone(Spec(), look[..], Shl(code, HLOOK - l))
      modifies look
      ensures LookDone(Spec(), look[..], Shl(code + 1, HLOOK - l))
    {
      hide LookEntry, Code.Find, Code.First, Code.Count, Code.Kraft, Shl;
      ghost var c := Spec();
      var first := Shl(code, HLOOK - l);
      var n := Pow2(HLOOK - l);
      ShlAdd(code, 1, HLOOK - l);
      ShlMono(Pow2(l), code + 1, HLOOK - l);
      ShlShl(1, l, HLOOK - l);
      Pow2Values();
      var j := 0;
      while j < n
        invariant 0 <= j <= n
        invariant LookDone(c, look[..], first + j)
      {
        EntryOf(c, first + j, code, l);
        look[first + j] := l * 256 + vals[k];
        j := j + 1;
      }
    }

    /** Enters the codes of length `l`; fails when one does not fit. */
    method EnterCodes(l: nat, code0: nat, k0: nat) returns (ok: bool, code: nat, k: nat)
      requires Shape() && 1 <= l <= 16 && Spec().Count(17) <= 256
      requires code0 == Spec().First(l) && k0 == Spec().Count(l)
      requires LookDone(Spec(), look[..], Frontier(Spec(), l))
      modifies look
      ensures !ok ==> !Spec().Feasible()
      ensures ok ==> code == code0 + bits[l] && k == k0 + bits[l]
      ensures ok && bits[l] > 0 ==> code <= Pow2(l)
      ensures ok ==> LookDone(Spec(), look[..], Frontier(Spec(), l + 1))
    {
      hide Shl, Code.Kraft, Code.Find, LookEntry;
      ghost var c := Spec();
      CountMono(c, l + 1, 17);
      code, k := code0, k0;
      var i := 0;
      while i < bits[l]
        invariant i <= bits[l] && code == code0 + i && k == k0 + i
        invariant i > 0 ==> code <= Pow2(l)
        invariant c == Spec()
        invariant LookDone(c, look[..], if l <= HLOOK then Shl(code, HLOOK - l) else 512)
      {
        if code >= Pow2(l) {
          Oversubscribed(c, l, code);
          return false, code, k;
        }
        if l <= HLOOK {
          FillLook(code, l, k);
        }
        code, k, i := code + 1, k + 1, i + 1;
      }
      FrontierStep(c, look[..], l);
      ok := true;
    }

    /** Enters the codes, limit and offset of length `l`. */
    method EnterLength(l: nat, code0: nat, k0: nat) returns (ok: bool, code: nat, k: nat)
      requires Shape() && 1 <= l <= 16 && Spec().Count(17) <= 256
      requires code0 == Spec().First(l) && k0 == Spec().Count(l)
      requires LimitsDone(Spec(), maxcode[..], valoff[..], l) && FitsBelow(Spec(), l)
      requires LookDone(Spec(), look[..], Frontier(Spec(), l))
      modifies look, maxcode, valoff
      ensures !ok ==> !Spec().Feasible()
      ensures ok ==> code == Spec().First(l + 1) && k == Spec().Count(l + 1)
      ensures ok ==> LimitsDone(Spec(), maxcode[..], valoff[..], l + 1) && FitsBelow(Spec(), l + 1)
      ensures ok ==> LookDone(Spec(), look[..], Frontier(Spec(), l + 1))
    {
      hide Shl, Pow2, Code.Kraft, Code.Find, LookDone, Frontier, LimitsDone, FitsBelow;
      LimitsStep(Spec(), maxcode[..], valoff[..], l);
      valoff[l] := (k0 as int) - (code0 as int);
      ok, code, k := EnterCodes(l, code0, k0);
      if ok {
        FitsStep(Spec(), l);
        maxcode[l] := if bits[l] > 0 then code - 1 else -1;
        assert maxcode[..] == old(maxcode[..])[l := maxcode[l]];
        assert valoff[..] == old(valoff[..])[l := valoff[l]];
        code := 2 * code;
      }
    }

    /** The lengths below `l` have been entered, and `code` and `k` come next. */
    ghost predicate Entered(l: nat, code: nat, k: nat)
      requires Shape()
      reads bits, vals, look, maxcode, valoff
    {
      && 1 <= l <= 17 && Spec().Count(17) <= 256
      && code == Spec().First(l) && k == Spec().Count(l)
      && LimitsDone(Spec(), maxcode[..], valoff[..], l) && FitsBelow(Spec(), l)
      && LookDone(Spec(), look[..], Frontier(Spec(), l))
    }

    method NextLength(l: nat, code0: nat, k0: nat) returns (ok: bool, code: nat, k: nat)
      requires Shape() && Entered(l, code0, k0) && l <= 16
      modifies look, maxcode, valoff
      ensures if ok then Entered(l + 1, code, k) else !Spec().Feasible()
      ensures Spec() == old(Spec())
    {
      hide LimitsDone, FitsBelow, LookDone, Frontier, Code.Kraft, Code.Feasible;
      ok, code, k := EnterLength(l, code0, k0);
    }

    /** Enters every length in turn. */
    method EnterLengths() returns (ok: bool)
      requires Shape() && Spec().Count(17) <= 256
      requires forall j :: 0 <= j < 512 ==> look[j] == 0
      modifies look, maxcode, valoff
      ensures ok <==> Spec().Feasible()
      ensures ok ==> LimitsDone(Spec(), maxcode[..], valoff[..], 17) && LookDone(Spec(), look[..], 512)
    {
      StartDone(Spec(), look[..], maxcode[..], valoff[..]);
      assert Entered(1, 0, 0);
      ok := EnterAll();
      if ok {
        AllLengths(Spec(), look[..]);
        hide LookDone, LimitsDone;
        CloseLimits();
      }
    }

    method EnterAll() returns (ok: bool)
      requires Shape() && Entered(1, 0, 0)
      modifies look, maxcode, valoff
      ensures if ok then exists code, k :: Entered(17, code, k) else !Spec().Feasible()
      ensures Spec() == old(Spec())
    {
      hide Entered, Code.Feasible, Code.WellFormed;
      var code, k, l := 0, 0, 1;
      ok := true;
      while l <= 16
        invariant 1 <= l <= 17 && Entered(l, code, k) && Spec() == old(Spec())
        invariant ok
      {
        ok, code, k := NextLength(l, code, k);
        if !ok {
          return;
        }
        l := l + 1;
      }
    }

    /** The sentinel that ends every search. */
    method CloseLimits()
      requires Shape() && LimitsDone(Spec(), maxcode[..], valoff[..], 17)
      modifies maxcode
      ensures LimitsDone(Spec(), maxcode[..], valoff[..], 17) && maxcode[17] == 0x7FFF_FFFF
    {
      hide LimitsDone;
      LimitsTop(Spec(), maxcode[..], valoff[..]);
      ghost var before := maxcode[..];
      maxcode[17] := 0x7FFF_FFFF;
      assert maxcode[..] == before[17 := 0x7FFF_FFFF];
    }

    /** Builds the decode tables, or fails for a table that is not a code. */
    method Build(isDc: bool) returns (ok: bool)
      requires Shape()
      modifies look, maxcode, valoff, `defined
      ensures Shape()
      ensures ok <==> Spec().Feasible() && (isDc ==> forall i :: 0 <= i < Spec().Count(17) ==> vals[i] <= 15)
      ensures ok ==> Built() && defined
      ensures !ok ==> defined == old(defined)
    {
      hide Shl, Code.Kraft, Code.Find, LookEntry, LookDone, LimitsDone, Code.Count;
      var total := Total();
      if total > 256 {
        return false;
      }
      ClearLook();
      ok := EnterLengths();
      if !ok {
        return;
      }
      if isDc {
        var i := 0;
        while i < total
          invariant 0 <= i <= total && forall j :: 0 <= j < i ==> vals[j] <= 15
        {
          if vals[i] > 15 {
            return false;
          }
          i := i + 1;
        }
      }
      defined := true;
    }

    /** Looks the sixteen bits `peek` up: code length and symbol, or 16 and -1. */
    method Lookup(peek: nat) returns (len: nat, sym: int)
      requires Built() && Shr(peek, 16 - HLOOK) < 512
      ensures (len, sym) == Match(Spec(), peek)
    {
      hide Shl, Shr, Match, Code.Find, Code.First, Code.Count, Code.Edge, Code.Kraft, LookEntry, LookDone, LimitsDone;
      ghost var c := Spec();
      LookAt(c, look[..], Shr(peek, 16 - HLOOK));
      ShortCode(c, peek);
      var e := look[Shr(peek, 16 - HLOOK)];
      if e != 0 {
        return e / 256, e % 256;
      }
      len, sym := LongLookup(peek);
    }

    /** The canonical search among the codes longer than the look-up table covers. */
    method LongLookup(peek: nat) returns (len: nat, sym: int)
      requires Built() && Spec().Edge(16, HLOOK + 1) <= peek
      requires Spec().Find(16, peek, 1) == Spec().Find(16, peek, HLOOK + 1)
      ensures (len, sym) == Match(Spec(), peek)
    {
      hide Shl, Shr, Match, Code.Find, Code.First, Code.Count, Code.Edge, Code.Kraft, LookEntry, LookDone, LimitsDone;
      ghost var c := Spec();
      var l := HLOOK + 1;
      while l <= 16
        invariant HLOOK + 1 <= l <= 17
        invariant c.Edge(16, l) <= peek && c.Find(16, peek, 1) == c.Find(16, peek, l)
      {
        LongCode(c, peek, l);
        LimitsAt(c, maxcode[..], valoff[..], l);
        var code := Shr(peek, 16 - l);
        if code <= maxcode[l] {
          var idx := code + valoff[l];
          return l, if 0 <= idx < 256 then vals[idx] else -1;
        }
        l := l + 1;
      }
      FindEnd(c, peek);
      return 16, -1;
    }

    /** Decodes one symbol, or returns -1 for bits that begin no code word. */
    method Decode(b: Reader) returns (sym: int)
      requires Built() && b.Valid()
      modifies b
      ensures b.Valid()
      ensures (sym, b.View()) == Symbol(Spec(), old(b.View()))
    {
      hide Val, Take, Shr, Match, LookEntry, LookDone, LimitsDone, Code.Kraft, Code.Count, Advance;
      var peek := b.Peek(16);
      PeekRange(b.View().bits);
      var len;
      len, sym := Lookup(peek);
      MatchLength(Spec(), peek);
      b.Consume(len);
    }

    method Total() returns (total: nat)
      requires Shape()
      ensures total == Spec().Count(17)
    {
      total := 0;
      var l := 1;
      while l <= 16
        invariant 1 <= l <= 17 && total == Spec().Count(l)
      {
        total, l := total + bits[l], l + 1;
      }
    }

    method ClearLook()
      requires Shape()
      modifies look
      ensures forall j :: 0 <= j < 512 ==> look[j] == 0
    {
      var j := 0;
      while j < 512
        invariant 0 <= j <= 512 && forall i :: 0 <= i < j ==> look[i] == 0
      {
        look[j] := 0;
        j := j + 1;
      }
    }
  }

  /** Narrowing the window to nine bits finds the same short code words. */
  lemma {:induction false} FindNarrow(c: Code, x: nat, l: nat)
    requires c.WellFormed() && 1 <= l <= HLOOK + 1
    ensures var h := c.Find(HLOOK, Shr(x, 7), l);
      c.Find(16, x, l) == (if h.Hit? then h else c.Find(16, x, HLOOK + 1))
    ensures c.Find(HLOOK, Shr(x, 7), l).Miss? && c.Edge(16, l) <= x ==> c.Edge(16, HLOOK + 1) <= x
    decreases HLOOK + 1 - l
  {
    if l <= HLOOK {
      ShrShr(x, 7, HLOOK - l);
      InRange(c, 16, x, l);
      FindNarrow(c, x, l + 1);
    }
  }

  lemma PeekRange(b: seq<bool>)
    ensures Val(Take(b, 16)) < 0x1_0000 && 0 <= Shr(Val(Take(b, 16)), 7) < 512
  {
    ValBound(Take(b, 16));
    Pow2Values();
    ShrBelow(Val(Take(b, 16)), 512, 7);
    ShlShl(1, 9, 7);
  }

  lemma ShortCode(c: Code, x: nat)
    requires c.WellFormed() && c.Count(17) <= 256
    ensures var e := LookEntry(c, Shr(x, 7));
      if e != 0 then Match(c, x) == (e / 256, e % 256)
      else
        c.Find(16, x, 1) == c.Find(16, x, HLOOK + 1) && c.Edge(16, HLOOK + 1) <= x
  {
    hide Shl, Shr, Code.Find, Code.First, Code.Count, Code.Edge;
    FirstEdge(c);
    FindNarrow(c, x, 1);
    HitIndex(c, HLOOK, Shr(x, 7));
    var h := c.Find(HLOOK, Shr(x, 7), 1);
    if h.Hit? { PackedEntry(h.len, c.vals[h.idx]); }
  }

  lemma PackedEntry(l: nat, v: nat)
    requires v < 256 && l > 0
    ensures l * 256 + v > 0 && (l * 256 + v) / 256 == l && (l * 256 + v) % 256 == v
  {
  }

  lemma FirstEdge(c: Code)
    requires c.WellFormed()
    ensures c.Edge(16, 1) == 0
  {
    ShlZero(15);
  }

  lemma HitIndex(c: Code, w: nat, x: nat)
    requires c.WellFormed() && c.Count(17) <= 256 && 1 <= w <= 16
    ensures var h := c.Find(w, x, 1); h.Hit? ==> 1 <= h.len <= w && h.idx < 256
  {
    hide Shl, Shr, Code.Find;
    FindHit(c, w, x, 1);
    var h := c.Find(w, x, 1);
    if h.Hit? { CountMono(c, h.len + 1, 17); }
  }

  /** One step of the canonical search: `x` is past all shorter codes. */
  lemma LongCode(c: Code, x: nat, l: nat)
    requires c.WellFormed() && c.Count(17) <= 256 && 1 <= l <= 16 && c.Edge(16, l) <= x
    ensures c.First(l) <= Shr(x, 16 - l)
    ensures Shr(x, 16 - l) < c.First(l) + c.bits[l] ==>
      && c.Count(l) + (Shr(x, 16 - l) - c.First(l)) < 256
      && (c.Find(16, x, 1) == c.Find(16, x, l) ==>
            Match(c, x) == (l, c.vals[c.Count(l) + (Shr(x, 16 - l) - c.First(l))]))
    ensures Shr(x, 16 - l) >= c.First(l) + c.bits[l] ==>
      c.Find(16, x, l) == c.Find(16, x, l + 1) && c.Edge(16, l + 1) <= x
  {
    hide Shl, Shr;
    ShrBelow(x, c.First(l), 16 - l);
    InRange(c, 16, x, l);
    EdgeStep(c, 16, l);
    CountMono(c, l + 1, 17);
  }

  lemma FindEnd(c: Code, x: nat)
    requires c.WellFormed()
    ensures c.Find(16, x, 1) == c.Find(16, x, 17) ==> Match(c, x) == (16, -1)
  {
  }

  lemma MatchLength(c: Code, x: nat)
    requires c.WellFormed()
    ensures 1 <= Match(c, x).0 <= 16
  {
  }

  /** How far the lookup table is filled once lengths below `l` are in. */
  ghost function Frontier(c: Code, l: nat): (f: nat)
    requires c.WellFormed() && 1 <= l <= 17
  {
    if l <= HLOOK then c.Edge(HLOOK, l) else 512
  }

  lemma FrontierStep(c: Code, look: seq<nat>, l: nat)
    requires c.WellFormed() && 1 <= l <= 16
    requires LookDone(c, look, if l <= HLOOK then Shl(c.First(l) + c.bits[l], HLOOK - l) else 512)
    ensures LookDone(c, look, Frontier(c, l + 1))
  {
    hide Shl, LookEntry;
    if l <= HLOOK {
      EdgeStep(c, HLOOK, l);
    }
    if l == HLOOK {
      forall j | c.Edge(HLOOK, l + 1) <= j < 512 ensures LookEntry(c, j) == 0 {
        BeyondEdge(c, j);
      }
    }
  }

  lemma BeyondEdge(c: Code, j: nat)
    requires c.WellFormed() && c.Edge(HLOOK, HLOOK + 1) <= j
    ensures LookEntry(c, j) == 0
  {
    FindSkips(c, HLOOK, j, 1, HLOOK + 1);
  }

  /** The nine-bit strings that begin with a short code word decode to it. */
  lemma EntryOf(c: Code, j: nat, code: nat, l: nat)
    requires c.WellFormed() && 1 <= l <= HLOOK
    requires c.First(l) <= code < c.First(l) + c.bits[l] && c.Count(l) + (code - c.First(l)) < 256
    requires Shl(code, HLOOK - l) <= j < Shl(code + 1, HLOOK - l)
    ensures LookEntry(c, j) == l * 256 + c.vals[c.Count(l) + (code - c.First(l))]
  {
    hide Shl, Shr, Code.First, Code.Count, Code.Edge;
    ShrBelow(j, code, HLOOK - l);
    ShrBelow(j, code + 1, HLOOK - l);
    InRange(c, HLOOK, j, l);
    FindIn(c, HLOOK, j, l);
  }

  /** The table is built, and holds the code. */
  ghost predicate Holds(t: Table, c: Code)
    reads t.bits, t.vals, t.look, t.maxcode, t.valoff
  {
    t.Built() && c == t.Spec() && c.WellFormed()
  }

  predicate Formed(codes: seq<Code>) { forall i :: 0 <= i < |codes| ==> codes[i].WellFormed() }
}

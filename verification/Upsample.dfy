/** Enlarging one component row: the row functions say what each mode shows, the
    methods compute them inside one shared memory, where the source row lies below
    the buffer that is filled. */
module Upsample {
  import opened Grid

  function Clamp(i: int, n: nat): (r: nat)
    requires n > 0
    ensures r < n
  {
    if i < 0 then 0 else if i >= n then n - 1 else i
  }

  /** Output `x` of a doubled axis leans to the right neighbour when odd. */
  function Lean(x: nat): int { if x % 2 == 1 then x / 2 + 1 else x / 2 - 1 }

  /** Three parts `a`, one part `b`. */
  function Lean3(a: int, b: int): int { 3 * a + b }

  // ---- rows -------------------------------------------------------------------------

  /** Triangle filter: three parts the sample, one part the nearer neighbour, the edge
      samples being their own neighbours. */
  function Smooth(row: seq<Byte>, x: nat): (b: Byte)
    requires x < 2 * |row|
  {
    (Lean3(row[x / 2], row[Clamp(Lean(x), |row|)]) + (if x % 2 == 1 then 2 else 1)) / 4
  }

  function Col(r0: seq<Byte>, r1: seq<Byte>, i: nat): (c: nat)
    requires |r0| == |r1| && i < |r0|
    ensures c <= 1020
  {
    Lean3(r0[i], r1[i])
  }

  /** The triangle filter in both directions; `r1` is the nearer neighbour row. */
  function Smooth2(r0: seq<Byte>, r1: seq<Byte>, x: nat): (b: Byte)
    requires |r0| == |r1| && x < 2 * |r0|
  {
    (Lean3(Col(r0, r1, x / 2), Col(r0, r1, Clamp(Lean(x), |r0|))) + (if x % 2 == 1 then 7 else 8)) / 16
  }

  function Smoothed(row: seq<Byte>): (s: seq<Byte>)
  {
    seq(2 * |row|, x requires 0 <= x < 2 * |row| => Smooth(row, x))
  }

  function Smoothed2(r0: seq<Byte>, r1: seq<Byte>): (s: seq<Byte>)
    requires |r0| == |r1|
  {
    seq(2 * |r0|, x requires 0 <= x < 2 * |r0| => Smooth2(r0, r1, x))
  }

  /** The triangle filter between two rows only. */
  function Blended(r0: seq<Byte>, r1: seq<Byte>, odd: bool): (s: seq<Byte>)
    requires |r0| == |r1|
  {
    seq(|r0|, x requires 0 <= x < |r0| => ((Col(r0, r1, x) + (if odd then 2 else 1)) / 4) as Byte)
  }

  function Nth(row: seq<Byte>, e: nat, x: nat): (b: Byte)
    requires e > 0 && x < |row| * e
  {
    assert x / e < |row| by { Quotient(x, e, |row|); }
    row[x / e]
  }

  function Repeated(row: seq<Byte>, e: nat): (s: seq<Byte>)
    requires e > 0
    ensures |s| == |row| * e
  {
    seq(|row| * e, x requires 0 <= x < |row| * e => Nth(row, e, x))
  }

  function Near(row: seq<Byte>, n: nat, x: nat): (b: Byte)
    requires x < n && |row| > 0
  {
    NearIn(x, |row|, n);
    row[x * |row| / n]
  }

  function Picked(row: seq<Byte>, n: nat): (s: seq<Byte>)
    requires n > 0 && |row| > 0
  {
    seq(n, x requires 0 <= x < n => Near(row, n, x))
  }

  lemma Quotient(x: nat, e: nat, n: nat)
    requires e > 0 && x < n * e
    ensures x / e < n
  {
    if x / e >= n { Mono(e, n, x / e); }
  }

  lemma NearIn(x: nat, m: nat, n: nat)
    requires x < n && m > 0
    ensures x * m / n < m
  {
    assert x * m < m * n by { Mono(m, x + 1, n); assert (x + 1) * m == x * m + m; }
    Quotient(x * m, n, m);
  }

  // ---- the same in place --------------------------------------------------------------

  /** Row `from..from+n` lies below the buffer of `size` entries at `out`. */
  ghost predicate Placed(m: array<Byte>, from: nat, n: nat, out: nat, size: nat)
  {
    from + n <= out && out + size <= m.Length
  }

  /** The first `n` entries at `out` hold the start of `row`, and only they differ. */
  ghost predicate Filled(before: seq<Byte>, after: seq<Byte>, row: seq<Byte>, out: nat, n: nat)
  {
    && n <= |row| && out + n <= |before| && Kept(before, after, out, out + |row|)
    && forall k :: 0 <= k < n ==> after[out + k] == row[k]
  }

  lemma FilledAll(before: seq<Byte>, after: seq<Byte>, row: seq<Byte>, out: nat)
    requires Filled(before, after, row, out, |row|)
    ensures after[out..out + |row|] == row
  {
  }

  /** Writes the next two entries. */
  method PutPair(m: array<Byte>, out: nat, i: nat, a: Byte, b: Byte, ghost before: seq<Byte>, ghost all: seq<Byte>)
    requires Filled(before, m[..], all, out, 2 * i) && 2 * i + 2 <= |all| && out + |all| <= m.Length
    requires all[2 * i] == a && all[2 * i + 1] == b
    modifies m
    ensures Filled(before, m[..], all, out, 2 * i + 2)
    ensures Kept(old(m[..]), m[..], out, out + |all|)
  {
    m[out + 2 * i], m[out + 2 * i + 1] := a, b;
  }

  method PutOne(m: array<Byte>, out: nat, n: nat, b: Byte, ghost before: seq<Byte>, ghost all: seq<Byte>)
    requires Filled(before, m[..], all, out, n) && n < |all| && out + |all| <= m.Length && all[n] == b
    modifies m
    ensures Filled(before, m[..], all, out, n + 1)
    ensures Kept(old(m[..]), m[..], out, out + |all|)
  {
    m[out + n] := b;
  }

  lemma FilledNone(before: seq<Byte>, all: seq<Byte>, out: nat)
    requires out <= |before|
    ensures Filled(before, before, all, out, 0)
  {
  }

  /** Reads a source row, which filling the buffer does not touch. */
  ghost predicate Reads(m: seq<Byte>, row: seq<Byte>, from: nat, out: nat)
  {
    from + |row| <= out <= |m| && forall i :: 0 <= i < |row| ==> m[from + i] == row[i]
  }

  lemma ReadsStill(a: seq<Byte>, b: seq<Byte>, row: seq<Byte>, from: nat, out: nat, n: nat)
    requires Reads(a, row, from, out) && Kept(a, b, out, out + n)
    ensures Reads(b, row, from, out)
  {
  }

  method FancyH2V1(m: array<Byte>, from: nat, dw: nat, out: nat)
    requires dw > 2 && Placed(m, from, dw, out, 2 * dw)
    modifies m
    ensures Filled(old(m[..]), m[..], Smoothed(old(m[from..from + dw])), out, 2 * dw)
  {
    hide Smooth, Filled, Kept;
    ghost var before, row := m[..], m[from..from + dw];
    ghost var all := Smoothed(row);
    Edges(row);
    FilledNone(before, all, out);
    var v: int := m[from];
    PutPair(m, out, 0, v, (v * 3 + m[from + 1] + 2) / 4, before, all);
    ReadsStill(before, m[..], row, from, out, 2 * dw);
    var i := 1;
    while i + 1 < dw
      invariant 1 <= i < dw && Filled(before, m[..], all, out, 2 * i) && Reads(m[..], row, from, out)
    {
      Inner(row, i);
      ghost var was := m[..];
      assert was[from + i] == row[i] && was[from + (i - 1)] == row[i - 1] && was[from + (i + 1)] == row[i + 1];
      var w := (m[from + i] as int) * 3;
      PutPair(m, out, i, (w + m[from + (i - 1)] + 1) / 4, (w + m[from + (i + 1)] + 2) / 4, before, all);
      ReadsStill(was, m[..], row, from, out, 2 * dw);
      i := i + 1;
    }
    assert m[..][from + (dw - 1)] == row[dw - 1] && m[..][from + (dw - 2)] == row[dw - 2];
    v := m[from + (dw - 1)];
    PutPair(m, out, dw - 1, (v * 3 + m[from + (dw - 2)] + 1) / 4, v, before, all);
  }

  lemma Edges(row: seq<Byte>)
    requires |row| > 2
    ensures var n := |row|;
      && Smooth(row, 0) == row[0] && Smooth(row, 1) == (Lean3(row[0], row[1]) + 2) / 4
      && Smooth(row, 2 * (n - 1)) == (Lean3(row[n - 1], row[n - 2]) + 1) / 4 && Smooth(row, 2 * (n - 1) + 1) == row[n - 1]
  {
    var n := |row|;
    Halves(n - 1);
  }

  lemma Inner(row: seq<Byte>, i: nat)
    requires 1 <= i && i + 1 < |row|
    ensures Smooth(row, 2 * i) == (Lean3(row[i], row[i - 1]) + 1) / 4
    ensures Smooth(row, 2 * i + 1) == (Lean3(row[i], row[i + 1]) + 2) / 4
  {
    Halves(i);
  }

  lemma Halves(i: nat)
    ensures (2 * i) / 2 == i && (2 * i + 1) / 2 == i && (2 * i) % 2 == 0 && (2 * i + 1) % 2 == 1
    ensures Lean(2 * i) == i - 1 && Lean(2 * i + 1) == i + 1
  {
  }

  method FancyH2V2(m: array<Byte>, from0: nat, from1: nat, dw: nat, out: nat)
    requires dw > 2 && Placed(m, from0, dw, out, 2 * dw) && Placed(m, from1, dw, out, 2 * dw)
    modifies m
    ensures Filled(old(m[..]), m[..], Smoothed2(old(m[from0..from0 + dw]), old(m[from1..from1 + dw])), out, 2 * dw)
  {
    hide Smooth2, Filled, Kept, Col, Reads;
    ghost var before, r0, r1 := m[..], m[from0..from0 + dw], m[from1..from1 + dw];
    ghost var all := Smoothed2(r0, r1);
    Edges2(r0, r1);
    FilledNone(before, all, out);
    ReadsRow(m[..], from0, dw, out);
    ReadsRow(m[..], from1, dw, out);
    var cur := ColAt(m, from0, from1, 0, out, r0, r1);
    var next := ColAt(m, from0, from1, 1, out, r0, r1);
    PutPair(m, out, 0, (cur * 4 + 8) / 16, (cur * 3 + next + 7) / 16, before, all);
    ReadsStill(before, m[..], r0, from0, out, 2 * dw);
    ReadsStill(before, m[..], r1, from1, out, 2 * dw);
    var last := cur;
    cur := next;
    var i := 1;
    while i + 1 < dw
      invariant 1 <= i < dw && Filled(before, m[..], all, out, 2 * i)
      invariant Reads(m[..], r0, from0, out) && Reads(m[..], r1, from1, out)
      invariant last == Col(r0, r1, i - 1) && cur == Col(r0, r1, i)
    {
      Inner2(r0, r1, i);
      ghost var was := m[..];
      next := ColAt(m, from0, from1, i + 1, out, r0, r1);
      PutPair(m, out, i, (cur * 3 + last + 8) / 16, (cur * 3 + next + 7) / 16, before, all);
      ReadsStill(was, m[..], r0, from0, out, 2 * dw);
      ReadsStill(was, m[..], r1, from1, out, 2 * dw);
      last, cur := cur, next;
      i := i + 1;
    }
    PutPair(m, out, dw - 1, (cur * 3 + last + 8) / 16, (cur * 4 + 7) / 16, before, all);
  }

  lemma ReadsRow(m: seq<Byte>, from: nat, n: nat, out: nat)
    requires from + n <= out <= |m|
    ensures Reads(m, m[from..from + n], from, out)
  {
  }

  method ColAt(m: array<Byte>, from0: nat, from1: nat, i: nat, ghost out: nat, ghost r0: seq<Byte>, ghost r1: seq<Byte>) returns (c: nat)
    requires |r0| == |r1| && i < |r0| && Reads(m[..], r0, from0, out) && Reads(m[..], r1, from1, out)
    ensures c == Col(r0, r1, i)
  {
    assert m[..][from0 + i] == r0[i] && m[..][from1 + i] == r1[i];
    return (m[from0 + i] as int) * 3 + m[from1 + i];
  }

  lemma Edges2(r0: seq<Byte>, r1: seq<Byte>)
    requires |r0| == |r1| && |r0| > 2
    ensures var n := |r0|;
      && Smooth2(r0, r1, 0) == (Col(r0, r1, 0) * 4 + 8) / 16
      && Smooth2(r0, r1, 1) == (Col(r0, r1, 0) * 3 + Col(r0, r1, 1) + 7) / 16
      && Smooth2(r0, r1, 2 * (n - 1)) == (Col(r0, r1, n - 1) * 3 + Col(r0, r1, n - 2) + 8) / 16
      && Smooth2(r0, r1, 2 * (n - 1) + 1) == (Col(r0, r1, n - 1) * 4 + 7) / 16
  {
    hide Col;
    Halves(|r0| - 1);
  }

  lemma Inner2(r0: seq<Byte>, r1: seq<Byte>, i: nat)
    requires |r0| == |r1| && 1 <= i && i + 1 < |r0|
    ensures Smooth2(r0, r1, 2 * i) == (Col(r0, r1, i) * 3 + Col(r0, r1, i - 1) + 8) / 16
    ensures Smooth2(r0, r1, 2 * i + 1) == (Col(r0, r1, i) * 3 + Col(r0, r1, i + 1) + 7) / 16
  {
    hide Col;
    Halves(i);
  }

  method Double(m: array<Byte>, from: nat, dw: nat, out: nat)
    requires Placed(m, from, dw, out, dw * 2)
    modifies m
    ensures Filled(old(m[..]), m[..], Repeated(old(m[from..from + dw]), 2), out, dw * 2)
  {
    ghost var before, row := m[..], m[from..from + dw];
    ghost var all := Repeated(row, 2);
    var i := 0;
    while i < dw
      invariant 0 <= i <= dw && Filled(before, m[..], all, out, 2 * i) && m[from..from + dw] == row
    {
      Halves(i);
      m[out + 2 * i + 1] := m[from + i];
      m[out + 2 * i] := m[out + 2 * i + 1];
      i := i + 1;
    }
  }

  method Blend(m: array<Byte>, from0: nat, from1: nat, dw: nat, odd: bool, out: nat)
    requires Placed(m, from0, dw, out, dw) && Placed(m, from1, dw, out, dw)
    modifies m
    ensures Filled(old(m[..]), m[..], Blended(old(m[from0..from0 + dw]), old(m[from1..from1 + dw]), odd), out, dw)
  {
    ghost var before, r0, r1 := m[..], m[from0..from0 + dw], m[from1..from1 + dw];
    ghost var all := Blended(r0, r1, odd);
    hide Col, Filled, Kept, Reads;
    FilledNone(before, all, out);
    ReadsRow(m[..], from0, dw, out);
    ReadsRow(m[..], from1, dw, out);
    var bias := if odd then 2 else 1;
    var i := 0;
    while i < dw
      invariant 0 <= i <= dw && Filled(before, m[..], all, out, i)
      invariant Reads(m[..], r0, from0, out) && Reads(m[..], r1, from1, out)
    {
      var c := ColAt(m, from0, from1, i, out, r0, r1);
      ghost var was := m[..];
      PutOne(m, out, i, (c + bias) / 4, before, all);
      ReadsStill(was, m[..], r0, from0, out, dw);
      ReadsStill(was, m[..], r1, from1, out, dw);
      i := i + 1;
    }
  }

  method Spread(m: array<Byte>, from: nat, dw: nat, e: nat, out: nat)
    requires e > 0 && Placed(m, from, dw, out, dw * e)
    modifies m
    ensures Filled(old(m[..]), m[..], Repeated(old(m[from..from + dw]), e), out, dw * e)
  {
    hide Nth;
    ghost var before, row := m[..], m[from..from + dw];
    ghost var all := Repeated(row, e);
    var i, o := 0, 0;
    while i < dw
      invariant 0 <= i <= dw && o == i * e && Filled(before, m[..], all, out, o) && m[from..from + dw] == row
    {
      var k := 0;
      Mono(e, i + 1, dw);
      assert (i + 1) * e == i * e + e;
      while k < e
        invariant 0 <= k <= e && o == i * e + k && Filled(before, m[..], all, out, o) && m[from..from + dw] == row
      {
        NthAt(row, e, i, k);
        m[out + o] := m[from + i];
        o, k := o + 1, k + 1;
      }
      i := i + 1;
    }
  }

  lemma NthAt(row: seq<Byte>, e: nat, i: nat, k: nat)
    requires e > 0 && i < |row| && k < e
    ensures i * e + k < |row| * e && Nth(row, e, i * e + k) == row[i]
  {
    Mono(e, i + 1, |row|);
    assert (i + 1) * e == i * e + e;
    var q := (i * e + k) / e;
    if q > i { Mono(e, i + 1, q); } else if q < i { Mono(e, q + 1, i); }
  }

  method Pick(m: array<Byte>, from: nat, dw: nat, n: nat, out: nat)
    requires dw > 0 && n > 0 && Placed(m, from, dw, out, n)
    modifies m
    ensures Filled(old(m[..]), m[..], Picked(old(m[from..from + dw]), n), out, n)
  {
    ghost var before, row := m[..], m[from..from + dw];
    ghost var all := Picked(row, n);
    var x := 0;
    while x < n
      invariant 0 <= x <= n && Filled(before, m[..], all, out, x) && m[from..from + dw] == row
    {
      NearIn(x, dw, n);
      var i := x * dw / n;
      assert m[from + i] == row[i] == Near(row, n, x);
      m[out + x] := m[from + i];
      x := x + 1;
    }
  }
}

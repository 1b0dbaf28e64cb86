/** Arithmetic of row-major storage, shared by everything that keeps a picture or a
    table of blocks in one flat run of memory. */
module Grid {

  type Byte = x: int | 0 <= x < 256

  lemma Mono(w: nat, a: nat, b: nat)
    requires a <= b
    ensures a * w <= b * w
  {
  }

  lemma InPlane(x: nat, y: nat, w: nat, h: nat)
    requires x < w && y < h
    ensures y * w + x < w * h
  {
    assert (y + 1) * w <= h * w by { Mono(w, y + 1, h); }
  }

  lemma PlaceUnique(x: nat, y: nat, x': nat, y': nat, w: nat)
    requires x < w && x' < w && y * w + x == y' * w + x'
    ensures x == x' && y == y'
  {
    if y < y' { Mono(w, y + 1, y'); } else if y' < y { Mono(w, y' + 1, y); }
  }

  /** The place of column `x` of row `y` when rows are `w` wide. */
  function At(y: nat, w: nat, x: nat): nat { y * w + x }

  function Least(a: nat, b: nat): nat { if a < b then a else b }

  /** Nothing outside `lo..hi` differs. */
  ghost predicate Kept<T(!new)>(before: seq<T>, after: seq<T>, lo: nat, hi: nat)
  {
    |after| == |before| && forall p :: 0 <= p < |before| && (p < lo || hi <= p) ==> after[p] == before[p]
  }

  lemma KeptThen<T(!new)>(a: seq<T>, b: seq<T>, c: seq<T>, lo: nat, hi: nat, lo': nat, hi': nat)
    requires Kept(a, b, lo, hi) && Kept(b, c, lo', hi')
    ensures Kept(a, c, Least(lo, lo'), if hi < hi' then hi' else hi)
  {
  }

  /** What lies outside the changed part reads the same. */
  lemma KeptSlice<T(!new)>(a: seq<T>, b: seq<T>, lo: nat, hi: nat, from: nat, to: nat)
    requires Kept(a, b, lo, hi) && from <= to <= |a| && (to <= lo || hi <= from)
    ensures a[from..to] == b[from..to]
  {
  }
}

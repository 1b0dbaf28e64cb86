/** The RAM file store: a table of entries over one byte buffer, a bump allocator,
    in-place overwrites, deletion and compaction.  It behaves like a map from
    path to bytes. */
module Store {
  import opened Common
  import opened Grid

  type Path = string

  const MAX_PATH: nat := 96
  const MAX_ENTRIES: nat := 64

  /** `isDir` entries that once were files keep the extent they had. */
  datatype Entry = Entry(used: bool, isDir: bool, path: Path, offset: nat, size: nat, capacity: nat)
  {
    predicate IsFile() { used && !isDir }

    function End(): nat { offset + capacity }

    /** An entry that holds no extent, as a directory made by the store does. */
    predicate Blank() { offset == 0 && size == 0 && capacity == 0 }
  }

  const FREE := Entry(false, false, "", 0, 0, 0)

  // ---- the table ----------------------------------------------------------------

  /** The extents of two files do not overlap; an empty one is not inside. */
  predicate Apart(e: Entry, f: Entry)
  {
    e.End() <= f.offset || f.End() <= e.offset
  }

  ghost predicate Extents(es: seq<Entry>, end: nat)
  {
    && (forall i :: 0 <= i < |es| && es[i].IsFile() ==> es[i].size <= es[i].capacity && es[i].End() <= end)
    && (forall i, j :: 0 <= i < j < |es| && es[i].IsFile() && es[j].IsFile() ==> Apart(es[i], es[j]))
  }

  ghost predicate UniquePaths(es: seq<Entry>)
  {
    forall i, j :: 0 <= i < j < |es| && es[i].used && es[j].used ==> es[i].path != es[j].path
  }

  ghost predicate Sound(es: seq<Entry>, end: nat)
  {
    Extents(es, end) && UniquePaths(es)
  }

  /** The first entry with path `p`, or the length of the table. */
  function Find(es: seq<Entry>, p: Path): (i: nat)
    ensures i <= |es|
    ensures i < |es| ==> es[i].used && es[i].path == p
    ensures forall j :: 0 <= j < i ==> !(es[j].used && es[j].path == p)
  {
    if es == [] then 0
    else if es[0].used && es[0].path == p then 0
    else
      var i := Find(es[1..], p);
      assert forall j :: 0 < j < i + 1 ==> es[j] == es[1..][j - 1];
      i + 1
  }

  function Slice(ram: seq<Byte>, e: Entry): (b: seq<Byte>)
  {
    if e.offset + e.size <= |ram| then ram[e.offset..e.offset + e.size] else []
  }

  /** What the store holds under a path. */
  function Content(es: seq<Entry>, ram: seq<Byte>, p: Path): (c: Option<seq<Byte>>)
  {
    var i := Find(es, p);
    if i < |es| && es[i].IsFile() then Some(Slice(ram, es[i])) else None
  }

  lemma FindIs(es: seq<Entry>, i: nat)
    requires i < |es| && es[i].used && UniquePaths(es)
    ensures Find(es, es[i].path) == i
  {
    var j := Find(es, es[i].path);
  }

  lemma ContentIs(es: seq<Entry>, ram: seq<Byte>, i: nat)
    requires i < |es| && es[i].used && UniquePaths(es)
    ensures Content(es, ram, es[i].path) == if es[i].IsFile() then Some(Slice(ram, es[i])) else None
  {
    FindIs(es, i);
  }

  /** Two tables that agree on their files agree on every path: the entries of
      the first that hold a file are matched by the second, and conversely. */
  lemma SameContent(es: seq<Entry>, ram: seq<Byte>, es': seq<Entry>, ram': seq<Byte>, p: Path)
    requires |es| == |es'| && UniquePaths(es) && UniquePaths(es')
    requires forall i :: 0 <= i < |es| && es[i].path == p ==>
      && (es[i].IsFile() <==> es'[i].IsFile() && es'[i].path == p)
      && (es[i].IsFile() ==> Slice(ram, es[i]) == Slice(ram', es'[i]))
    requires forall i :: 0 <= i < |es| && es[i].path != p ==> !(es'[i].IsFile() && es'[i].path == p)
    ensures Content(es, ram, p) == Content(es', ram', p)
  {
    var i, i' := Find(es, p), Find(es', p);
    if i < |es| && es[i].IsFile() {
      FindIs(es', i);
    }
  }

  /** A change of one entry that is not, and does not become, a file at `p`
      leaves `p` as it was. */
  lemma UpdateKeeps(es: seq<Entry>, ram: seq<Byte>, k: nat, e: Entry, p: Path)
    requires k < |es| && UniquePaths(es) && UniquePaths(es[k := e])
    requires !(es[k].IsFile() && es[k].path == p) && !(e.IsFile() && e.path == p)
    ensures Content(es[k := e], ram, p) == Content(es, ram, p)
  {
    hide Find;
    var es' := es[k := e];
    var i, i' := Find(es, p), Find(es', p);
    if i < |es| && es[i].IsFile() {
      FindIs(es', i);
    }
  }

  // ---- compaction -------------------------------------------------------------

  /** `order` lists the files of the table, each once. */
  ghost predicate Lists(es: seq<Entry>, order: seq<nat>)
  {
    && (forall k :: 0 <= k < |order| ==> order[k] < |es| && es[order[k]].IsFile())
    && (forall a, b :: 0 <= a < b < |order| ==> order[a] != order[b])
    && (forall i :: 0 <= i < |es| && es[i].IsFile() ==> i in order)
  }

  ghost predicate Ordered(es: seq<Entry>, order: seq<nat>)
    requires Lists(es, order)
  {
    forall a, b :: 0 <= a < b < |order| ==> es[order[a]].offset <= es[order[b]].offset
  }

  /** The sizes of the files listed. */
  function Total(es: seq<Entry>, order: seq<nat>): (n: nat)
    requires forall k :: 0 <= k < |order| ==> order[k] < |es|
  {
    if order == [] then 0 else Total(es, order[..|order| - 1]) + es[order[|order| - 1]].size
  }

  /** Only offsets and capacities of files differ. */
  ghost predicate SameNames(es0: seq<Entry>, es: seq<Entry>)
  {
    && |es| == |es0|
    && forall i :: 0 <= i < |es| ==>
         es[i] == es0[i].(offset := es[i].offset, capacity := es[i].capacity) && (es0[i].IsFile() || es[i] == es0[i])
  }

  /** Compaction part way: the first `k` files of the list are packed below `at`,
      the others untouched and above it. */
  ghost predicate Packed(es0: seq<Entry>, es: seq<Entry>, order: seq<nat>, k: nat, at: nat)
    requires Lists(es0, order) && k <= |order|
  {
    && SameNames(es0, es)
    && (forall b :: k <= b < |order| ==> es[order[b]] == es0[order[b]])
    && (forall a :: 0 <= a < k ==> es[order[a]].capacity == es[order[a]].size && es[order[a]].End() <= at)
    && (forall a, b :: 0 <= a < b < k ==> es[order[a]].End() <= es[order[b]].offset)
    && (forall b :: k <= b < |order| && es[order[b]].size > 0 ==> at <= es[order[b]].offset)
    && at == Total(es0, order[..k])
  }

  /** Every file's bytes are what they were. */
  ghost predicate BytesKept(es0: seq<Entry>, ram0: seq<Byte>, es: seq<Entry>, ram: seq<Byte>)
  {
    && |es| == |es0| && |ram| == |ram0|
    && forall i :: 0 <= i < |es| && es[i].IsFile() ==> Slice(ram, es[i]) == Slice(ram0, es0[i])
  }

  /** The buffer with `n` bytes copied from `src` down to `dst`. */
  function Moved(ram: seq<Byte>, dst: nat, src: nat, n: nat): (r: seq<Byte>)
    requires dst <= src && src + n <= |ram|
    ensures |r| == |ram|
  {
    ram[..dst] + ram[src..src + n] + ram[dst + n..]
  }

  /** Where the next file of the list goes and what stays clear of it. */
  lemma NextFile(es0: seq<Entry>, end: nat, order: seq<nat>, k: nat, b: nat)
    requires Extents(es0, end) && Lists(es0, order) && Ordered(es0, order) && k < b < |order|
    requires es0[order[k]].size > 0 && es0[order[b]].size > 0
    ensures es0[order[k]].End() <= es0[order[b]].offset
  {
    var i, j := order[k], order[b];
    assert i != j;
    assert Apart(es0[i], es0[j]) || Apart(es0[j], es0[i]);
  }

  lemma SliceMoved(ram: seq<Byte>, dst: nat, src: nat, n: nat, e: Entry)
    requires dst <= src && src + n <= |ram| && e.offset + e.size <= |ram|
    requires e.size == 0 || e.offset + e.size <= dst || dst + n <= e.offset
    ensures Slice(Moved(ram, dst, src, n), e) == Slice(ram, e)
  {
  }

  lemma TotalStep(es: seq<Entry>, order: seq<nat>, k: nat)
    requires k < |order| && forall i :: 0 <= i < |order| ==> order[i] < |es|
    ensures Total(es, order[..k + 1]) == Total(es, order[..k]) + es[order[k]].size
  {
    assert order[..k + 1][..k] == order[..k];
  }

  /** The entry a file gets when it is packed at `at`. */
  function Repacked(e: Entry, at: nat): Entry
  {
    e.(offset := at, capacity := e.size)
  }

  /** The next file of the list is untouched and, unless empty, not below `at`. */
  lemma PackNext(es0: seq<Entry>, end: nat, es: seq<Entry>, order: seq<nat>, k: nat, at: nat)
    requires Extents(es0, end) && Lists(es0, order) && k < |order| && Packed(es0, es, order, k, at)
    ensures var e := es[order[k]];
      e == es0[order[k]] && e.IsFile() && e.size <= e.capacity && e.End() <= end && (e.size > 0 ==> at <= e.offset)
  {
    hide Total, Apart;
  }

  /** Packing the next file. */
  lemma PackStep(es0: seq<Entry>, end: nat, es: seq<Entry>, order: seq<nat>, k: nat, at: nat)
    requires Extents(es0, end) && Lists(es0, order) && Ordered(es0, order) && k < |order|
    requires Packed(es0, es, order, k, at)
    ensures var e := es[order[k]]; Packed(es0, es[order[k] := Repacked(e, at)], order, k + 1, at + e.size)
  {
    hide Total, Extents, Ordered;
    var i := order[k];
    var e := es[i];
    var es' := es[i := Repacked(e, at)];
    TotalStep(es0, order, k);
    forall b | 0 <= b < |order| && b != k ensures es'[order[b]] == es[order[b]] {
      assert order[b] != order[k];
    }
    forall b | k + 1 <= b < |order| && es'[order[b]].size > 0 ensures at + e.size <= es'[order[b]].offset {
      assert es'[order[b]] == es[order[b]];
      if e.size > 0 {
        NextFile(es0, end, order, k, b);
        PackNext(es0, end, es, order, k, at);
      }
    }
    assert forall a :: 0 <= a < k + 1 ==> es'[order[a]].capacity == es'[order[a]].size && es'[order[a]].End() <= at + e.size;
    assert forall a, b :: 0 <= a < b < k + 1 ==> es'[order[a]].End() <= es'[order[b]].offset;
  }

  /** The bytes moved for it harm no other file. */
  lemma PackBytes(es0: seq<Entry>, ram0: seq<Byte>, end: nat, es: seq<Entry>, ram: seq<Byte>, order: seq<nat>, k: nat, at: nat)
    requires Extents(es0, end) && end <= |ram0| && Lists(es0, order) && Ordered(es0, order) && k < |order|
    requires Packed(es0, es, order, k, at) && BytesKept(es0, ram0, es, ram)
    requires es[order[k]].size > 0 && at <= es[order[k]].offset
    requires es[order[k]].offset + es[order[k]].size <= |ram|
    ensures var e := es[order[k]];
      BytesKept(es0, ram0, es[order[k] := Repacked(e, at)], Moved(ram, at, e.offset, e.size))
  {
    hide Slice, Moved, Apart, Total;
    var e := es[order[k]];
    var es', ram' := es[order[k] := Repacked(e, at)], Moved(ram, at, e.offset, e.size);
    forall j | 0 <= j < |es'| && es'[j].IsFile() ensures Slice(ram', es'[j]) == Slice(ram0, es0[j]) {
      var b :| 0 <= b < |order| && order[b] == j;
      if b == k {
        SliceRepacked(ram, e, at);
      } else {
        if b > k && es[j].size > 0 { NextFile(es0, end, order, k, b); }
        SliceMoved(ram, at, e.offset, e.size, es[j]);
      }
    }
  }

  lemma SliceRepacked(ram: seq<Byte>, e: Entry, at: nat)
    requires at <= e.offset && e.offset + e.size <= |ram|
    ensures Slice(Moved(ram, at, e.offset, e.size), Repacked(e, at)) == Slice(ram, e)
  {
  }

  /** Moving nothing changes only the table. */
  lemma PackEmpty(es0: seq<Entry>, ram0: seq<Byte>, es: seq<Entry>, ram: seq<Byte>, i: nat, at: nat)
    requires BytesKept(es0, ram0, es, ram) && i < |es| && es[i].size == 0
    ensures BytesKept(es0, ram0, es[i := Repacked(es[i], at)], ram)
  {
  }

  /** When all files are packed the table is sound and ends at their total. */
  lemma PackDone(es0: seq<Entry>, end: nat, es: seq<Entry>, order: seq<nat>, at: nat)
    requires Sound(es0, end) && Lists(es0, order) && Packed(es0, es, order, |order|, at)
    ensures Sound(es, at)
  {
    forall i | 0 <= i < |es| && es[i].IsFile() ensures es[i].size <= es[i].capacity && es[i].End() <= at {
      var a :| 0 <= a < |order| && order[a] == i;
    }
    forall i, j | 0 <= i < j < |es| && es[i].IsFile() && es[j].IsFile() ensures Apart(es[i], es[j]) {
      var a :| 0 <= a < |order| && order[a] == i;
      var b :| 0 <= b < |order| && order[b] == j;
      assert a != b;
    }
  }

  lemma PackStart(es: seq<Entry>, ram: seq<Byte>, order: seq<nat>)
    requires Lists(es, order)
    ensures Packed(es, es, order, 0, 0) && BytesKept(es, ram, es, ram)
  {
  }

  lemma PackedNames(es0: seq<Entry>, es: seq<Entry>, order: seq<nat>, at: nat)
    requires Lists(es0, order) && Packed(es0, es, order, |order|, at)
    ensures SameNames(es0, es) && (forall k :: 0 <= k < |order| ==> order[k] < |es0|) && at == Total(es0, order)
  {
    assert order[..|order|] == order;
  }

  lemma ListsAt(es: seq<Entry>, order: seq<nat>, k: nat)
    requires Lists(es, order) && k < |order|
    ensures order[k] < |es|
  {
  }

  lemma MovedNone(ram: seq<Byte>, dst: nat, src: nat)
    requires dst <= src <= |ram|
    ensures Moved(ram, dst, src, 0) == ram
  {
  }

  lemma MovedStep(ram: seq<Byte>, dst: nat, src: nat, n: nat)
    requires dst <= src && src + n < |ram|
    ensures var m := Moved(ram, dst, src, n); m[dst + n := m[src + n]] == Moved(ram, dst, src, n + 1)
  {
  }

  lemma MovedSame(ram: seq<Byte>, at: nat, n: nat)
    requires at + n <= |ram|
    ensures Moved(ram, at, at, n) == ram
  {
  }

  lemma SoundIs(es: seq<Entry>, end: nat)
    ensures Sound(es, end) <==> Extents(es, end) && UniquePaths(es)
  {
  }

  /** The store holds the same files. */
  ghost predicate SameFiles(es: seq<Entry>, ram: seq<Byte>, es': seq<Entry>, ram': seq<Byte>)
  {
    forall p :: Content(es, ram, p) == Content(es', ram', p)
  }

  lemma PackFiles(es0: seq<Entry>, ram0: seq<Byte>, es: seq<Entry>, ram: seq<Byte>)
    requires UniquePaths(es0) && SameNames(es0, es) && BytesKept(es0, ram0, es, ram)
    ensures SameFiles(es0, ram0, es, ram)
  {
    hide Find, Slice;
    forall p ensures Content(es0, ram0, p) == Content(es, ram, p) {
      SameContent(es0, ram0, es, ram, p);
    }
  }

  // ---- sorting the file list --------------------------------------------------

  function Swap(s: seq<nat>, i: nat, j: nat): (r: seq<nat>)
    requires i < |s| && j < |s|
    ensures |r| == |s|
  {
    s[i := s[j]][j := s[i]]
  }

  lemma SwapLists(es: seq<Entry>, s: seq<nat>, i: nat, j: nat)
    requires Lists(es, s) && i < j < |s|
    ensures Lists(es, Swap(s, i, j))
  {
    var r := Swap(s, i, j);
    forall x | x in s ensures x in r {
      var k :| 0 <= k < |s| && s[k] == x;
      assert r[if k == i then j else if k == j then i else k] == x;
    }
  }

  /** The first `n` of the list are in place. */
  ghost predicate Settled(es: seq<Entry>, s: seq<nat>, n: nat)
    requires Lists(es, s)
  {
    forall a, b :: 0 <= a < n && a < b < |s| ==> es[s[a]].offset <= es[s[b]].offset
  }

  lemma SwapSettled(es: seq<Entry>, s: seq<nat>, n: nat, i: nat, j: nat)
    requires Lists(es, s) && Settled(es, s, n) && n <= i < j < |s| && Lists(es, Swap(s, i, j))
    ensures Settled(es, Swap(s, i, j), n)
  {
  }

  method SortByOffset(es: seq<Entry>, list: seq<nat>) returns (s: seq<nat>)
    requires Lists(es, list)
    ensures Lists(es, s) && Ordered(es, s)
  {
    hide Lists;
    s := list;
    var i := 0;
    while i < |s| - 1
      invariant 0 <= i && (i <= |s| - 1 || s == list) && Lists(es, s) && Settled(es, s, i)
    {
      s := SelectAt(es, s, i);
      i := i + 1;
    }
    assert Ordered(es, s) by { SettledAll(es, s, i); }
  }

  lemma SettledAll(es: seq<Entry>, s: seq<nat>, i: nat)
    requires Lists(es, s) && Settled(es, s, i) && i + 1 >= |s|
    ensures Ordered(es, s)
  {
  }

  /** Exchanges until position `i` holds the least offset from there on. */
  method SelectAt(es: seq<Entry>, list: seq<nat>, i: nat) returns (s: seq<nat>)
    requires Lists(es, list) && Settled(es, list, i) && i < |list|
    ensures |s| == |list| && Lists(es, s) && Settled(es, s, i + 1)
  {
    s := list;
    var j := i + 1;
    while j < |s|
      invariant i < j <= |s| == |list| && Lists(es, s) && Settled(es, s, i)
      invariant forall b :: i < b < j ==> es[s[i]].offset <= es[s[b]].offset
    {
      if es[s[j]].offset < es[s[i]].offset {
        SwapLists(es, s, i, j);
        SwapSettled(es, s, i, i, j);
        s := Swap(s, i, j);
      }
      j := j + 1;
    }
  }

  method ListFiles(es: seq<Entry>) returns (s: seq<nat>)
    ensures Lists(es, s)
  {
    s := [];
    var i := 0;
    while i < |es|
      invariant 0 <= i <= |es|
      invariant forall k :: 0 <= k < |s| ==> s[k] < i && es[s[k]].IsFile()
      invariant forall a, b :: 0 <= a < b < |s| ==> s[a] != s[b]
      invariant forall k :: 0 <= k < i && es[k].IsFile() ==> k in s
    {
      if es[i].IsFile() {
        s := s + [i];
      }
      i := i + 1;
    }
  }

  // ---- paths ------------------------------------------------------------------

  function Slashes(s: string): (r: string)
    ensures |r| == |s|
  {
    seq(|s|, i requires 0 <= i < |s| => if s[i] == '\\' then '/' else s[i])
  }

  function Cut(s: string, n: nat): (r: string)
  {
    if |s| <= n then s else s[..n]
  }

  /** A path as the store keeps it. */
  function Norm(p: string): (r: Path)
    ensures 0 < |r| < MAX_PATH
  {
    if p == "" then "/" else Cut(Slashes(p), MAX_PATH - 1)
  }

  /** `path` and `name` joined, cut to the longest path. */
  function Join(path: string, name: string): (r: Path)
    ensures 0 < |r| < MAX_PATH
  {
    var p := Norm(path);
    var q := if |p| > 1 && p[|p| - 1] != '/' && |p| + 1 < MAX_PATH then p + "/" else p;
    q + Cut(Slashes(name), MAX_PATH - 1 - |q|)
  }

  predicate IsNormal(p: Path)
  {
    0 < |p| < MAX_PATH && '\\' !in p
  }

  lemma NormIsNormal(p: string, q: string)
    ensures IsNormal(Norm(p)) && IsNormal(Join(p, q))
    ensures IsNormal(p) ==> Norm(p) == p
  {
  }

  function DropSlashes(p: Path): (r: Path)
    requires |p| > 0
    ensures 0 < |r| <= |p| && r == p[..|r|]
    ensures |r| == 1 || r[|r| - 1] != '/'
  {
    if |p| > 1 && p[|p| - 1] == '/' then DropSlashes(p[..|p| - 1]) else p
  }

  function DropName(p: Path): (r: Path)
    requires |p| > 0
    ensures 0 < |r| <= |p| && r == p[..|r|]
    ensures |p| > 1 && p[|p| - 1] != '/' ==> |r| < |p|
  {
    if |p| > 1 && p[|p| - 1] != '/' then DropName(p[..|p| - 1]) else p
  }

  function Parent(p: Path): (r: Path)
    requires IsNormal(p)
    ensures IsNormal(r) && |r| <= |p| && r == p[..|r|]
    ensures p[0] == '/' && p != "/" ==> |r| < |p|
  {
    var q := DropName(DropSlashes(p));
    if |q| > 1 && q[|q| - 1] == '/' then q[..|q| - 1] else q
  }

  predicate Absolute(p: Path)
  {
    IsNormal(p) && p[0] == '/'
  }

  /** The directories above an absolute path, the root among them. */
  function Ancestors(p: Path): (s: set<Path>)
    requires Absolute(p)
    decreases |p|
  {
    var q := Parent(p);
    if q == "/" || p == "/" then {"/"} else {q} + Ancestors(q)
  }

  /** The same directories in the order the store makes them, the root last. */
  function Climb(p: Path): (s: seq<Path>)
    requires Absolute(p)
    decreases |p|
  {
    var q := Parent(p);
    if q == "/" || p == "/" then ["/"] else [q] + Climb(q)
  }

  lemma {:induction false} ClimbIs(p: Path)
    requires Absolute(p)
    ensures (set d | d in Climb(p)) == Ancestors(p)
    decreases |p|
  {
    hide Parent;
    var q := Parent(p);
    if q != "/" && p != "/" {
      ClimbIs(q);
      assert Climb(p) == [q] + Climb(q);
      assert (set d | d in Climb(p)) == {q} + set d | d in Climb(q);
    } else {
      assert Climb(p) == ["/"];
    }
  }

  lemma ParentDrops(p: Path)
    requires IsNormal(p)
    ensures IsNormal(DropSlashes(p)) && Parent(DropSlashes(p)) == Parent(p)
  {
    var q := DropSlashes(p);
    assert DropSlashes(q) == q;
  }

  /** Files above `p` may have turned into directories; nothing else changed. */
  ghost predicate Demotes(es: seq<Entry>, ram: seq<Byte>, es': seq<Entry>, ram': seq<Byte>, dirs: set<Path>)
  {
    forall q :: Content(es', ram', q) == Content(es, ram, q) || (q in dirs && Content(es', ram', q) == None)
  }

  /** Only path `p` changed, and now holds `c`. */
  ghost predicate Becomes(es: seq<Entry>, ram: seq<Byte>, es': seq<Entry>, ram': seq<Byte>, p: Path, c: Option<seq<Byte>>)
  {
    forall q :: Content(es', ram', q) == if q == p then c else Content(es, ram, q)
  }

  // ---- which paths are taken ------------------------------------------------------

  /** The paths of all entries. */
  ghost function Paths(es: seq<Entry>): (s: set<Path>)
  {
    set i | 0 <= i < |es| && es[i].used :: es[i].path
  }

  /** A directory entry exists at `p`. */
  predicate DirAt(es: seq<Entry>, p: Path)
  {
    var i := Find(es, p);
    i < |es| && es[i].isDir
  }

  /** Takes the paths `ds` in turn as long as the table has room for those that are
      new; says whether all are there at the end. */
  ghost function Made(present: set<Path>, ds: seq<Path>): (r: (set<Path>, bool))
    decreases |ds|
  {
    if ds == [] then (present, true)
    else if ds[0] in present then Made(present, ds[1..])
    else if |present| >= MAX_ENTRIES then (present, false)
    else Made(present + {ds[0]}, ds[1..])
  }

  ghost function With(present: set<Path>, ds: seq<Path>): (s: set<Path>)
  {
    present + set d | d in ds
  }

  lemma WithStep(present: set<Path>, ds: seq<Path>)
    requires ds != []
    ensures With(present, ds) == With(present + {ds[0]}, ds[1..]) >= present + {ds[0]}
  {
    assert ds == [ds[0]] + ds[1..];
  }

  /** All fit exactly when old and new paths together do; otherwise the table is full
      and only paths asked for have been added. */
  lemma {:induction false} MadeFits(present: set<Path>, ds: seq<Path>)
    requires |present| <= MAX_ENTRIES
    ensures var (r, ok) := Made(present, ds);
      && (ok <==> |With(present, ds)| <= MAX_ENTRIES) && (ok ==> r == With(present, ds))
      && present <= r <= With(present, ds) && |r| <= MAX_ENTRIES && (!ok ==> |r| == MAX_ENTRIES)
    decreases |ds|
  {
    if ds == [] {
      assert With(present, ds) == present;
    } else {
      hide With;
      WithStep(present, ds);
      if ds[0] in present {
        assert present + {ds[0]} == present;
        MadeFits(present, ds[1..]);
      } else if |present| >= MAX_ENTRIES {
        SubsetSize(present + {ds[0]}, With(present, ds));
      } else {
        MadeFits(present + {ds[0]}, ds[1..]);
      }
    }
  }

  lemma MadeStep(present: set<Path>, d: Path, rest: seq<Path>)
    ensures var (q, ok) := Made(present, [d]);
      && Made(present, [d] + rest) == (if ok then Made(q, rest) else (present, false))
      && q == (if ok then present + {d} else present)
      && (ok <==> d in present || |present| < MAX_ENTRIES)
  {
    assert ([d] + rest)[1..] == rest && [d][1..] == [];
    if d in present { assert present + {d} == present; }
  }

  lemma PathsFind(es: seq<Entry>, p: Path)
    ensures p in Paths(es) <==> Find(es, p) < |es|
  {
  }

  lemma PathsSet(es: seq<Entry>, k: nat, e: Entry)
    requires k < |es| && e.used && (es[k].used ==> es[k].path == e.path)
    ensures Paths(es[k := e]) == Paths(es) + {e.path}
  {
    var es' := es[k := e];
    forall p | p in Paths(es) ensures p in Paths(es') {
      var i :| 0 <= i < |es| && es[i].used && es[i].path == p;
      assert es'[i].used && es'[i].path == p;
    }
    assert es'[k].used;
  }

  lemma PathsKept(es: seq<Entry>, k: nat, e: Entry)
    requires k < |es| && es[k].used && e.used && e.path == es[k].path
    ensures Paths(es[k := e]) == Paths(es)
  {
    PathsSet(es, k, e);
    assert es[k].path in Paths(es);
  }

  lemma PathsFree(es: seq<Entry>, k: nat)
    requires k < |es| && es[k].used && UniquePaths(es)
    ensures Paths(es[k := FREE]) == Paths(es) - {es[k].path}
  {
    var es' := es[k := FREE];
    forall p | p in Paths(es) && p != es[k].path ensures p in Paths(es') {
      var i :| 0 <= i < |es| && es[i].used && es[i].path == p;
      assert es'[i].used && es'[i].path == p;
    }
  }

  lemma PathsNames(es0: seq<Entry>, es: seq<Entry>)
    requires SameNames(es0, es)
    ensures Paths(es) == Paths(es0)
  {
    forall i | 0 <= i < |es| ensures es[i].used == es0[i].used && es[i].path == es0[i].path { }
  }

  predicate Full(es: seq<Entry>) { forall k :: 0 <= k < |es| ==> es[k].used }

  /** The table is full exactly when as many paths are taken as there are entries. */
  lemma {:induction false} PathsCount(es: seq<Entry>)
    requires UniquePaths(es)
    ensures |Paths(es)| <= |es| && (|Paths(es)| == |es| <==> Full(es))
  {
    hide Paths, Full;
    if es == [] {
      PathsNothing();
    } else {
      var n := |es| - 1;
      PathsCount(es[..n]);
      PathsLast(es);
    }
  }

  lemma PathsNothing()
    ensures |Paths([])| == 0 && Full([])
  {
    assert Paths([]) == {};
  }

  lemma PathsLast(es: seq<Entry>)
    requires es != [] && UniquePaths(es)
    ensures var n := |es| - 1;
      && (Full(es) <==> Full(es[..n]) && es[n].used)
      && Paths(es) == (if es[n].used then Paths(es[..n]) + {es[n].path} else Paths(es[..n]))
      && (es[n].used ==> es[n].path !in Paths(es[..n]))
  {
    var n := |es| - 1;
    forall p ensures p in Paths(es) <==> p in Paths(es[..n]) || (es[n].used && p == es[n].path) {
      if p in Paths(es[..n]) {
        var i :| 0 <= i < n && es[..n][i].used && es[..n][i].path == p;
        assert es[i].used && es[i].path == p;
      }
      if p in Paths(es) {
        var i :| 0 <= i < |es| && es[i].used && es[i].path == p;
        if i < n { assert es[..n][i].used && es[..n][i].path == p; }
      }
    }
    assert es == es[..n] + [es[n]];
  }

  /** Replacing entry `k`, free or at path `e.path`, by `e` changes that path only. */
  lemma SetEntry(es: seq<Entry>, ram: seq<Byte>, k: nat, e: Entry, end: nat)
    requires k < |es| && Sound(es, end) && e.used
    requires if es[k].used then es[k].path == e.path else Find(es, e.path) == |es|
    requires e.IsFile() ==> e.size <= e.capacity && e.End() <= end
    requires e.IsFile() ==> forall i :: 0 <= i < |es| && i != k && es[i].IsFile() ==> Apart(e, es[i])
    ensures Sound(es[k := e], end)
    ensures Becomes(es, ram, es[k := e], ram, e.path, if e.IsFile() then Some(Slice(ram, e)) else None)
  {
    hide Find, Slice, Content;
    var es' := es[k := e];
    assert UniquePaths(es') by {
      forall i, j | 0 <= i < j < |es'| && es'[i].used && es'[j].used ensures es'[i].path != es'[j].path { }
    }
    ContentIs(es', ram, k);
    forall q | q != e.path ensures Content(es', ram, q) == Content(es, ram, q) {
      UpdateKeeps(es, ram, k, e, q);
    }
  }

  /** Freeing entry `k` removes its path only. */
  lemma FreeEntry(es: seq<Entry>, ram: seq<Byte>, k: nat, end: nat)
    requires k < |es| && Sound(es, end) && es[k].used
    ensures Sound(es[k := FREE], end)
    ensures Becomes(es, ram, es[k := FREE], ram, es[k].path, None)
  {
    hide Slice, Content;
    var es' := es[k := FREE];
    assert Content(es', ram, es[k].path) == None by { Vanished(es, ram, k); }
    forall q | q != es[k].path ensures Content(es', ram, q) == Content(es, ram, q) {
      UpdateKeeps(es, ram, k, FREE, q);
    }
  }

  lemma Vanished(es: seq<Entry>, ram: seq<Byte>, k: nat)
    requires k < |es| && UniquePaths(es) && es[k].used
    ensures Content(es[k := FREE], ram, es[k].path) == None
  {
    var i := Find(es[k := FREE], es[k].path);
  }

  /** Bytes written inside one file's extent, or outside all of them, touch no
      other file. */
  lemma WriteKeeps(es: seq<Entry>, ram: seq<Byte>, ram': seq<Byte>, k: nat, at: nat, n: nat, end: nat)
    requires k < |es| && Sound(es, end) && es[k].IsFile() && |ram| == |ram'| && end <= |ram|
    requires forall i :: 0 <= i < |ram| && !(at <= i < at + n) ==> ram'[i] == ram[i]
    requires n > 0 ==> (es[k].offset <= at && at + n <= es[k].End()) || end <= at
    ensures forall q :: q != es[k].path ==> Content(es, ram', q) == Content(es, ram, q)
  {
    hide Find;
    forall q | q != es[k].path ensures Content(es, ram', q) == Content(es, ram, q) {
      var i := Find(es, q);
      if i < |es| && es[i].IsFile() {
        assert i != k;
        assert Apart(es[i], es[k]) || Apart(es[k], es[i]);
        assert es[i].offset + es[i].size <= |ram|;
        assert Slice(ram', es[i]) == Slice(ram, es[i]);
      }
    }
  }

  // ---- integrity ----------------------------------------------------------------

  /** What the integrity check accepts. */
  ghost predicate Intact(es: seq<Entry>, cap: nat)
  {
    && (forall i :: 0 <= i < |es| && es[i].IsFile() ==> es[i].offset + es[i].size <= cap)
    && (forall i, j :: 0 <= i < j < |es| && es[i].IsFile() && es[j].IsFile() ==> Clear(es[i], es[j]))
  }

  predicate Clear(e: Entry, f: Entry)
  {
    e.offset + e.size <= f.offset || f.offset + f.size <= e.offset
  }

  lemma SoundIntact(es: seq<Entry>, end: nat, cap: nat)
    requires Sound(es, end) && end <= cap
    ensures Intact(es, cap)
  {
    forall i, j | 0 <= i < j < |es| && es[i].IsFile() && es[j].IsFile() ensures Clear(es[i], es[j]) {
      assert Apart(es[i], es[j]);
    }
  }

  // ---- live bytes ----------------------------------------------------------------

  /** The bytes all files hold together. */
  function LiveBytes(es: seq<Entry>): (n: nat)
  {
    if es == [] then 0
    else LiveBytes(es[..|es| - 1]) + (if es[|es| - 1].IsFile() then es[|es| - 1].size else 0)
  }

  lemma {:induction false} TotalRemove(es: seq<Entry>, order: seq<nat>, a: nat)
    requires a < |order| && forall k :: 0 <= k < |order| ==> order[k] < |es|
    ensures Total(es, order) == Total(es, order[..a] + order[a + 1..]) + es[order[a]].size
    decreases |order| - a
  {
    var n := |order| - 1;
    if a == n {
      assert order[..a] + order[a + 1..] == order[..n];
    } else {
      TotalRemove(es, order[..n], a);
      var rest := order[..a] + order[a + 1..];
      assert rest[..|rest| - 1] == order[..n][..a] + order[..n][a + 1..];
      assert rest[|rest| - 1] == order[n];
    }
  }

  lemma {:induction false} TotalShort(es: seq<Entry>, order: seq<nat>)
    requires |es| > 0 && forall k :: 0 <= k < |order| ==> order[k] < |es| - 1
    ensures Total(es[..|es| - 1], order) == Total(es, order)
    decreases |order|
  {
    if order != [] { TotalShort(es, order[..|order| - 1]); }
  }

  /** The total does not depend on the order of the list. */
  lemma {:induction false} TotalIsLive(es: seq<Entry>, order: seq<nat>)
    requires Lists(es, order)
    ensures Total(es, order) == LiveBytes(es)
    decreases |es|
  {
    hide Lists, Total;
    if order != [] { ListsSomething(es, order); }
    if es == [] {
      TotalNothing(es);
    } else {
      var n := |es| - 1;
      ListsBelow(es, order);
      if es[n].IsFile() {
        var a := Place(es, order, n);
        var rest := order[..a] + order[a + 1..];
        TotalRemove(es, order, a);
        ListsRemove(es, order, a);
        ListsBelow(es[..n], rest);
        TotalShort(es, rest);
        TotalIsLive(es[..n], rest);
      } else {
        ListsShort(es, order);
        ListsBelow(es[..n], order);
        TotalShort(es, order);
        TotalIsLive(es[..n], order);
      }
    }
  }

  lemma ListsSomething(es: seq<Entry>, order: seq<nat>)
    requires Lists(es, order) && order != []
    ensures es != []
  {
    assert order[0] < |es|;
  }

  lemma TotalNothing(es: seq<Entry>)
    ensures Total(es, []) == 0
  {
  }

  lemma ListsBelow(es: seq<Entry>, order: seq<nat>)
    requires Lists(es, order)
    ensures forall k :: 0 <= k < |order| ==> order[k] < |es|
  {
  }

  lemma Place(es: seq<Entry>, order: seq<nat>, i: nat) returns (a: nat)
    requires Lists(es, order) && i < |es| && es[i].IsFile()
    ensures a < |order| && order[a] == i
  {
    a :| 0 <= a < |order| && order[a] == i;
  }

  lemma ListsShort(es: seq<Entry>, order: seq<nat>)
    requires |es| > 0 && Lists(es, order) && !es[|es| - 1].IsFile()
    ensures Lists(es[..|es| - 1], order)
  {
  }

  lemma InRest(order: seq<nat>, a: nat, i: nat)
    requires a < |order| && i in order && i != order[a]
    ensures i in order[..a] + order[a + 1..]
  {
    var b :| 0 <= b < |order| && order[b] == i;
    var rest := order[..a] + order[a + 1..];
    assert rest[if b < a then b else b - 1] == i;
  }

  lemma ListsRemove(es: seq<Entry>, order: seq<nat>, a: nat)
    requires Lists(es, order) && a < |order| && order[a] == |es| - 1
    ensures Lists(es[..|es| - 1], order[..a] + order[a + 1..])
  {
    var n := |es| - 1;
    var rest := order[..a] + order[a + 1..];
    forall k | 0 <= k < |rest| ensures rest[k] < n && es[rest[k]].IsFile() {
      var b := if k < a then k else k + 1;
      assert rest[k] == order[b] && order[b] != order[a];
    }
    forall i | 0 <= i < n && es[i].IsFile() ensures i in rest {
      InRest(order, a, i);
    }
  }

  // ---- the store --------------------------------------------------------------

  datatype Snapshot = Snapshot(entries: seq<Entry>, ram: seq<Byte>, dataEnd: nat)

  class Disk {
    const ram: array<Byte>
    const cap: nat
    var entries: seq<Entry>
    var dataEnd: nat
    var used: nat
    var saved: Option<Snapshot>

    ghost predicate Valid()
      reads this
    {
      && dataEnd <= cap <= ram.Length && |entries| == MAX_ENTRIES && Sound(entries, dataEnd)
      && (saved.Some? ==>
            && |saved.value.ram| == ram.Length && |saved.value.entries| == MAX_ENTRIES
            && saved.value.dataEnd <= cap && Sound(saved.value.entries, saved.value.dataEnd))
    }

    /** A freshly formatted store. */
    constructor (ram: array<Byte>, cap: nat)
      requires cap <= ram.Length
      ensures Valid() && this.ram == ram && this.cap == cap && saved == None && used == 0
      ensures (forall p :: Content(entries, ram[..], p) == None) && Paths(entries) == {} && NoRelics(entries)
    {
      this.ram, this.cap := ram, cap;
      entries := seq(MAX_ENTRIES, _ => FREE);
      dataEnd, used, saved := 0, 0, None;
    }

    method FindEntry(p: Path) returns (i: nat)
      requires |entries| == MAX_ENTRIES
      ensures i == Find(entries, p)
    {
      i := 0;
      while i < |entries|
        invariant i <= |entries| && forall j :: 0 <= j < i ==> !(entries[j].used && entries[j].path == p)
      {
        if entries[i].used && entries[i].path == p {
          return;
        }
        i := i + 1;
      }
    }

    method FindFree() returns (i: nat)
      ensures i <= |entries| && (i < |entries| ==> !entries[i].used)
      ensures i == |entries| ==> forall j :: 0 <= j < |entries| ==> entries[j].used
    {
      i := 0;
      while i < |entries|
        invariant i <= |entries| && forall j :: 0 <= j < i ==> entries[j].used
      {
        if !entries[i].used {
          return;
        }
        i := i + 1;
      }
    }

    method RecomputeUsed()
      modifies `used
      ensures used == LiveBytes(entries)
    {
      used := 0;
      var i := 0;
      while i < |entries|
        invariant 0 <= i <= |entries| && used == LiveBytes(entries[..i])
      {
        assert entries[..i + 1][..i] == entries[..i];
        if entries[i].IsFile() {
          used := used + entries[i].size;
        }
        i := i + 1;
      }
      assert entries[..i] == entries;
    }

    /** Copies bytes down, first byte first. */
    method MoveDown(dst: nat, src: nat, n: nat)
      requires dst <= src && src + n <= ram.Length
      modifies ram
      ensures ram[..] == Moved(old(ram[..]), dst, src, n)
    {
      hide Moved;
      MovedNone(ram[..], dst, src);
      var i := 0;
      while i < n
        invariant 0 <= i <= n && ram[..] == Moved(old(ram[..]), dst, src, i)
      {
        MovedStep(old(ram[..]), dst, src, i);
        ghost var before := ram[..];
        ram[dst + i] := ram[src + i];
        assert ram[..] == before[dst + i := before[src + i]];
        i := i + 1;
      }
    }

    /** Packs all files at the front of the buffer. */
    method Defragment()
      requires Valid()
      modifies `entries, `dataEnd, ram
      ensures Valid() && SameNames(old(entries), entries)
      ensures SameFiles(old(entries), old(ram[..]), entries, ram[..])
      ensures dataEnd == LiveBytes(old(entries))
    {
      hide Sound, Lists, Ordered, Packed, BytesKept, Moved, SameFiles, Slice;
      ghost var es0, ram0, end := entries, ram[..], dataEnd;
      SoundIs(es0, end);
      var files := ListFiles(entries);
      files := SortByOffset(entries, files);
      PackStart(es0, ram0, files);
      var at: nat, k: nat := 0, 0;
      while k < |files|
        invariant 0 <= k <= |files| && Packed(es0, entries, files, k, at) && BytesKept(es0, ram0, entries, ram[..])
        invariant |entries| == MAX_ENTRIES && dataEnd == end && at <= end
      {
        ListsAt(es0, files, k);
        PackNext(es0, end, entries, files, k, at);
        PackStep(es0, end, entries, files, k, at);
        var file := entries[files[k]];
        if file.size == 0 {
          PackEmpty(es0, ram0, entries, ram[..], files[k], at);
        } else {
          PackBytes(es0, ram0, end, entries, ram[..], files, k, at);
          if file.offset != at {
            MoveDown(at, file.offset, file.size);
          } else {
            MovedSame(ram[..], at, file.size);
          }
        }
        entries := entries[files[k] := Repacked(file, at)];
        at, k := at + file.size, k + 1;
      }
      dataEnd := at;
      PackDone(es0, end, entries, files, at);
      PackedNames(es0, entries, files, at);
      PackFiles(es0, ram0, entries, ram[..]);
      TotalIsLive(es0, files);
    }

    /** Reserves `len` bytes at the end, compacting when they do not fit. */
    method Alloc(len: nat) returns (ok: bool, offset: nat)
      requires Valid()
      modifies `entries, `dataEnd, ram
      ensures Valid() && SameNames(old(entries), entries)
      ensures SameFiles(old(entries), old(ram[..]), entries, ram[..])
      ensures ok <==> old(dataEnd) + len <= cap || LiveBytes(old(entries)) + len <= cap
      ensures ok ==> offset + len == dataEnd && Sound(entries, offset)
    {
      hide Sound, LiveBytes;
      SameRefl(entries, ram[..]);
      offset := 0;
      if len == 0 {
        return true, dataEnd;
      }
      if len > cap {
        return false, 0;
      }
      if dataEnd + len > cap {
        Defragment();
      }
      if dataEnd + len > cap {
        return false, 0;
      }
      offset := dataEnd;
      dataEnd := dataEnd + len;
      SoundGrows(entries, offset, dataEnd);
      ok := true;
    }

    method CopyIn(at: nat, buf: seq<Byte>)
      requires at + |buf| <= ram.Length
      modifies ram
      ensures ram[at..at + |buf|] == buf
      ensures forall i :: 0 <= i < ram.Length && !(at <= i < at + |buf|) ==> ram[i] == old(ram[i])
    {
      var k := 0;
      while k < |buf|
        invariant 0 <= k <= |buf| && forall i :: 0 <= i < k ==> ram[at + i] == buf[i]
        invariant forall i :: 0 <= i < ram.Length && !(at <= i < at + k) ==> ram[i] == old(ram[i])
      {
        ram[at + k] := buf[k];
        k := k + 1;
      }
    }

    /** Replaces the bytes of the file at `path`.  On success only that file
        changes; on failure none does, and it fails only when there is no such
        file or the live bytes leave no room for the new ones. */
    method WriteFile(path: string, buf: seq<Byte>) returns (ok: bool)
      requires Valid()
      modifies `entries, `dataEnd, `used, ram
      ensures Valid()
      ensures var i := Find(old(entries), Norm(path));
        ok <==>
          && i < MAX_ENTRIES && old(entries)[i].IsFile()
          && (|buf| <= old(entries)[i].capacity || old(dataEnd) + |buf| <= cap || LiveBytes(old(entries)) + |buf| <= cap)
      ensures ok ==> Becomes(old(entries), old(ram[..]), entries, ram[..], Norm(path), Some(buf))
      ensures !ok ==> SameFiles(old(entries), old(ram[..]), entries, ram[..])
      ensures ok ==> used == LiveBytes(entries)
      ensures Paths(entries) == Paths(old(entries))
      ensures NoRelics(old(entries)) ==> NoRelics(entries)
    {
      hide Sound, LiveBytes, SameFiles, Becomes, SameNames, Paths;
      SameRefl(entries, ram[..]);
      var i := FindEntry(Norm(path));
      if i == |entries| || entries[i].isDir {
        return false;
      }
      var e := entries[i];
      SoundAt(entries, dataEnd, i);
      if e.capacity >= |buf| && e.offset + |buf| <= cap {
        CopyIn(e.offset, buf);
        InPlace(entries, old(ram[..]), ram[..], i, buf, dataEnd);
        PathsKept(entries, i, e.(size := |buf|));
        entries := entries[i := e.(size := |buf|)];
        RecomputeUsed();
        return true;
      }
      var offset;
      ok, offset := Alloc(|buf|);
      NamesRelics(old(entries), entries);
      PathsNames(old(entries), entries);
      if !ok {
        return;
      }
      NameAt(old(entries), entries, i);
      ghost var es1, ram1 := entries, ram[..];
      CopyIn(offset, buf);
      Relocated(es1, ram1, ram[..], i, buf, offset);
      PathsKept(entries, i, entries[i].(offset := offset, size := |buf|, capacity := |buf|));
      entries := entries[i := entries[i].(offset := offset, size := |buf|, capacity := |buf|)];
      BecomesAfter(old(entries), old(ram[..]), es1, ram1, entries, ram[..], Norm(path), Some(buf));
      RecomputeUsed();
    }

    /** The file's bytes, cut or zero-filled to `len`; zeros when there is none. */
    method ReadFile(path: string, len: nat) returns (ok: bool, buf: seq<Byte>)
      requires Valid()
      ensures |buf| == len
      ensures var c := Content(entries, ram[..], Norm(path));
        if c.Some? then ok && buf == Padded(c.value, len) else !ok && buf == Padded([], len)
    {
      hide Sound;
      var i := FindEntry(Norm(path));
      if i == |entries| || entries[i].isDir {
        return false, Padded([], len);
      }
      var e := entries[i];
      SoundAt(entries, dataEnd, i);
      var n := if len < e.size then len else e.size;
      buf := ram[e.offset..e.offset + n] + seq(len - n, _ => 0);
      ok := true;
      assert ram[..][e.offset..e.offset + e.size][..n] == ram[e.offset..e.offset + n];
    }

    /** Makes `p` a directory; a file there is lost. */
    method EnsureDir(p: Path) returns (ok: bool)
      requires Valid()
      modifies `entries
      ensures Valid()
      ensures ok ==> Becomes(old(entries), ram[..], entries, ram[..], p, None)
      ensures (Paths(entries), ok) == Made(Paths(old(entries)), [p])
      ensures ok ==> DirAt(entries, p)
      ensures !ok ==> entries == old(entries)
      ensures forall q :: q != p ==> SameEntry(old(entries), entries, q)
      ensures NoRelics(old(entries)) && Content(old(entries), ram[..], p) == None ==> NoRelics(entries)
    {
      hide Sound, Becomes, SameEntry, Made, Paths;
      var i := FindEntry(p);
      SoundIs(entries, dataEnd);
      PathsFind(entries, p);
      PathsCount(entries);
      MadeStep(Paths(entries), p, []);
      if i == |entries| {
        i := FindFree();
        if i == |entries| {
          EntriesRefl(entries);
          return false;
        }
        ghost var e := Entry(true, true, p, 0, 0, 0);
        SetEntry(entries, ram[..], i, e, dataEnd);
        SetOther(entries, entries[i := e], i, dataEnd);
        PathsSet(entries, i, e);
        DirSet(entries, i, e, dataEnd);
        entries := entries[i := Entry(true, true, p, 0, 0, 0)];
      } else {
        ghost var e := entries[i].(isDir := true);
        SetEntry(entries, ram[..], i, e, dataEnd);
        SetOther(entries, entries[i := e], i, dataEnd);
        PathsSet(entries, i, e);
        DirSet(entries, i, e, dataEnd);
        entries := entries[i := entries[i].(isDir := true)];
      }
      ok := true;
    }

    /** Makes every directory above an absolute path, from the nearest up to the root,
        as far as the table has room. */
    method EnsureParents(p: Path) returns (ok: bool)
      requires Valid() && Absolute(p)
      modifies `entries
      ensures Valid()
      ensures (Paths(entries), ok) == Made(Paths(old(entries)), Climb(p))
      ensures ok ==> forall a :: a in Ancestors(p) ==> DirAt(entries, a)
      ensures Demotes(old(entries), ram[..], entries, ram[..], Ancestors(p))
      ensures ok ==> forall a :: a in Ancestors(p) ==> Content(entries, ram[..], a) == None
      ensures forall q :: q !in Ancestors(p) ==> SameEntry(old(entries), entries, q)
      ensures NoRelics(old(entries))
        && (forall a :: a in Ancestors(p) ==> Content(old(entries), ram[..], a) == None)
        ==> NoRelics(entries)
    {
      hide Sound, Content, SameEntry, Parent, DropSlashes, Ancestors, UpFrom, Demotes, Becomes, NoRelics;
      hide Made, Paths, Climb, UpList, DirAt;
      ghost var es0, bytes, all := entries, ram[..], Ancestors(p);
      EntriesRefl(entries);
      DemoteNone(entries, bytes);
      ParentDrops(p);
      ParentUp(p);
      var current := DropSlashes(p);
      var parent := Parent(current);
      ghost var made: set<Path> := {};
      ghost var clean := NoRelics(es0) && forall a :: a in all ==> Content(es0, bytes, a) == None;
      while parent != "/"
        invariant Valid() && Absolute(parent) && ram[..] == bytes
        invariant all == made + UpFrom(parent)
        invariant Made(Paths(entries), UpList(parent)) == Made(Paths(es0), Climb(p))
        invariant forall a :: a in made ==> DirAt(entries, a)
        invariant Demotes(es0, bytes, entries, bytes, made)
        invariant forall a :: a in made ==> Content(entries, bytes, a) == None
        invariant forall q :: q !in all ==> SameEntry(es0, entries, q)
        invariant clean ==> NoRelics(entries)
        decreases |parent|
      {
        ghost var before := entries;
        UpStep(parent);
        UpListStep(parent);
        MadeStep(Paths(entries), parent, Climb(parent));
        StillNone(es0, entries, bytes, made, parent);
        ok := EnsureDir(parent);
        SameEntryChain(es0, before, entries, all);
        if !ok {
          DemoteWiden(es0, bytes, entries, made, all);
          return;
        }
        DirsStay(before, entries, made, parent);
        DemoteMore(es0, before, entries, bytes, made, parent);
        made := made + {parent};
        ParentUp(parent);
        parent := Parent(parent);
      }
      ghost var before := entries;
      UpStep("/");
      UpListStep("/");
      MadeStep(Paths(entries), "/", []);
      assert ["/"] + [] == ["/"];
      StillNone(es0, entries, bytes, made, "/");
      ok := EnsureDir("/");
      SameEntryChain(es0, before, entries, all);
      if ok {
        DirsStay(before, entries, made, "/");
        MadeNone(Paths(entries));
        DemoteMore(es0, before, entries, bytes, made, "/");
      } else {
        DemoteWiden(es0, bytes, entries, made, all);
      }
    }

    /** Makes an empty file, or keeps the one that is there. It is refused exactly when
        the file and its parents do not all fit into the table. A directory that once was a
        file becomes that file again, with its old extent: the store is sound afterwards
        exactly when no file that remains one reaches into that extent by now. */
    method CreateFile(path: string, name: string) returns (ok: bool)
      requires Valid() && Absolute(Join(path, name)) && Join(path, name) != "/"
      modifies `entries
      ensures (Paths(entries), ok) == Made(Paths(old(entries)), Climb(Join(path, name)) + [Join(path, name)])
      ensures !RelicAt(old(entries), Join(path, name)) ==> Valid() && Created(old(entries), entries, ram[..], Join(path, name), ok)
      ensures RelicAt(old(entries), Join(path, name)) ==>
        if ok then Revived(old(entries), entries, Join(path, name))
          && (Valid() <==> Unclaimed(old(entries), Join(path, name), dataEnd, Ancestors(Join(path, name))))
        else Valid()
      ensures ok ==> forall a :: a in Ancestors(Join(path, name)) ==> DirAt(entries, a)
      ensures NoRelics(old(entries))
        && (forall a :: a in Ancestors(Join(path, name)) ==> Content(old(entries), ram[..], a) == None)
        ==> NoRelics(entries)
    {
      hide Sound, Content, SameEntry, Ancestors, Demotes, DemotesBut, Becomes, NoRelics, Made, Paths, Climb, DirAt, RelicAt, Revived, Unclaimed;
      var full := Join(path, name);
      NormIsNormal(path, name);
      AncestorsShorter(full);
      MadeThen(Paths(entries), Climb(full), full);
      ok := EnsureParents(full);
      ghost var mid := entries;
      SameEntryContent(old(entries), mid, ram[..], full);
      DemotesThen(old(entries), mid, mid, ram[..], Ancestors(full), full);
      if !ok {
        return;
      }
      var i := FindEntry(full);
      if i < |entries| && entries[i].isDir && !entries[i].Blank() {
        Revive(full, i, old(entries), Ancestors(full));
      } else {
        NoRelicThere(entries, full);
        ok := PlaceFile(full);
        DemotesThen(old(entries), mid, entries, ram[..], Ancestors(full), full);
      }
      DirsKept(mid, entries, Ancestors(full), full);
    }

    /** A directory becomes the file it once was, after directories have been made of the
        paths `gone` in the table `es0`. */
    method Revive(full: Path, i: nat, ghost es0: seq<Entry>, ghost gone: set<Path>)
      requires Valid() && i == Find(entries, full) < |entries| && entries[i].isDir && !entries[i].Blank()
      requires Sound(es0, dataEnd) && full !in gone && forall q :: q !in gone ==> SameEntry(es0, entries, q)
      requires forall a :: a in gone ==> DirAt(entries, a)
      modifies `entries
      ensures RelicAt(es0, full) && !NoRelics(es0) && Revived(es0, entries, full)
      ensures Valid() <==> Unclaimed(es0, full, dataEnd, gone)
      ensures (Paths(entries), true) == Made(Paths(old(entries)), [full])
      ensures forall q :: q != full ==> SameEntry(old(entries), entries, q)
    {
      hide Content, SameEntry, Made, Paths, DirAt, Unclaimed, Extents, Revived, NoRelics;
      var e := entries[i].(isDir := false);
      PathsFind(entries, full);
      PathsCount(entries);
      MadeStep(Paths(entries), full, []);
      PathsSet(entries, i, e);
      KindSet(entries, i, entries[i := e]);
      SoundAgain(entries, i, e, dataEnd);
      UnclaimedAfter(es0, entries, entries[i := e], i, dataEnd, gone);
      RevivedFrom(es0, entries, entries[i := e], full);
      NoRelicsThere(es0, full);
      entries := entries[i := e];
    }

    /** The entry of the file itself: kept, taken over from a directory, or new. */
    method PlaceFile(full: Path) returns (ok: bool)
      requires Valid() && !RelicAt(entries, full)
      modifies `entries
      ensures Valid()
      ensures !ok ==> entries == old(entries)
      ensures ok ==>
        var was := Content(old(entries), ram[..], full);
        var now := if was.Some? then was else Some([]);
        Content(entries, ram[..], full) == now && Becomes(old(entries), ram[..], entries, ram[..], full, now)
      ensures (Paths(entries), ok) == Made(Paths(old(entries)), [full])
      ensures forall q :: q != full ==> SameEntry(old(entries), entries, q)
      ensures NoRelics(old(entries)) ==> NoRelics(entries)
    {
      hide Sound, Content, SameEntry, Becomes, NoRelics, Made, Paths;
      SoundIs(entries, dataEnd);
      PathsFind(entries, full);
      PathsCount(entries);
      MadeStep(Paths(entries), full, []);
      EntriesRefl(entries);
      var i := FindEntry(full);
      if i < |entries| {
        var e := entries[i].(isDir := false);
        if entries[i].isDir {
          BlankApart(entries, dataEnd, e);
          SetEntry(entries, ram[..], i, e, dataEnd);
          SetOther(entries, entries[i := e], i, dataEnd);
          NoContent(entries, ram[..], full);
          EmptySlice(ram[..], e);
          BecomesAt(entries, ram[..], entries[i := e], full, Some([]));
        } else {
          assert entries[i := e] == entries;
          FileContent(entries, ram[..], full);
          BecomesSame(entries, ram[..], full);
        }
        RelicsSet(entries, i, e);
        PathsSet(entries, i, e);
        entries := entries[i := e];
        return true;
      }
      NoContent(entries, ram[..], full);
      i := FindFree();
      if i == |entries| {
        return false;
      }
      var e := Entry(true, false, full, dataEnd, 0, 0);
      EndApart(entries, dataEnd, e);
      SetEntry(entries, ram[..], i, e, dataEnd);
      SetOther(entries, entries[i := e], i, dataEnd);
      EmptySlice(ram[..], e);
      BecomesAt(entries, ram[..], entries[i := e], full, Some([]));
      RelicsSet(entries, i, e);
      PathsSet(entries, i, e);
      entries := entries[i := e];
      ok := true;
    }

    /** Makes a directory with its parents. It is refused exactly when they do not all
        fit into the table. */
    method CreateDir(path: string) returns (ok: bool)
      requires Valid() && Absolute(Norm(path))
      modifies `entries
      ensures Valid()
      ensures (Paths(entries), ok) == Made(Paths(old(entries)), Climb(Norm(path)) + [Norm(path)])
      ensures ok ==> DirAt(entries, Norm(path)) && forall a :: a in Ancestors(Norm(path)) ==> DirAt(entries, a)
      ensures Demotes(old(entries), ram[..], entries, ram[..], Ancestors(Norm(path)) + {Norm(path)})
      ensures ok ==> Content(entries, ram[..], Norm(path)) == None
      ensures var dirs := Ancestors(Norm(path)) + {Norm(path)};
        NoRelics(old(entries)) && (forall a :: a in dirs ==> Content(old(entries), ram[..], a) == None) ==> NoRelics(entries)
    {
      hide Sound, Content, SameEntry, Ancestors, Demotes, Becomes, Made, Paths, Climb, DirAt;
      var p := Norm(path);
      MadeThen(Paths(entries), Climb(p), p);
      ok := EnsureParents(p);
      DemoteWiden(old(entries), ram[..], entries, Ancestors(p), Ancestors(p) + {p});
      if !ok {
        return;
      }
      ghost var mid := entries;
      StillNone(old(entries), mid, ram[..], Ancestors(p), p);
      ok := EnsureDir(p);
      if ok {
        DemoteMore(old(entries), mid, entries, ram[..], Ancestors(p), p);
        DirsStay(mid, entries, Ancestors(p), p);
      }
    }

    method DeleteFile(path: string) returns (ok: bool)
      requires Valid()
      modifies `entries, `used
      ensures Valid() && (ok <==> Content(old(entries), ram[..], Norm(path)).Some?)
      ensures ok ==> Becomes(old(entries), ram[..], entries, ram[..], Norm(path), None) && used == LiveBytes(entries)
      ensures !ok ==> entries == old(entries)
      ensures Paths(entries) == if ok then Paths(old(entries)) - {Norm(path)} else Paths(old(entries))
      ensures NoRelics(old(entries)) ==> NoRelics(entries)
    {
      hide Sound, Becomes, LiveBytes, Paths;
      SoundIs(entries, dataEnd);
      var i := FindEntry(Norm(path));
      if i == |entries| || entries[i].isDir {
        return false;
      }
      FreeEntry(entries, ram[..], i, dataEnd);
      PathsFree(entries, i);
      entries := entries[i := FREE];
      RecomputeUsed();
      ok := true;
    }

    /** Removes a directory with everything below it; "/" removes all. */
    method DeleteDir(path: string) returns (ok: bool)
      requires Valid()
      modifies `entries, `used
      ensures Valid()
      ensures forall q :: Content(entries, ram[..], q) == if IsChild(Norm(path), q) then None else Content(old(entries), ram[..], q)
      ensures forall q :: Clean(q) ==>
        Content(entries, ram[..], q)
          == if q == Norm(path) || Norm(path) in Ancestors(q) then None else Content(old(entries), ram[..], q)
      ensures ok <==> exists q :: q in Paths(old(entries)) && IsChild(Norm(path), q)
      ensures forall q :: q in Paths(entries) <==> q in Paths(old(entries)) && !IsChild(Norm(path), q)
      ensures ok ==> used == LiveBytes(entries)
      ensures NoRelics(old(entries)) ==> NoRelics(entries)
    {
      hide Sound, LiveBytes, Content, Becomes, IsChild;
      var p := Norm(path);
      ghost var es0, bytes := entries, ram[..];
      var i := 0;
      ok := false;
      while i < |entries|
        invariant 0 <= i <= |entries| && Valid()
        invariant Pruned(es0, entries, bytes, p, i) && (NoRelics(es0) ==> NoRelics(entries))
        invariant ok <==> exists j :: 0 <= j < i && es0[j].used && IsChild(p, es0[j].path)
        invariant forall j :: 0 <= j < i ==> entries[j] == (if es0[j].used && IsChild(p, es0[j].path) then FREE else es0[j])
      {
        if entries[i].used && IsChild(p, entries[i].path) {
          FreeEntry(entries, bytes, i, dataEnd);
          PruneStep(es0, entries, bytes, p, i);
          entries := entries[i := FREE];
          ok := true;
        }
        i := i + 1;
      }
      PruneDone(es0, entries, bytes, p);
      PrunedPaths(es0, entries, p);
      forall q | Clean(q) ensures IsChild(p, q) <==> q == p || p in Ancestors(q) { InDirectory(p, q); }
      if ok {
        RecomputeUsed();
      }
    }

    /** Accepts every table the store can reach. */
    method CheckIntegrity() returns (ok: bool)
      requires Valid()
      ensures ok
    {
      hide Sound;
      SoundIntact(entries, dataEnd, cap);
      var i := 0;
      while i < |entries|
        invariant 0 <= i <= |entries|
      {
        if entries[i].IsFile() {
          if entries[i].offset + entries[i].size > cap {
            return false;
          }
          var j := i + 1;
          while j < |entries|
            invariant i < j <= |entries|
          {
            if entries[j].IsFile() && !Clear(entries[i], entries[j]) {
              return false;
            }
            j := j + 1;
          }
        }
        i := i + 1;
      }
      return true;
    }

    method Backup()
      requires Valid()
      modifies `saved
      ensures Valid() && saved == Some(Snapshot(entries, ram[..], dataEnd))
    {
      saved := Some(Snapshot(entries, ram[..], dataEnd));
    }

    method Restore() returns (ok: bool)
      requires Valid()
      modifies `entries, `dataEnd, `used, ram
      ensures Valid() && saved == old(saved) && (ok <==> saved.Some?)
      ensures ok ==> entries == saved.value.entries && ram[..] == saved.value.ram && dataEnd == saved.value.dataEnd && used == LiveBytes(entries)
      ensures !ok ==> entries == old(entries) && ram[..] == old(ram[..])
    {
      hide Sound, LiveBytes;
      if saved.None? {
        return false;
      }
      var i := 0;
      while i < ram.Length
        invariant 0 <= i <= ram.Length && forall k :: 0 <= k < i ==> ram[k] == saved.value.ram[k]
      {
        ram[i] := saved.value.ram[i];
        i := i + 1;
      }
      assert ram[..] == saved.value.ram;
      entries, dataEnd := saved.value.entries, saved.value.dataEnd;
      RecomputeUsed();
      ok := true;
    }
  }

  function Padded(b: seq<Byte>, len: nat): (r: seq<Byte>)
    ensures |r| == len
  {
    if len <= |b| then b[..len] else b + seq(len - |b|, _ => 0)
  }

  lemma SameRefl(es: seq<Entry>, ram: seq<Byte>)
    ensures SameNames(es, es) && SameFiles(es, ram, es, ram)
  {
  }

  lemma SoundGrows(es: seq<Entry>, end: nat, more: nat)
    requires Sound(es, end) && end <= more
    ensures Sound(es, more)
  {
  }

  lemma SoundAt(es: seq<Entry>, end: nat, i: nat)
    requires Sound(es, end) && i < |es| && es[i].IsFile()
    ensures es[i].size <= es[i].capacity && es[i].End() <= end && Find(es, es[i].path) == i
  {
    FindIs(es, i);
  }

  lemma RelicsSet(es: seq<Entry>, i: nat, e: Entry)
    requires i < |es| && !e.isDir
    ensures NoRelics(es) ==> NoRelics(es[i := e])
  {
  }

  lemma NamesRelics(es0: seq<Entry>, es: seq<Entry>)
    requires SameNames(es0, es)
    ensures NoRelics(es0) ==> NoRelics(es)
  {
  }

  lemma NameAt(es0: seq<Entry>, es: seq<Entry>, i: nat)
    requires SameNames(es0, es) && i < |es0|
    ensures |es| == |es0| && es[i].path == es0[i].path && es[i].used == es0[i].used && es[i].isDir == es0[i].isDir
  {
  }

  /** Overwriting a file inside its capacity. */
  lemma InPlace(es: seq<Entry>, ram: seq<Byte>, ram': seq<Byte>, i: nat, buf: seq<Byte>, end: nat)
    requires Sound(es, end) && i < |es| && es[i].IsFile() && |buf| <= es[i].capacity && end <= |ram| == |ram'|
    requires es[i].End() <= end && ram'[es[i].offset..es[i].offset + |buf|] == buf
    requires forall k :: 0 <= k < |ram| && !(es[i].offset <= k < es[i].offset + |buf|) ==> ram'[k] == ram[k]
    ensures var e := es[i].(size := |buf|);
      Sound(es[i := e], end) && Becomes(es, ram, es[i := e], ram', e.path, Some(buf))
  {
    hide Find;
    var e := es[i].(size := |buf|);
    WriteKeeps(es, ram, ram', i, es[i].offset, |buf|, end);
    forall k | 0 <= k < |es| && k != i && es[k].IsFile() ensures Apart(e, es[k]) {
      assert Apart(es[i], es[k]) || Apart(es[k], es[i]);
    }
    hide Content, Slice;
    SetEntry(es, ram', i, e, end);
    assert Slice(ram', e) == buf by { SliceIs(ram', e, buf); }
  }

  lemma SliceIs(ram: seq<Byte>, e: Entry, buf: seq<Byte>)
    requires e.offset + e.size <= |ram| && ram[e.offset..e.offset + e.size] == buf
    ensures Slice(ram, e) == buf
  {
  }

  /** Writing a file's new bytes beyond every extent. */
  lemma Relocated(es: seq<Entry>, ram: seq<Byte>, ram': seq<Byte>, i: nat, buf: seq<Byte>, at: nat)
    requires Sound(es, at) && i < |es| && es[i].IsFile() && at + |buf| <= |ram| == |ram'|
    requires ram'[at..at + |buf|] == buf
    requires forall k :: 0 <= k < |ram| && !(at <= k < at + |buf|) ==> ram'[k] == ram[k]
    ensures var e := es[i].(offset := at, size := |buf|, capacity := |buf|);
      Sound(es[i := e], at + |buf|) && Becomes(es, ram, es[i := e], ram', e.path, Some(buf))
  {
    hide Find;
    var e := es[i].(offset := at, size := |buf|, capacity := |buf|);
    WriteKeeps(es, ram, ram', i, at, |buf|, at);
    SoundGrows(es, at, at + |buf|);
    forall k | 0 <= k < |es| && k != i && es[k].IsFile() ensures Apart(e, es[k]) {
      assert es[k].End() <= at;
    }
    hide Content, Slice;
    SetEntry(es, ram', i, e, at + |buf|);
    assert Slice(ram', e) == buf by { SliceIs(ram', e, buf); }
  }

  lemma BecomesAfter(es0: seq<Entry>, ram0: seq<Byte>, es1: seq<Entry>, ram1: seq<Byte>, es: seq<Entry>, ram: seq<Byte>, p: Path, c: Option<seq<Byte>>)
    requires SameFiles(es0, ram0, es1, ram1) && Becomes(es1, ram1, es, ram, p, c)
    ensures Becomes(es0, ram0, es, ram, p, c)
  {
    hide Content;
  }

  /** The entry at `p`, if any, is the same in both tables. */
  ghost predicate SameEntry(es: seq<Entry>, es': seq<Entry>, p: Path)
  {
    var i, i' := Find(es, p), Find(es', p);
    (i < |es| <==> i' < |es'|) && (i < |es| && i' < |es'| ==> es[i] == es'[i'])
  }

  /** No directory still has the extent of a file it once was. */
  ghost predicate NoRelics(es: seq<Entry>)
  {
    forall i :: 0 <= i < |es| && es[i].used && es[i].isDir ==> es[i].Blank()
  }

  lemma EntriesRefl(es: seq<Entry>)
    ensures forall q :: SameEntry(es, es, q)
  {
  }

  lemma SetOther(es: seq<Entry>, es': seq<Entry>, k: nat, end: nat)
    requires k < |es| == |es'| && Sound(es, end) && Sound(es', end) && es' == es[k := es'[k]]
    requires es'[k].used && (es[k].used ==> es[k].path == es'[k].path)
    ensures forall q :: q != es'[k].path ==> SameEntry(es, es', q)
  {
    hide Find;
    forall q | q != es'[k].path ensures SameEntry(es, es', q) {
      var i, i' := Find(es, q), Find(es', q);
      if i < |es| { FindIs(es', i); }
      if i' < |es'| { FindIs(es, i'); }
    }
  }

  lemma DirsStay(es: seq<Entry>, es': seq<Entry>, made: set<Path>, p: Path)
    requires forall a :: a in made ==> DirAt(es, a)
    requires DirAt(es', p) && forall q :: q != p ==> SameEntry(es, es', q)
    ensures forall a :: a in made + {p} ==> DirAt(es', a)
  {
    hide Find;
    forall a | a in made && a != p ensures DirAt(es', a) {
      assert SameEntry(es, es', a) && DirAt(es, a);
    }
  }

  lemma DirsKept(es: seq<Entry>, es': seq<Entry>, dirs: set<Path>, p: Path)
    requires (forall a :: a in dirs ==> DirAt(es, a)) && p !in dirs
    requires forall q :: q != p ==> SameEntry(es, es', q)
    ensures forall a :: a in dirs ==> DirAt(es', a)
  {
    hide Find;
    forall a | a in dirs ensures DirAt(es', a) {
      assert SameEntry(es, es', a) && DirAt(es, a);
    }
  }

  lemma BecomesSame(es: seq<Entry>, ram: seq<Byte>, p: Path)
    ensures Becomes(es, ram, es, ram, p, Content(es, ram, p))
  {
    hide Content;
  }

  lemma {:induction false} MadeThen(present: set<Path>, ds: seq<Path>, d: Path)
    ensures var (q, ok) := Made(present, ds);
      Made(present, ds + [d]) == if ok then Made(q, [d]) else (q, false)
    decreases |ds|
  {
    if ds == [] {
      assert ds + [d] == [d];
    } else {
      assert (ds + [d])[1..] == ds[1..] + [d];
      if ds[0] in present {
        MadeThen(present, ds[1..], d);
      } else if |present| < MAX_ENTRIES {
        MadeThen(present + {ds[0]}, ds[1..], d);
      }
    }
  }

  lemma MadeNone(present: set<Path>)
    ensures Made(present, []) == (present, true)
  {
  }

  lemma DirSet(es: seq<Entry>, k: nat, e: Entry, end: nat)
    requires k < |es| && Sound(es[k := e], end) && e.used && e.isDir
    ensures DirAt(es[k := e], e.path)
  {
    FindIs(es[k := e], k);
  }

  lemma SameEntryChain(es0: seq<Entry>, es1: seq<Entry>, es2: seq<Entry>, all: set<Path>)
    requires forall q :: q !in all ==> SameEntry(es0, es1, q)
    requires forall q :: q !in all ==> SameEntry(es1, es2, q)
    ensures forall q :: q !in all ==> SameEntry(es0, es2, q)
  {
    hide Find;
    forall q | q !in all ensures SameEntry(es0, es2, q) {
      assert SameEntry(es0, es1, q) && SameEntry(es1, es2, q);
    }
  }

  lemma DemoteMore(es0: seq<Entry>, es1: seq<Entry>, es2: seq<Entry>, ram: seq<Byte>, dirs: set<Path>, p: Path)
    requires Demotes(es0, ram, es1, ram, dirs) && Becomes(es1, ram, es2, ram, p, None)
    requires forall a :: a in dirs ==> Content(es1, ram, a) == None
    ensures Demotes(es0, ram, es2, ram, dirs + {p})
    ensures forall a :: a in dirs + {p} ==> Content(es2, ram, a) == None
  {
    hide Content;
  }

  /** `p` and the directories above it. */
  function UpFrom(p: Path): (s: set<Path>)
    requires Absolute(p)
  {
    if p == "/" then {"/"} else {p} + Ancestors(p)
  }

  lemma UpStep(p: Path)
    requires Absolute(p)
    ensures UpFrom(p) == (if p == "/" then {"/"} else {p} + Ancestors(p)) && p in UpFrom(p)
  {
  }

  /** `p` and the directories above it, in order. */
  function UpList(p: Path): (s: seq<Path>)
    requires Absolute(p)
  {
    if p == "/" then ["/"] else [p] + Climb(p)
  }

  lemma UpListStep(p: Path)
    requires Absolute(p)
    ensures UpList(p) == if p == "/" then ["/"] else [p] + Climb(p)
  {
  }

  lemma ParentUp(p: Path)
    requires Absolute(p)
    ensures Absolute(Parent(p)) && Ancestors(p) == UpFrom(Parent(p)) && (p != "/" ==> |Parent(p)| < |p|)
    ensures Climb(p) == UpList(Parent(p))
  {
    if p == "/" { assert Parent(p) == "/"; }
  }

  lemma DemoteNone(es: seq<Entry>, ram: seq<Byte>)
    ensures Demotes(es, ram, es, ram, {})
  {
  }

  lemma StillNone(es0: seq<Entry>, es: seq<Entry>, ram: seq<Byte>, made: set<Path>, p: Path)
    requires Demotes(es0, ram, es, ram, made)
    ensures Content(es0, ram, p) == None ==> Content(es, ram, p) == None
  {
    hide Content;
  }

  lemma DemoteWiden(es0: seq<Entry>, ram: seq<Byte>, es: seq<Entry>, some: set<Path>, all: set<Path>)
    requires Demotes(es0, ram, es, ram, some) && some <= all
    ensures Demotes(es0, ram, es, ram, all)
  {
    hide Content;
  }

  /** What creating a file where no former one is does to the files. */
  ghost predicate Created(es: seq<Entry>, es': seq<Entry>, ram: seq<Byte>, full: Path, ok: bool)
    requires Absolute(full)
  {
    var was := Content(es, ram, full);
    && Content(es', ram, full) == (if !ok || was.Some? then was else Some([]))
    && DemotesBut(es, es', ram, Ancestors(full), full)
  }

  /** The directory at `p` has become the file it once was. */
  ghost predicate Revived(es: seq<Entry>, es': seq<Entry>, p: Path)
  {
    var i, j := Find(es, p), Find(es', p);
    i < |es| && j < |es'| && es'[j] == es[i].(isDir := false)
  }

  /** The extent of the entry at `p` is in the data, and no file other than those at
      `gone` reaches into it. */
  ghost predicate Unclaimed(es: seq<Entry>, p: Path, end: nat, gone: set<Path>)
  {
    var k := Find(es, p);
    && k < |es| && es[k].size <= es[k].capacity && es[k].End() <= end
    && forall i :: 0 <= i < |es| && i != k && es[i].IsFile() && es[i].path !in gone ==> Apart(es[k], es[i])
  }

  /** Making directories of the paths `gone`, and a file of the one at `p`, leaves the
      other files where they were. */
  lemma UnclaimedAfter(es0: seq<Entry>, es: seq<Entry>, es': seq<Entry>, k: nat, end: nat, gone: set<Path>)
    requires UniquePaths(es0) && UniquePaths(es) && k < |es| == |es'| && es[k].used && es[k].path !in gone
    requires es' == es[k := es[k].(isDir := false)] && Find(es, es[k].path) == k == Find(es', es[k].path)
    requires forall q :: q !in gone ==> SameEntry(es0, es, q)
    requires forall a :: a in gone ==> DirAt(es, a)
    ensures Unclaimed(es', es[k].path, end, {}) <==> Unclaimed(es0, es[k].path, end, gone)
  {
    hide Find, Apart;
    var p := es[k].path;
    var k0 := Find(es0, p);
    assert SameEntry(es0, es, p);
    if Unclaimed(es', p, end, {}) {
      forall i | 0 <= i < |es0| && i != k0 && es0[i].IsFile() && es0[i].path !in gone ensures Apart(es0[k0], es0[i]) {
        var q := es0[i].path;
        FindIs(es0, i);
        assert SameEntry(es0, es, q);
        var j := Find(es, q);
        assert es'[j] == es[j];
        SameApart(es'[k], es0[k0], es[j]);
      }
    }
    if Unclaimed(es0, p, end, gone) {
      forall i | 0 <= i < |es'| && i != k && es'[i].IsFile() ensures Apart(es'[k], es'[i]) {
        var q := es[i].path;
        FindIs(es, i);
        assert q in gone ==> DirAt(es, q);
        assert SameEntry(es0, es, q);
        var j := Find(es0, q);
        FoundPath(es0, p);
        SameApart(es'[k], es0[k0], es0[j]);
      }
    }
  }

  /** Only the kind of an entry changes, so every path is found where it was. */
  lemma KindSet(es: seq<Entry>, i: nat, es': seq<Entry>)
    requires i < |es| == |es'| && es' == es[i := es[i].(isDir := false)] && Find(es, es[i].path) == i
    ensures Find(es', es[i].path) == i
    ensures forall q :: q != es[i].path ==> SameEntry(es, es', q)
  {
    hide Find;
    SameFind(es, es', es[i].path);
    forall q | q != es[i].path ensures SameEntry(es, es', q) {
      SameFind(es, es', q);
      FoundPath(es, q);
    }
  }

  lemma SameApart(e: Entry, f: Entry, g: Entry)
    requires e.offset == f.offset && e.capacity == f.capacity
    ensures Apart(e, g) == Apart(f, g)
  {
  }

  lemma FoundPath(es: seq<Entry>, q: Path)
    ensures Find(es, q) < |es| ==> es[Find(es, q)].path == q
  {
  }

  lemma {:induction false} SameFind(es: seq<Entry>, es': seq<Entry>, q: Path)
    requires |es| == |es'| && forall k :: 0 <= k < |es| ==> es[k].used == es'[k].used && es[k].path == es'[k].path
    ensures Find(es, q) == Find(es', q)
  {
    if es != [] { SameFind(es[1..], es'[1..], q); }
  }

  lemma SoundAgain(es: seq<Entry>, i: nat, e: Entry, end: nat)
    requires Sound(es, end) && i < |es| && es[i].used && es[i].isDir && e == es[i].(isDir := false)
    requires Find(es, e.path) == i && Find(es[i := e], e.path) == i
    ensures Sound(es[i := e], end) <==> Unclaimed(es[i := e], e.path, end, {})
  {
    var es' := es[i := e];
    hide Find;
    if Unclaimed(es', e.path, end, {}) {
      forall j, k | 0 <= j < k < |es'| && es'[j].IsFile() && es'[k].IsFile() ensures Apart(es'[j], es'[k]) { }
    }
    if Sound(es', end) {
      assert es'[i].IsFile();
      forall j | 0 <= j < |es'| && j != i && es'[j].IsFile() ensures Apart(es'[i], es'[j]) {
        if j < i { assert Apart(es'[j], es'[i]); }
      }
    }
  }

  lemma RevivedFrom(es0: seq<Entry>, es: seq<Entry>, es': seq<Entry>, p: Path)
    requires SameEntry(es0, es, p)
    requires var k := Find(es, p);
      k < |es| == |es'| && Find(es', p) == k && es'[k] == es[k].(isDir := false) && es[k].isDir && !es[k].Blank()
    ensures Revived(es0, es', p) && RelicAt(es0, p)
  {
    hide Find;
  }

  lemma NoRelicsThere(es: seq<Entry>, p: Path)
    requires RelicAt(es, p)
    ensures !NoRelics(es)
  {
  }

  lemma NoRelicThere(es: seq<Entry>, p: Path)
    requires Find(es, p) < |es| ==> !es[Find(es, p)].isDir || es[Find(es, p)].Blank()
    ensures !RelicAt(es, p)
  {
  }

  /** How bytes can be claimed twice: where a file of two bytes has become a directory and
      compacting has moved another file there, creating the file again makes a table that
      the integrity check refuses. */
  lemma RelicClash(cap: nat) returns (es: seq<Entry>, p: Path)
    ensures Sound(es, 2) && RelicAt(es, p) && Find(es, p) == 0
    ensures var e := es[0].(isDir := false); !Unclaimed(es, p, 2, {"/"}) && !Intact(es[0 := e], cap)
  {
    p := "/a";
    es := [Entry(true, true, p, 0, 2, 2), Entry(true, false, "/b", 0, 2, 2)];
    var e := es[0].(isDir := false);
    assert es[0].path != es[1].path by { assert es[0].path[1] != es[1].path[1]; }
    assert !Apart(es[0], es[1]) && es[1].path != "/" && !Clear(es[0 := e][0], es[0 := e][1]);
    assert es[0 := e][0].IsFile() && es[0 := e][1].IsFile();
  }

  /** A directory entry at `p` that still has the extent of the file it was. */
  ghost predicate RelicAt(es: seq<Entry>, p: Path)
  {
    var i := Find(es, p);
    i < |es| && es[i].isDir && !es[i].Blank()
  }

  /** Apart from `p`, only files among `dirs` may be gone. */
  ghost predicate DemotesBut(es: seq<Entry>, es': seq<Entry>, ram: seq<Byte>, dirs: set<Path>, p: Path)
  {
    forall q :: q != p ==>
      Content(es', ram, q) == Content(es, ram, q) || (q in dirs && Content(es', ram, q) == None)
  }

  lemma DemotesThen(es0: seq<Entry>, es1: seq<Entry>, es2: seq<Entry>, ram: seq<Byte>, dirs: set<Path>, p: Path)
    requires Demotes(es0, ram, es1, ram, dirs)
    requires es1 == es2 || exists c :: Becomes(es1, ram, es2, ram, p, c)
    ensures DemotesBut(es0, es2, ram, dirs, p)
  {
    hide Content;
  }

  lemma {:induction false} AncestorsShorter(p: Path)
    requires Absolute(p) && p != "/"
    ensures forall a :: a in Ancestors(p) ==> |a| < |p|
    decreases |p|
  {
    ParentUp(p);
    if Parent(p) != "/" { AncestorsShorter(Parent(p)); }
  }

  lemma SameEntryContent(es0: seq<Entry>, es: seq<Entry>, ram: seq<Byte>, p: Path)
    requires SameEntry(es0, es, p)
    ensures Content(es, ram, p) == Content(es0, ram, p) && (RelicAt(es, p) <==> RelicAt(es0, p))
  {
    hide Find;
  }

  lemma NoContent(es: seq<Entry>, ram: seq<Byte>, p: Path)
    requires Find(es, p) == |es| || es[Find(es, p)].isDir
    ensures Content(es, ram, p) == None
  {
  }

  lemma FileContent(es: seq<Entry>, ram: seq<Byte>, p: Path)
    requires Find(es, p) < |es| && es[Find(es, p)].IsFile()
    ensures Content(es, ram, p).Some?
  {
  }

  lemma BecomesAt(es: seq<Entry>, ram: seq<Byte>, es': seq<Entry>, p: Path, c: Option<seq<Byte>>)
    requires Becomes(es, ram, es', ram, p, c)
    ensures Content(es', ram, p) == c
  {
  }

  lemma EmptySlice(ram: seq<Byte>, e: Entry)
    requires e.size == 0
    ensures Slice(ram, e) == []
  {
  }

  lemma BlankApart(es: seq<Entry>, end: nat, e: Entry)
    requires Sound(es, end) && e.Blank()
    ensures forall i :: 0 <= i < |es| && es[i].IsFile() ==> Apart(e, es[i])
  {
  }

  lemma EndApart(es: seq<Entry>, end: nat, e: Entry)
    requires Sound(es, end) && e.offset == end && e.capacity == 0
    ensures forall i :: 0 <= i < |es| && es[i].IsFile() ==> Apart(e, es[i])
  {
  }

  /** Everything in a directory, the directory itself included. */
  predicate IsChild(parent: Path, p: Path)
  {
    parent == "/" || parent == p || (|p| > |parent| && p[..|parent|] == parent && p[|parent|] == '/')
  }

  // ---- what paths mean -------------------------------------------------------------

  /** An absolute path below the root, without empty names. */
  ghost predicate Clean(p: Path)
  {
    Absolute(p) && |p| > 1 && p[|p| - 1] != '/' && forall i :: 0 <= i < |p| - 1 ==> !(p[i] == '/' && p[i + 1] == '/')
  }

  /** The place of the last slash. */
  ghost function LastSlash(p: Path): (i: nat)
    requires p != "" && p[0] == '/'
    ensures i < |p| && p[i] == '/' && forall k :: i < k < |p| ==> p[k] != '/'
  {
    if p[|p| - 1] == '/' then |p| - 1 else LastSlash(p[..|p| - 1])
  }

  lemma {:induction false} DropNameIs(p: Path)
    requires p != "" && p[0] == '/'
    ensures DropName(p) == p[..LastSlash(p) + 1]
    decreases |p|
  {
    if p[|p| - 1] != '/' {
      DropNameIs(p[..|p| - 1]);
      assert p[..|p| - 1][..LastSlash(p) + 1] == p[..LastSlash(p) + 1];
    } else {
      assert p[..|p|] == p;
    }
  }

  /** The directory a clean path is in is what comes before its last slash. */
  lemma ParentIs(p: Path)
    requires Clean(p)
    ensures var i := LastSlash(p); Parent(p) == (if i == 0 then "/" else p[..i]) && (i > 0 ==> Clean(p[..i]))
  {
    var i := LastSlash(p);
    DropNameIs(p);
    var q := p[..i + 1];
    assert q[i] == '/';
    if i > 0 {
      assert q[..i] == p[..i];
      assert p[i - 1] != '/' && p[..i][|p[..i]| - 1] == p[i - 1];
      assert p[..i][0] == p[0];
    } else {
      assert q == "/";
    }
  }

  /** `d` comes before a slash of `p`. */
  ghost predicate Leads(d: Path, p: Path)
  {
    0 < |d| < |p| && p[..|d|] == d && p[|d|] == '/'
  }

  lemma {:induction false} AncestorIs(d: Path, p: Path)
    requires Clean(p)
    ensures d in Ancestors(p) <==> d == "/" || Leads(d, p)
    decreases |p|
  {
    hide Parent, Clean;
    CleanRoot(p);
    var i := LastSlash(p);
    ParentIs(p);
    if i > 0 {
      var q := p[..i];
      AncestorIs(d, q);
      assert q == "/" ==> q[0] == p[0];
      CleanRoot(q);
      if Leads(d, p) && |d| < i {
        assert q[..|d|] == p[..|d|] && q[|d|] == p[|d|];
      }
      if Leads(d, q) {
        assert q[..|d|] == p[..|d|] && q[|d|] == p[|d|];
      }
    }
  }

  lemma CleanRoot(p: Path)
    requires Clean(p)
    ensures p != "" && p != "/" && p[0] == '/' && Absolute(p)
  {
  }

  /** Being in a directory is being it or having it among the directories above. */
  lemma InDirectory(d: Path, p: Path)
    requires Clean(p) && d != ""
    ensures IsChild(d, p) <==> d == p || d in Ancestors(p)
  {
    hide Clean;
    AncestorIs(d, p);
  }

  /** A file lies in the directory it was made in, under its own name. */
  lemma JoinedIn(p: Path, n: string)
    requires (p == "/" || Clean(p)) && n != "" && '/' !in n && '\\' !in n && |p| + 1 + |n| < MAX_PATH
    ensures var f := Join(p, n);
      Clean(f) && Parent(f) == p && f == (if p == "/" then "/" else p + "/") + n
  {
    hide Parent, Clean, Norm, Join, LastSlash;
    var q := if p == "/" then "/" else p + "/";
    CleanJoin(p, n);
    JoinIs(p, n);
    CleanRoot(q + n);
    assert q[0] == (q + n)[0];
    LastOf(q, n);
    ParentIs(q + n);
    if p != "/" {
      CleanRoot(p);
      assert (q + n)[..|q| - 1] == p;
    }
  }

  lemma LastOf(q: Path, n: string)
    requires q != "" && q[0] == '/' && q[|q| - 1] == '/' && '/' !in n
    ensures LastSlash(q + n) == |q| - 1
  {
    hide LastSlash;
    var f := q + n;
    assert f[|q| - 1] == '/' && forall k :: |q| <= k < |f| ==> f[k] == n[k - |q|];
  }

  /** In any case it is as much of path, slash and name as a path can hold. */
  lemma JoinCut(path: string, name: string)
    ensures var p := Norm(path);
      var whole := p + (if |p| > 1 && p[|p| - 1] != '/' then "/" else "") + Slashes(name);
      |Join(path, name)| == Least(|whole|, MAX_PATH - 1) && Join(path, name) <= whole
  {
    hide Norm, Slashes;
  }

  lemma JoinIs(p: Path, n: string)
    requires (p == "/" || Clean(p)) && '/' !in n && '\\' !in n && |p| + 1 + |n| < MAX_PATH
    ensures Join(p, n) == (if p == "/" then "/" else p + "/") + n
  {
    assert Slashes(n) == n;
    NormIsNormal(p, n);
  }

  lemma CleanJoin(p: Path, n: string)
    requires (p == "/" || Clean(p)) && n != "" && '/' !in n && '\\' !in n && |p| + 1 + |n| < MAX_PATH
    ensures Clean((if p == "/" then "/" else p + "/") + n)
  {
    var q := if p == "/" then "/" else p + "/";
    var f := q + n;
    assert f[|f| - 1] == n[|n| - 1];
    forall i | 0 <= i < |f| - 1 ensures !(f[i] == '/' && f[i + 1] == '/') {
      if i + 1 < |q| - 1 {
        assert f[i] == p[i] && f[i + 1] == p[i + 1];
      } else if i + 1 < |q| {
        assert f[i] == p[|p| - 1];
      } else {
        assert f[i + 1] == n[i + 1 - |q|];
      }
    }
  }

  /** Backslashes count as slashes, and what is too long is cut. */
  lemma NormAt(p: string, i: nat)
    requires p != "" && i < |Norm(p)|
    ensures |Norm(p)| == (if |p| < MAX_PATH then |p| else MAX_PATH - 1)
    ensures Norm(p)[i] == '/' <==> p[i] == '/' || p[i] == '\\'
    ensures p[i] != '\\' ==> Norm(p)[i] == p[i]
  {
  }

  /** The first `i` entries are rid of everything in `p`. */
  ghost predicate Pruned(es0: seq<Entry>, es: seq<Entry>, ram: seq<Byte>, p: Path, i: nat)
  {
    && |es| == |es0| && i <= |es|
    && (forall j :: i <= j < |es| ==> es[j] == es0[j])
    && (forall j :: 0 <= j < i ==> !(es[j].used && IsChild(p, es[j].path)))
    && (forall q :: Content(es, ram, q) == Content(es0, ram, q) || (IsChild(p, q) && Content(es, ram, q) == None))
  }

  lemma PruneStep(es0: seq<Entry>, es: seq<Entry>, ram: seq<Byte>, p: Path, i: nat)
    requires Pruned(es0, es, ram, p, i) && i < |es| && IsChild(p, es[i].path)
    requires Becomes(es, ram, es[i := FREE], ram, es[i].path, None)
    ensures Pruned(es0, es[i := FREE], ram, p, i + 1)
  {
    hide Content;
  }

  lemma PrunedPaths(es0: seq<Entry>, es: seq<Entry>, p: Path)
    requires |es| == |es0|
    requires forall j :: 0 <= j < |es| ==> es[j] == (if es0[j].used && IsChild(p, es0[j].path) then FREE else es0[j])
    ensures forall q :: q in Paths(es) <==> q in Paths(es0) && !IsChild(p, q)
    ensures (exists q :: q in Paths(es0) && IsChild(p, q)) <==> exists j :: 0 <= j < |es0| && es0[j].used && IsChild(p, es0[j].path)
  {
    hide IsChild;
    forall q | q in Paths(es0) && !IsChild(p, q) ensures q in Paths(es) {
      var j :| 0 <= j < |es0| && es0[j].used && es0[j].path == q;
      assert es[j].used && es[j].path == q;
    }
    if j :| 0 <= j < |es0| && es0[j].used && IsChild(p, es0[j].path) {
      assert es0[j].path in Paths(es0);
    }
  }

  lemma PruneDone(es0: seq<Entry>, es: seq<Entry>, ram: seq<Byte>, p: Path)
    requires Pruned(es0, es, ram, p, |es|)
    ensures forall q :: Content(es, ram, q) == if IsChild(p, q) then None else Content(es0, ram, q)
  {
    hide Find;
  }
}

/** Whole runs of the file store: any list of operations, applied to the store,
    answers and leaves it as the same operations do on a plain tree of files and
    directories. */
module StoreRun {
  import opened Common
  import opened Grid
  import opened Store

  datatype Op =
    | Create(path: string, name: string)
    | Write(wpath: string, bytes: seq<Byte>)
    | Read(rpath: string, len: nat)
    | Delete(dpath: string)
    | MakeDir(mpath: string)
    | DeleteTree(tpath: string)
    | Compact
    | Save
    | Load

  /** An answer: whether it worked, and for a read the bytes. */
  datatype Reply = Reply(ok: bool, bytes: seq<Byte>)

  type Files = map<Path, seq<Byte>>

  /** The files with their bytes, and the directories. */
  datatype Tree = Tree(files: Files, dirs: set<Path>)
  {
    function Taken(): (s: set<Path>) { files.Keys + dirs }
  }

  /** The abstract store: what it holds now, and what was backed up. */
  datatype Model = Model(now: Tree, saved: Option<Tree>)

  /** The bytes of all files together. */
  ghost function Bytes(files: Files): (n: nat)
    decreases |files|
  {
    if files == map[] then 0
    else
      var p :| p in files;
      |files[p]| + Bytes(files - {p})
  }

  /** What is asked to be in the table, in the order the store makes it. */
  ghost function Asked(op: Op): (ds: seq<Path>)
    requires Named(op)
  {
    match op
    case Create(path, name) => Climb(Join(path, name)) + [Join(path, name)]
    case MakeDir(path) => Climb(Norm(path)) + [Norm(path)]
    case _ => []
  }

  ghost predicate Named(op: Op)
  {
    match op
    case Create(path, name) => Absolute(Join(path, name))
    case MakeDir(path) => Absolute(Norm(path))
    case _ => true
  }

  /** The answer an operation gets. Only a write beyond what the live bytes leave free
      may go either way: it succeeds if the file's old place is large enough. */
  ghost predicate Answer(m: Model, op: Op, r: Reply, cap: nat)
    requires Named(op)
  {
    && (!op.Read? ==> r.bytes == [])
    && match op
       case Create(_, _) => r.ok <==> |With(m.now.Taken(), Asked(op))| <= MAX_ENTRIES
       case MakeDir(_) => r.ok <==> |With(m.now.Taken(), Asked(op))| <= MAX_ENTRIES
       case Write(path, bytes) =>
         && (r.ok ==> Norm(path) in m.now.files)
         && (Norm(path) in m.now.files && Bytes(m.now.files) + |bytes| <= cap ==> r.ok)
       case Read(path, len) =>
         && (r.ok <==> Norm(path) in m.now.files)
         && r.bytes == Padded(if r.ok then m.now.files[Norm(path)] else [], len)
       case Delete(path) => r.ok <==> Norm(path) in m.now.files
       case DeleteTree(path) => r.ok <==> exists q :: q in m.now.Taken() && IsChild(Norm(path), q)
       case Compact => r.ok
       case Save => r.ok
       case Load => r.ok <==> m.saved.Some?
  }

  /** The tree with everything the table had room for; a new file is empty, everything
      else new is a directory. */
  ghost function Grown(t: Tree, op: Op, full: Option<Path>): (r: Tree)
    requires Named(op)
  {
    var (taken, ok) := Made(t.Taken(), Asked(op));
    var files := if ok && full.Some? && full.value !in t.files then t.files[full.value := []] else t.files;
    Tree(files, taken - files.Keys)
  }

  /** What an operation that answered `ok` does to the model. */
  ghost function Next(m: Model, op: Op, ok: bool): (r: Model)
    requires Named(op)
  {
    match op
    case Create(path, name) => m.(now := Grown(m.now, op, Some(Join(path, name))))
    case MakeDir(_) => m.(now := Grown(m.now, op, None))
    case Write(path, bytes) => if ok then m.(now := m.now.(files := m.now.files[Norm(path) := bytes])) else m
    case Read(_, _) => m
    case Delete(path) => if ok then m.(now := m.now.(files := m.now.files - {Norm(path)})) else m
    case DeleteTree(path) => m.(now := Pruned(m.now, Norm(path)))
    case Compact => m
    case Save => m.(saved := Some(m.now))
    case Load => if m.saved.Some? then m.(now := m.saved.value) else m
  }

  function Pruned(t: Tree, p: Path): (r: Tree)
  {
    Tree(map q | q in t.files && !IsChild(p, q) :: t.files[q], set q | q in t.dirs && !IsChild(p, q))
  }

  /** Paths are absolute and no file becomes a directory. */
  ghost predicate Allowed(m: Model, op: Op)
  {
    Named(op) &&
    match op
    case Create(path, name) =>
      var full := Join(path, name);
      full != "/" && (forall a :: a in Ancestors(full) ==> a !in m.now.files)
    case MakeDir(path) =>
      var p := Norm(path);
      p !in m.now.files && (forall a :: a in Ancestors(p) ==> a !in m.now.files)
    case _ => true
  }

  /** Every operation is allowed after the earlier ones, whatever they can have answered. */
  ghost predicate AllowedRun(m: Model, ops: seq<Op>, cap: nat)
    decreases |ops|
  {
    ops == [] ||
    (Allowed(m, ops[0]) &&
     forall r :: Answer(m, ops[0], r, cap) ==> AllowedRun(Next(m, ops[0], r.ok), ops[1..], cap))
  }

  /** The replies answer the operations one after the other. */
  ghost predicate Answered(m: Model, ops: seq<Op>, rs: seq<Reply>, cap: nat)
    decreases |ops|
  {
    |ops| == |rs| &&
    (ops == [] ||
     (Named(ops[0]) && Answer(m, ops[0], rs[0], cap) && Answered(Next(m, ops[0], rs[0].ok), ops[1..], rs[1..], cap)))
  }

  /** The model after the operations. */
  ghost function Replay(m: Model, ops: seq<Op>, rs: seq<Reply>, cap: nat): (r: Model)
    requires Answered(m, ops, rs, cap)
    decreases |ops|
  {
    if ops == [] then m else Replay(Next(m, ops[0], rs[0].ok), ops[1..], rs[1..], cap)
  }

  // ---- refinement ---------------------------------------------------------------------

  ghost predicate Holds(es: seq<Entry>, ram: seq<Byte>, t: Tree)
  {
    && (forall p :: Content(es, ram, p) == if p in t.files then Some(t.files[p]) else None)
    && Paths(es) == t.Taken() && t.files.Keys !! t.dirs
  }

  /** The store stands for the model. */
  ghost predicate Refines(d: Disk, m: Model)
    reads d, d.ram
  {
    && d.Valid() && NoRelics(d.entries) && Holds(d.entries, d.ram[..], m.now)
    && (d.saved.Some? <==> m.saved.Some?)
    && (d.saved.Some? ==> NoRelics(d.saved.value.entries) && Holds(d.saved.value.entries, d.saved.value.ram, m.saved.value))
  }

  lemma FileTaken(es: seq<Entry>, ram: seq<Byte>, p: Path)
    requires Content(es, ram, p).Some?
    ensures p in Paths(es)
  {
    PathsFind(es, p);
  }

  /** The tree is determined by contents and paths. */
  lemma HoldsBy(es: seq<Entry>, ram: seq<Byte>, files: Files)
    requires forall p :: Content(es, ram, p) == if p in files then Some(files[p]) else None
    ensures Holds(es, ram, Tree(files, Paths(es) - files.Keys))
  {
    hide Paths, Content;
    forall p | p in files ensures p in Paths(es) {
      assert Content(es, ram, p).Some?;
      FileTaken(es, ram, p);
    }
    assert files.Keys + (Paths(es) - files.Keys) == Paths(es);
  }

  // ---- bytes ----------------------------------------------------------------------------

  lemma {:induction false} BytesWithout(files: Files, p: Path)
    requires p in files
    ensures Bytes(files) == |files[p]| + Bytes(files - {p})
    decreases |files|
  {
    var q :| q in files && Bytes(files) == |files[q]| + Bytes(files - {q});
    if q != p {
      BytesWithout(files - {q}, p);
      BytesWithout(files - {p}, q);
      assert files - {q} - {p} == files - {p} - {q};
    }
  }

  /** The live bytes are the bytes of all files. */
  lemma {:induction false} LiveIsBytes(es: seq<Entry>, ram: seq<Byte>, end: nat, files: Files)
    requires Sound(es, end) && end <= |ram|
    requires forall p :: Content(es, ram, p) == if p in files then Some(files[p]) else None
    ensures LiveBytes(es) == Bytes(files)
    decreases |es|
  {
    hide Content, Sound, Bytes;
    if es == [] {
      NoFiles(ram, files);
    } else {
      var n := |es| - 1;
      SoundPrefix(es, end);
      if es[n].IsFile() {
        var p := es[n].path;
        LastFile(es, ram, end);
        PrefixContent(es, ram, end);
        LiveIsBytes(es[..n], ram, end, files - {p});
        assert p in files;
        BytesWithout(files, p);
      } else {
        PrefixContent(es, ram, end);
        LiveIsBytes(es[..n], ram, end, files);
      }
    }
  }

  lemma NoFiles(ram: seq<Byte>, files: Files)
    requires forall p :: Content([], ram, p) == if p in files then Some(files[p]) else None
    ensures Bytes(files) == 0
  {
    forall p ensures p !in files {
      assert Content([], ram, p) == None;
    }
    assert files == map[];
  }

  lemma SoundPrefix(es: seq<Entry>, end: nat)
    requires Sound(es, end) && es != []
    ensures Sound(es[..|es| - 1], end)
  {
  }

  lemma LastFile(es: seq<Entry>, ram: seq<Byte>, end: nat)
    requires Sound(es, end) && end <= |ram| && es != [] && es[|es| - 1].IsFile()
    ensures Content(es, ram, es[|es| - 1].path).Some? && |Content(es, ram, es[|es| - 1].path).value| == es[|es| - 1].size
  {
    SoundAt(es, end, |es| - 1);
  }

  /** Without its last entry a table holds the same, except for that entry's file. */
  lemma PrefixContent(es: seq<Entry>, ram: seq<Byte>, end: nat)
    requires Sound(es, end) && es != []
    ensures var last := es[|es| - 1];
      forall p :: Content(es[..|es| - 1], ram, p) == if last.IsFile() && p == last.path then None else Content(es, ram, p)
  {
    hide Find;
    var n := |es| - 1;
    var last := es[n];
    forall p ensures Content(es[..n], ram, p) == if last.IsFile() && p == last.path then None else Content(es, ram, p) {
      var i, j := Find(es[..n], p), Find(es, p);
      if i < n { FindIs(es, i); }
    }
  }

  // ---- steps ------------------------------------------------------------------------------

  lemma NoRelicAt(es: seq<Entry>, p: Path)
    requires NoRelics(es)
    ensures !RelicAt(es, p)
  {
  }

  lemma TakenFits(d: Disk, m: Model, op: Op)
    requires Refines(d, m) && Named(op)
    ensures |m.now.Taken()| <= MAX_ENTRIES && Paths(d.entries) == m.now.Taken()
    ensures Made(m.now.Taken(), Asked(op)).1 <==> |With(m.now.Taken(), Asked(op))| <= MAX_ENTRIES
  {
    hide Paths, Asked, With, Made;
    PathsCount(d.entries);
    MadeFits(m.now.Taken(), Asked(op));
  }

  /** Where no ancestor was a file, creating a file changes no other one. */
  lemma CreatedFiles(es0: seq<Entry>, es: seq<Entry>, ram: seq<Byte>, files: Files, dirs: set<Path>, full: Path, ok: bool)
    requires forall p :: Content(es0, ram, p) == if p in files then Some(files[p]) else None
    requires forall a :: a in dirs ==> a !in files
    requires DemotesBut(es0, es, ram, dirs, full)
    requires var was := Content(es0, ram, full);
      Content(es, ram, full) == if !ok || was.Some? then was else Some([])
    ensures var files' := if ok && full !in files then files[full := []] else files;
      forall p :: Content(es, ram, p) == if p in files' then Some(files'[p]) else None
  {
    hide Content;
  }

  method Creates(d: Disk, path: string, name: string, ghost m: Model) returns (ok: bool)
    requires Refines(d, m) && Allowed(m, Create(path, name))
    modifies d, d.ram
    ensures Answer(m, Create(path, name), Reply(ok, []), d.cap) && Refines(d, Next(m, Create(path, name), ok))
  {
    hide Content, Sound, Ancestors, Find, Join, NoRelics, Paths, Made, Climb, With;
    ghost var op, full := Create(path, name), Join(path, name);
    ghost var es0 := d.entries;
    TakenFits(d, m, op);
    NoRelicAt(d.entries, full);
    forall a | a in Ancestors(full) ensures Content(es0, d.ram[..], a) == None { }
    ok := d.CreateFile(path, name);
    CreatedFiles(es0, d.entries, d.ram[..], m.now.files, Ancestors(full), full, ok);
    HoldsBy(d.entries, d.ram[..], Grown(m.now, op, Some(full)).files);
  }

  method MakesDir(d: Disk, path: string, ghost m: Model) returns (ok: bool)
    requires Refines(d, m) && Allowed(m, MakeDir(path))
    modifies d, d.ram
    ensures Answer(m, MakeDir(path), Reply(ok, []), d.cap) && Refines(d, Next(m, MakeDir(path), ok))
  {
    hide Content, Sound, Ancestors, Find, Norm, NoRelics, Paths, Made, Climb, With;
    ghost var op := MakeDir(path);
    ghost var es0, dirs := d.entries, Ancestors(Norm(path)) + {Norm(path)};
    TakenFits(d, m, op);
    forall a | a in dirs ensures Content(es0, d.ram[..], a) == None { }
    ok := d.CreateDir(path);
    assert forall p :: Content(d.entries, d.ram[..], p) == Content(es0, d.ram[..], p);
    HoldsBy(d.entries, d.ram[..], m.now.files);
  }

  method Writes(d: Disk, path: string, bytes: seq<Byte>, ghost m: Model) returns (ok: bool)
    requires Refines(d, m)
    modifies d, d.ram
    ensures Answer(m, Write(path, bytes), Reply(ok, []), d.cap) && Refines(d, Next(m, Write(path, bytes), ok))
  {
    hide Content, Sound, Find, Norm, NoRelics, Paths, LiveBytes, Bytes;
    ghost var p := Norm(path);
    LiveIsBytes(d.entries, d.ram[..], d.dataEnd, m.now.files);
    FileEntry(d.entries, d.ram[..], p);
    ok := d.WriteFile(path, bytes);
    if ok {
      assert p in m.now.files;
      assert m.now.files[p := bytes].Keys == m.now.files.Keys;
    }
  }

  lemma FileEntry(es: seq<Entry>, ram: seq<Byte>, p: Path)
    ensures Content(es, ram, p).Some? <==> Find(es, p) < |es| && es[Find(es, p)].IsFile()
  {
  }

  method Deletes(d: Disk, path: string, ghost m: Model) returns (ok: bool)
    requires Refines(d, m)
    modifies d, d.ram
    ensures Answer(m, Delete(path), Reply(ok, []), d.cap) && Refines(d, Next(m, Delete(path), ok))
  {
    hide Content, Sound, Find, Norm, NoRelics, Paths, LiveBytes;
    ok := d.DeleteFile(path);
    if ok {
      assert (m.now.files - {Norm(path)}).Keys == m.now.files.Keys - {Norm(path)};
    }
  }

  method DeletesTree(d: Disk, path: string, ghost m: Model) returns (ok: bool)
    requires Refines(d, m)
    modifies d, d.ram
    ensures Answer(m, DeleteTree(path), Reply(ok, []), d.cap) && Refines(d, Next(m, DeleteTree(path), ok))
  {
    hide Content, Sound, Find, Norm, NoRelics, Paths, LiveBytes, IsChild;
    ok := d.DeleteDir(path);
    assert Paths(d.entries) == Pruned(m.now, Norm(path)).Taken();
  }

  /** Every operation is answered as the model says, and the store goes on standing for
      the model. */
  method Apply(d: Disk, op: Op, ghost m: Model) returns (r: Reply)
    requires Refines(d, m) && Allowed(m, op)
    modifies d, d.ram
    ensures Answer(m, op, r, d.cap) && Refines(d, Next(m, op, r.ok))
  {
    hide Content, Sound, Ancestors, Find, Join, Norm, NoRelics, Paths, Made, Climb, Bytes, LiveBytes, IsChild, Padded;
    ghost var es0, ram0 := d.entries, d.ram[..];
    var ok, bytes := true, [];
    match op {
    case Create(path, name) => ok := Creates(d, path, name, m);
    case Write(path, buf) => ok := Writes(d, path, buf, m);
    case Read(path, len) => ok, bytes := d.ReadFile(path, len);
    case Delete(path) => ok := Deletes(d, path, m);
    case MakeDir(path) => ok := MakesDir(d, path, m);
    case DeleteTree(path) => ok := DeletesTree(d, path, m);
    case Compact =>
      d.Defragment();
      NamesRelics(es0, d.entries);
      PathsNames(es0, d.entries);
    case Save => d.Backup();
    case Load => ok := d.Restore();
    }
    r := Reply(ok, bytes);
  }

  /** A freshly formatted store stands for the empty tree. */
  method Start(ram: array<Byte>, cap: nat) returns (d: Disk)
    requires cap <= ram.Length
    ensures fresh(d) && d.ram == ram && d.cap == cap && Refines(d, Model(Tree(map[], {}), None))
  {
    hide Content, Paths;
    d := new Disk(ram, cap);
  }

  /** Over any allowed run every answer is the model's, the store refines the tree, and
      its integrity check passes at the end. */
  method Run(d: Disk, ops: seq<Op>, ghost m: Model) returns (rs: seq<Reply>, intact: bool)
    requires Refines(d, m) && AllowedRun(m, ops, d.cap)
    modifies d, d.ram
    ensures Answered(m, ops, rs, d.cap) && Refines(d, Replay(m, ops, rs, d.cap)) && intact
  {
    hide Refines, Allowed, AllowedRun, Next, Answer, Answered, Replay;
    rs := [];
    AnsweredNone(m, d.cap);
    ghost var now := m;
    var i := 0;
    while i < |ops|
      invariant 0 <= i <= |ops| && Refines(d, now) && AllowedRun(now, ops[i..], d.cap)
      invariant Answered(m, ops[..i], rs, d.cap) && now == Replay(m, ops[..i], rs, d.cap)
    {
      assert ops[i..][0] == ops[i] && ops[i..][1..] == ops[i + 1..];
      AllowedStep(now, ops[i..], d.cap);
      var r := Apply(d, ops[i], now);
      AllowedNamed(now, ops[i]);
      ReplayStep(m, ops[..i], rs, ops[i], r, d.cap);
      assert ops[..i + 1] == ops[..i] + [ops[i]];
      now := Next(now, ops[i], r.ok);
      rs := rs + [r];
      i := i + 1;
    }
    assert ops[..i] == ops;
    RefinesValid(d, now);
    intact := d.CheckIntegrity();
  }

  lemma AnsweredNone(m: Model, cap: nat)
    ensures Answered(m, [], [], cap) && Replay(m, [], [], cap) == m
  {
  }

  lemma AllowedStep(m: Model, ops: seq<Op>, cap: nat)
    requires AllowedRun(m, ops, cap) && ops != []
    ensures Allowed(m, ops[0]) && Named(ops[0])
    ensures forall r :: Answer(m, ops[0], r, cap) ==> AllowedRun(Next(m, ops[0], r.ok), ops[1..], cap)
  {
    AllowedNamed(m, ops[0]);
    hide Allowed, Next, Answer, Named;
  }

  lemma AllowedNamed(m: Model, op: Op)
    requires Allowed(m, op)
    ensures Named(op)
  {
  }

  lemma RefinesValid(d: Disk, m: Model)
    requires Refines(d, m)
    ensures d.Valid()
  {
  }

  lemma {:induction false} ReplayStep(m: Model, ops: seq<Op>, rs: seq<Reply>, op: Op, r: Reply, cap: nat)
    requires Answered(m, ops, rs, cap) && Named(op) && Answer(Replay(m, ops, rs, cap), op, r, cap)
    ensures Answered(m, ops + [op], rs + [r], cap)
    ensures Replay(m, ops + [op], rs + [r], cap) == Next(Replay(m, ops, rs, cap), op, r.ok)
    decreases |ops|
  {
    hide Next, Answer, Named;
    if ops == [] {
      assert ops + [op] == [op] && rs + [r] == [r] && [op][1..] == [] && [r][1..] == [];
    } else {
      ReplayStep(Next(m, ops[0], rs[0].ok), ops[1..], rs[1..], op, r, cap);
      assert (ops + [op])[1..] == ops[1..] + [op] && (rs + [r])[1..] == rs[1..] + [r];
    }
  }
}

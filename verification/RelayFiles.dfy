/** Attachments of the message relay: chunked uploads, quota and chunked
    downloads. */
module RelayFiles {
  import opened Grid
  import opened RelayMail

  type Fid = string

  const CHUNK: nat := 6144
  const MAX_FILE: nat := 10 * 1024 * 1024
  const QUOTA: nat := 300 * 1024 * 1024
  const MAX_UPLOADS := 2

  ghost function Concat(cs: seq<seq<Byte>>): (b: seq<Byte>)
  {
    if cs == [] then [] else Concat(cs[..|cs| - 1]) + cs[|cs| - 1]
  }

  // ---- the file table -------------------------------------------------------------

  /** A row of the file table; `data` is what is on disk for it, `chunks` the
      accepted chunks it came in, `conn` the connection that uploads it. */
  datatype Row = Row(fid: Fid, owner: Uid, size: nat, done: bool, conn: nat, chunks: seq<seq<Byte>>, data: seq<Byte>)

  function Find(rows: seq<Row>, fid: Fid): (i: nat)
    ensures i <= |rows| && (i < |rows| ==> rows[i].fid == fid)
    ensures forall j :: 0 <= j < i ==> rows[j].fid != fid
  {
    if rows == [] then 0 else if rows[0].fid == fid then 0 else
      var i := Find(rows[1..], fid);
      assert forall j :: 0 < j < i + 1 ==> rows[j] == rows[1..][j - 1];
      i + 1
  }

  /** The bytes an owner has declared. */
  function Used(rows: seq<Row>, u: Uid): (n: nat)
  {
    if rows == [] then 0
    else Used(rows[..|rows| - 1], u) + (if rows[|rows| - 1].owner == u then rows[|rows| - 1].size else 0)
  }

  /** How many uploads a connection has under way. */
  function Uploading(rows: seq<Row>, conn: nat): (n: nat)
  {
    if rows == [] then 0
    else Uploading(rows[..|rows| - 1], conn)
         + (if !rows[|rows| - 1].done && rows[|rows| - 1].conn == conn then 1 else 0)
  }

  /** A file's bytes are its chunks in order, within its declared length, and of
      exactly that length once it is marked done. */
  ghost predicate RowOk(r: Row)
  {
    && 1 <= r.size <= MAX_FILE
    && r.data == Concat(r.chunks) && |r.data| <= r.size
    && (forall i :: 0 <= i < |r.chunks| ==> 1 <= |r.chunks[i]| <= CHUNK)
    && (r.done ==> |r.data| == r.size)
  }

  ghost predicate TableOk(rows: seq<Row>)
  {
    && (forall i :: 0 <= i < |rows| ==> RowOk(rows[i]))
    && (forall i, j :: 0 <= i < j < |rows| ==> rows[i].fid != rows[j].fid)
    && (forall u :: Used(rows, u) <= QUOTA)
    && (forall c :: Uploading(rows, c) <= MAX_UPLOADS)
  }

  /** The table without the unfinished uploads of a connection. */
  ghost function Closed(rows: seq<Row>, conn: nat): (r: seq<Row>)
  {
    if rows == [] then [] else
      var last := rows[|rows| - 1];
      Closed(rows[..|rows| - 1], conn) + if last.done || last.conn != conn then [last] else []
  }

  lemma {:induction false} DropClosed(rows: seq<Row>, i: nat, conn: nat)
    requires i < |rows| && !rows[i].done && rows[i].conn == conn
    ensures Closed(Drop(rows, i), conn) == Closed(rows, conn)
    decreases |rows| - i
  {
    hide Drop;
    DropInit(rows, i);
    if i < |rows| - 1 { DropClosed(rows[..|rows| - 1], i, conn); }
  }

  lemma {:induction false} ClosedAll(rows: seq<Row>, conn: nat)
    requires forall i :: 0 <= i < |rows| ==> rows[i].done || rows[i].conn != conn
    ensures Closed(rows, conn) == rows
  {
    if rows != [] { ClosedAll(rows[..|rows| - 1], conn); }
  }

  function Drop(rows: seq<Row>, i: nat): (r: seq<Row>)
    requires i < |rows|
  {
    rows[..i] + rows[i + 1..]
  }

  lemma {:induction false} DropSums(rows: seq<Row>, i: nat, u: Uid, c: nat)
    requires i < |rows|
    ensures Used(Drop(rows, i), u) + (if rows[i].owner == u then rows[i].size else 0) == Used(rows, u)
    ensures Uploading(Drop(rows, i), c) + (if !rows[i].done && rows[i].conn == c then 1 else 0) == Uploading(rows, c)
    decreases |rows| - i
  {
    hide Drop;
    var n := |rows| - 1;
    DropInit(rows, i);
    if i < n { DropSums(rows[..n], i, u, c); }
  }

  lemma DropInit(rows: seq<Row>, i: nat)
    requires i < |rows|
    ensures var d, n := Drop(rows, i), |rows| - 1;
      if i == n then d == rows[..n] else |d| == n && d[..n - 1] == Drop(rows[..n], i) && d[n - 1] == rows[n]
  {
  }

  /** The other rows stay in order. */
  lemma DropAt(rows: seq<Row>, i: nat, j: nat)
    requires i < |rows| && j < |rows| && j != i
    ensures |Drop(rows, i)| == |rows| - 1 && Drop(rows, i)[if j < i then j else j - 1] == rows[j]
  {
  }

  lemma DropOk(rows: seq<Row>, i: nat)
    requires TableOk(rows) && i < |rows|
    ensures TableOk(Drop(rows, i))
  {
    hide RowOk, Used, Uploading;
    var d := Drop(rows, i);
    assert forall j :: 0 <= j < |d| ==> d[j] == rows[if j < i then j else j + 1];
    forall u ensures Used(d, u) <= QUOTA { DropSums(rows, i, u, 0); }
    forall c ensures Uploading(d, c) <= MAX_UPLOADS { DropSums(rows, i, "", c); }
  }

  /** The rows of a connection's uploads under way. */
  ghost function UnderWay(rows: seq<Row>, conn: nat): set<nat>
  {
    set i: nat | i < |rows| && !rows[i].done && rows[i].conn == conn
  }

  lemma {:induction false} UploadingIs(rows: seq<Row>, conn: nat)
    ensures Uploading(rows, conn) == |UnderWay(rows, conn)|
  {
    if rows != [] {
      var n := |rows| - 1;
      UploadingIs(rows[..n], conn);
      if !rows[n].done && rows[n].conn == conn {
        assert UnderWay(rows, conn) == UnderWay(rows[..n], conn) + {n};
      } else {
        assert UnderWay(rows, conn) == UnderWay(rows[..n], conn);
      }
    }
  }

  /** What one user has declared is the sum over the files it owns. */
  lemma {:induction false} UsedIs(rows: seq<Row>, u: Uid)
    ensures Used(rows, u) == Sum(seq(|rows|, i requires 0 <= i < |rows| => if rows[i].owner == u then rows[i].size else 0))
  {
    if rows != [] {
      var n := |rows| - 1;
      UsedIs(rows[..n], u);
      var sizes := seq(|rows|, i requires 0 <= i < |rows| => if rows[i].owner == u then rows[i].size else 0);
      assert sizes[..n] == seq(n, i requires 0 <= i < n => if rows[..n][i].owner == u then rows[..n][i].size else 0);
    }
  }

  ghost function Sum(s: seq<nat>): nat { if s == [] then 0 else Sum(s[..|s| - 1]) + s[|s| - 1] }

  /** Changing a row without changing its owner, size or connection. */
  lemma {:induction false} SetSums(rows: seq<Row>, i: nat, r: Row, u: Uid, c: nat)
    requires i < |rows| && r.owner == rows[i].owner && r.size == rows[i].size && r.conn == rows[i].conn
    requires rows[i].done ==> r.done
    ensures Used(rows[i := r], u) == Used(rows, u) && Uploading(rows[i := r], c) <= Uploading(rows, c)
    decreases |rows| - i
  {
    var n := |rows| - 1;
    var s := rows[i := r];
    if i == n {
      assert s[..n] == rows[..n];
    } else {
      SetSums(rows[..n], i, r, u, c);
      assert s[..n] == rows[..n][i := r];
    }
  }

  lemma SetOk(rows: seq<Row>, i: nat, r: Row)
    requires TableOk(rows) && i < |rows| && RowOk(r)
    requires r.fid == rows[i].fid && r.owner == rows[i].owner && r.size == rows[i].size && r.conn == rows[i].conn
    requires rows[i].done ==> r.done
    ensures TableOk(rows[i := r])
  {
    hide RowOk, Used, Uploading;
    var s := rows[i := r];
    forall u ensures Used(s, u) <= QUOTA { SetSums(rows, i, r, u, 0); }
    forall c ensures Uploading(s, c) <= MAX_UPLOADS { SetSums(rows, i, r, "", c); }
  }

  lemma AddOk(rows: seq<Row>, r: Row)
    requires TableOk(rows) && RowOk(r) && Find(rows, r.fid) == |rows|
    requires Used(rows, r.owner) + r.size <= QUOTA && Uploading(rows, r.conn) < MAX_UPLOADS && !r.done
    ensures TableOk(rows + [r])
  {
    hide RowOk, Used, Uploading;
    var s := rows + [r];
    forall u ensures Used(s, u) <= QUOTA { AddSums(rows, r, u, 0); }
    forall c ensures Uploading(s, c) <= MAX_UPLOADS { AddSums(rows, r, "", c); }
  }

  lemma AddSums(rows: seq<Row>, r: Row, u: Uid, c: nat)
    ensures Used(rows + [r], u) == Used(rows, u) + (if r.owner == u then r.size else 0)
    ensures Uploading(rows + [r], c) == Uploading(rows, c) + (if !r.done && r.conn == c then 1 else 0)
    ensures Used([], u) == 0 && Uploading([], c) == 0
  {
    assert (rows + [r])[..|rows|] == rows;
  }

  // ---- who may have a file ----------------------------------------------------------

  ghost predicate Done(rows: seq<Row>, fid: Fid)
  {
    exists i :: 0 <= i < |rows| && rows[i].fid == fid && rows[i].done
  }

  ghost predicate Owned(rows: seq<Row>, uid: Uid, fid: Fid)
  {
    exists i :: 0 <= i < |rows| && rows[i].fid == fid && rows[i].done && rows[i].owner == uid
  }

  /** The pairs of a file and a user the file has been given to. */
  type Rights = set<(Fid, Uid)>

  ghost predicate MayFetch(rows: seq<Row>, acl: Rights, uid: Uid, fid: Fid)
  {
    Owned(rows, uid, fid) || (Done(rows, fid) && (fid, uid) in acl)
  }

  /** Rights are given to finished files only. */
  ghost predicate RightsOk(rows: seq<Row>, acl: Rights)
  {
    forall p :: p in acl ==> Done(rows, p.0)
  }

  /** Finished files stay as they are. */
  ghost predicate Lasting(rows: seq<Row>, rows': seq<Row>)
  {
    forall r :: r in rows && r.done ==> r in rows'
  }

  lemma KeptRights(rows: seq<Row>, rows': seq<Row>, acl: Rights)
    requires Lasting(rows, rows') && RightsOk(rows, acl)
    ensures RightsOk(rows', acl)
  {
    forall p | p in acl ensures Done(rows', p.0) { KeptDone(rows, rows', p.0, ""); }
  }

  lemma KeptDone(rows: seq<Row>, rows': seq<Row>, fid: Fid, uid: Uid)
    requires Lasting(rows, rows')
    ensures Done(rows, fid) ==> Done(rows', fid)
    ensures Owned(rows, uid, fid) ==> Owned(rows', uid, fid)
  {
    if Done(rows, fid) {
      var i :| 0 <= i < |rows| && rows[i].fid == fid && rows[i].done;
      assert rows[i] in rows';
    }
    if Owned(rows, uid, fid) {
      var i :| 0 <= i < |rows| && rows[i].fid == fid && rows[i].done && rows[i].owner == uid;
      assert rows[i] in rows';
    }
  }

  // ---- the file a text announces ------------------------------------------------------

  /** The first bar from `k` on. */
  function Bar(text: string, k: nat): (i: nat)
    requires k <= |text|
    ensures k <= i <= |text| && (i < |text| ==> text[i] == '|') && '|' !in text[k..i]
    decreases |text| - k
  {
    if k == |text| || text[k] == '|' then k else
      var i := Bar(text, k + 1);
      assert text[k..i] == [text[k]] + text[k + 1..i];
      i
  }

  function Bars(text: string): (n: nat)
  {
    if text == "" then 0 else (if text[0] == '|' then 1 else 0) + Bars(text[1..])
  }

  predicate Announcing(text: string)
  {
    |text| >= 3 && text[..3] == "\U{0001}F|"
  }

  lemma AnnouncingIs(text: string)
    ensures Announcing(text) <==> exists rest :: text == "\U{0001}F|" + rest
  {
    if Announcing(text) { assert text == "\U{0001}F|" + text[3..]; }
  }

  /** The name of the file that a plain text announces, if it does. */
  function Announced(text: string): (fid: Fid)
  {
    if Announcing(text) && Bars(text) >= 3 then text[3..Bar(text, 3)] else ""
  }

  lemma {:induction false} BarsConcat(a: string, b: string)
    ensures Bars(a + b) == Bars(a) + Bars(b)
  {
    if a == "" {
      assert a + b == b;
    } else {
      BarsConcat(a[1..], b);
      assert (a + b)[1..] == a[1..] + b;
    }
  }

  /** An announcement names its file, whatever bars the file's own name has. */
  lemma AnnouncementBack(fid: Fid, size: string, name: string)
    requires '|' !in fid
    ensures Announced("\U{0001}F|" + fid + "|" + size + "|" + name) == fid
  {
    var head, tail := "\U{0001}F|", "|" + size + "|" + name;
    var text := head + fid + tail;
    assert text == "\U{0001}F|" + fid + "|" + size + "|" + name;
    BarsConcat(head + fid, tail);
    BarsConcat(head, fid);
    BarsConcat("|" + size, "|" + name);
    assert tail == ("|" + size) + ("|" + name);
    assert Bars(head) >= 1 by { assert head[1..][1..] == "|" && Bars("|") == 1 + Bars(""); }
    assert ("|" + size)[0] == '|' && ("|" + name)[0] == '|';
    var i := Bar(text, 3);
    assert text[3 + |fid|] == '|';
    assert text[3..3 + |fid|] == fid;
  }

  /** And nothing else is one. */
  lemma AnnouncedOnly(text: string)
    requires Announced(text) != ""
    ensures '|' !in Announced(text)
    ensures exists size: string, name: string :: text == "\U{0001}F|" + Announced(text) + ("|" + size + "|" + name)
  {
    hide Bars;
    var head, i := "\U{0001}F|", Bar(text, 3);
    var fid, tail := text[3..i], text[i..];
    assert text == head + fid + tail;
    BarsConcat(head + fid, tail);
    BarsConcat(head, fid);
    NoBars(fid);
    NoBars("");
    HeadBars();
    var size, name := TwoBars(tail);
  }

  lemma TwoBars(tail: string) returns (size: string, name: string)
    requires Bars(tail) >= 2 && tail[0] == '|'
    ensures tail == "|" + size + "|" + name
  {
    var rest := tail[1..];
    assert Bars(tail) == 1 + Bars(rest);
    var k := Bar(rest, 0);
    if k == |rest| {
      assert rest[0..k] == rest;
      NoBars(rest);
    }
    size, name := rest[..k], rest[k + 1..];
    assert rest == size + "|" + name;
  }

  lemma {:induction false} NoBars(s: string)
    requires '|' !in s
    ensures Bars(s) == 0
  {
    if s != "" { NoBars(s[1..]); }
  }

  lemma HeadBars()
    ensures Bars("\U{0001}F|") == 1
  {
    var head := "\U{0001}F|";
    assert head[1..] == "F|" && head[1..][1..] == "|" && Bars("|") == 1 + Bars("");
  }

  class Attachments {
    var rows: seq<Row>
    var acl: Rights

    ghost predicate Valid()
      reads this
    {
      TableOk(rows) && RightsOk(rows, acl)
    }

    constructor ()
      ensures Valid() && rows == [] && acl == {}
    {
      rows, acl := [], {};
    }

    /** Gives the owner's finished file to some users. */
    method Give(uid: Uid, fid: Fid, to: set<Uid>)
      requires Valid() && Owned(rows, uid, fid)
      modifies `acl
      ensures Valid() && acl == old(acl) + set u | u in to :: (fid, u)
    {
      hide TableOk;
      acl := acl + set u | u in to :: (fid, u);
    }

    /** Starts an upload under the unused name `fid`. */
    method Start(uid: Uid, conn: nat, size: int, fid: Fid) returns (ok: bool)
      requires Valid() && Find(rows, fid) == |rows|
      modifies `rows
      ensures Valid() && Lasting(old(rows), rows)
      ensures ok <==> 1 <= size <= MAX_FILE && Uploading(old(rows), conn) < MAX_UPLOADS && Used(old(rows), uid) + size <= QUOTA
      ensures rows == if ok then old(rows) + [Row(fid, uid, size, false, conn, [], [])] else old(rows)
    {
      hide Used, Uploading;
      if size < 1 || size > MAX_FILE {
        return false;
      }
      if Uploading(rows, conn) >= MAX_UPLOADS || Used(rows, uid) + size > QUOTA {
        return false;
      }
      var r := Row(fid, uid, size, false, conn, [], []);
      AddOk(rows, r);
      KeptRights(rows, rows + [r], acl);
      rows := rows + [r];
      ok := true;
    }

    /** Takes chunk `idx` of an upload of this connection; a chunk out of order,
        empty, too large or past the declared size ends the upload. */
    method Take(conn: nat, fid: Fid, idx: int, data: seq<Byte>) returns (ok: bool)
      requires Valid()
      modifies `rows
      ensures Valid() && Lasting(old(rows), rows)
      ensures var i := Find(old(rows), fid);
        if i == |old(rows)| || old(rows)[i].done || old(rows)[i].conn != conn then !ok && rows == old(rows)
        else
          var r := old(rows)[i];
          && (ok <==> idx == |r.chunks| && 1 <= |data| <= CHUNK && |r.data| + |data| <= r.size)
          && rows == if ok then old(rows)[i := r.(chunks := r.chunks + [data], data := r.data + data)]
                     else Drop(old(rows), i)
    {
      hide Used, Uploading;
      var i := Find(rows, fid);
      if i == |rows| || rows[i].done || rows[i].conn != conn {
        return false;
      }
      var r := rows[i];
      if idx != |r.chunks| || data == [] || |data| > CHUNK || |r.data| + |data| > r.size {
        DropOk(rows, i);
        DropIn(rows, i);
        KeptRights(rows, Drop(rows, i), acl);
        rows := Drop(rows, i);
        return false;
      }
      assert (r.chunks + [data])[..|r.chunks|] == r.chunks;
      SetKeeps(rows, i, r.(chunks := r.chunks + [data], data := r.data + data), acl);
      SetOk(rows, i, r.(chunks := r.chunks + [data], data := r.data + data));
      rows := rows[i := r.(chunks := r.chunks + [data], data := r.data + data)];
      ok := true;
    }

    /** Finishes an upload; only one of the declared length is kept. */
    method Finish(conn: nat, fid: Fid) returns (ok: bool)
      requires Valid()
      modifies `rows
      ensures Valid() && Lasting(old(rows), rows)
      ensures var i := Find(old(rows), fid);
        if i == |old(rows)| || old(rows)[i].done || old(rows)[i].conn != conn then !ok && rows == old(rows)
        else
          var r := old(rows)[i];
          && (ok <==> |r.data| == r.size)
          && rows == if ok then old(rows)[i := r.(done := true)] else Drop(old(rows), i)
    {
      hide Used, Uploading;
      var i := Find(rows, fid);
      if i == |rows| || rows[i].done || rows[i].conn != conn {
        return false;
      }
      if |rows[i].data| != rows[i].size {
        DropOk(rows, i);
        DropIn(rows, i);
        KeptRights(rows, Drop(rows, i), acl);
        rows := Drop(rows, i);
        return false;
      }
      SetKeeps(rows, i, rows[i].(done := true), acl);
      SetOk(rows, i, rows[i].(done := true));
      rows := rows[i := rows[i].(done := true)];
      ok := true;
    }

    /** Sends a finished file to those who may have it; what comes down is what went up:
        its accepted chunks in order. */
    method Download(uid: Uid, fid: Fid) returns (fs: seq<Frame>)
      requires Valid()
      ensures fs != [] <==> MayFetch(rows, acl, uid, fid)
      ensures fs != [] ==> var i := Find(rows, fid);
        i < |rows| && rows[i].done && Payload(fs) == Concat(rows[i].chunks) && |Payload(fs)| == rows[i].size
    {
      hide Used, Uploading, Concat;
      var i := Find(rows, fid);
      if i == |rows| || !rows[i].done || (rows[i].owner != uid && (fid, uid) !in acl) {
        if MayFetch(rows, acl, uid, fid) { FoundDone(rows, fid); }
        return [];
      }
      fs := SendFile(rows[i].data);
    }

    /** A closed connection discards what it had not finished. */
    method Close(conn: nat)
      requires Valid()
      modifies `rows
      ensures Valid() && Lasting(old(rows), rows) && rows == Closed(old(rows), conn)
      ensures forall r :: r in rows <==> r in old(rows) && (r.done || r.conn != conn)
    {
      hide Used, Uploading, RowOk;
      var i := 0;
      while i < |rows|
        invariant 0 <= i <= |rows| && Valid() && Closed(rows, conn) == Closed(old(rows), conn)
        invariant forall j :: 0 <= j < i ==> rows[j].done || rows[j].conn != conn
        invariant forall r :: r in rows ==> r in old(rows)
        invariant forall r :: r in old(rows) && (r.done || r.conn != conn) ==> r in rows
        decreases |rows| - i
      {
        if !rows[i].done && rows[i].conn == conn {
          DropOk(rows, i);
          DropIn(rows, i);
          DropClosed(rows, i, conn);
          KeptRights(rows, Drop(rows, i), acl);
          rows := Drop(rows, i);
        } else {
          i := i + 1;
        }
      }
      ClosedAll(rows, conn);
    }
  }

  lemma SetKeeps(rows: seq<Row>, i: nat, r: Row, acl: Rights)
    requires i < |rows| && !rows[i].done && RightsOk(rows, acl)
    ensures Lasting(rows, rows[i := r]) && RightsOk(rows[i := r], acl)
  {
    forall q | q in rows && q.done ensures q in rows[i := r] {
      var k :| 0 <= k < |rows| && rows[k] == q;
      assert rows[i := r][k] == q;
    }
    KeptRights(rows, rows[i := r], acl);
  }

  lemma FoundDone(rows: seq<Row>, fid: Fid)
    requires TableOk(rows) && Done(rows, fid)
    ensures Find(rows, fid) < |rows| && rows[Find(rows, fid)].done
  {
    var i :| 0 <= i < |rows| && rows[i].fid == fid && rows[i].done;
  }

  lemma DropIn(rows: seq<Row>, i: nat)
    requires i < |rows|
    ensures forall r :: r in Drop(rows, i) ==> r in rows
    ensures forall r :: r in rows && r != rows[i] ==> r in Drop(rows, i)
    ensures forall j :: 0 <= j < i ==> Drop(rows, i)[j] == rows[j]
  {
    forall r | r in rows && r != rows[i] ensures r in Drop(rows, i) {
      var k :| 0 <= k < |rows| && rows[k] == r;
      assert Drop(rows, i)[if k < i then k else k - 1] == r;
    }
  }

  // ---- downloads ----------------------------------------------------------------

  /** One frame of a download. */
  datatype Frame = Frame(idx: nat, last: bool, data: seq<Byte>)

  lemma NoPayload()
    ensures Payload([]) == []
  {
  }

  lemma PayloadMore(fs: seq<Frame>, f: Frame)
    ensures Payload(fs + [f]) == Payload(fs) + f.data
  {
    assert (fs + [f])[..|fs|] == fs;
  }

  ghost function Payload(fs: seq<Frame>): (b: seq<Byte>)
  {
    if fs == [] then [] else Payload(fs[..|fs| - 1]) + fs[|fs| - 1].data
  }

  function Upto(file: seq<Byte>, pos: nat): (b: seq<Byte>)
    requires pos <= |file|
  {
    if pos + CHUNK <= |file| then file[pos..pos + CHUNK] else file[pos..]
  }

  /** Sends a file in numbered frames: together they are the file, exactly the
      last one says so, and each fits a chunk. */
  method SendFile(file: seq<Byte>) returns (fs: seq<Frame>)
    ensures Payload(fs) == file && fs != []
    ensures forall i :: 0 <= i < |fs| ==> fs[i].idx == i && (fs[i].last <==> i == |fs| - 1)
    ensures forall i :: 0 <= i < |fs| - 1 ==> |fs[i].data| == 6144
    ensures |fs[|fs| - 1].data| <= 6144 && (file != [] ==> fs[|fs| - 1].data != [])
  {
    hide Payload;
    fs := [];
    NoPayload();
    var data := Upto(file, 0);
    var pos := |data|;
    assert data == file[..pos];
    while true
      invariant |data| <= pos <= |file| && Payload(fs) + data == file[..pos] && |data| <= CHUNK
      invariant file != [] ==> data != []
      invariant forall i :: 0 <= i < |fs| ==>
        fs[i].idx == i && !fs[i].last && |fs[i].data| == CHUNK
      invariant |data| == CHUNK || pos == |file|
      decreases |file| - pos
    {
      var nxt := Upto(file, pos);
      var f := Frame(|fs|, nxt == [], data);
      PayloadMore(fs, f);
      assert file[..pos] + nxt == file[..pos + |nxt|];
      fs := fs + [f];
      if nxt == [] {
        break;
      }
      data := nxt;
      pos := pos + |nxt|;
    }
    assert file[..pos] == file;
  }
}

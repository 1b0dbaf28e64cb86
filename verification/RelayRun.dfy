/** The server against its transition system: each method does what `Next` says, so a run
    of commands is a run of states, and everything proved about those holds. */
module RelayRun {
  import opened Common
  import opened RelayMail
  import opened RelayGroups
  import opened RelayFriends
  import opened RelayReports
  import opened RelayLocks
  import opened RelayFiles
  import opened RelayServer
  import opened RelayModel

  /** The state the server is in. */
  ghost function Shot(s: Server): State
    reads s, s.gate, s.files
  {
    State(s.users, s.restricted, s.friends, s.reqs, s.blocks, s.log, s.groups, s.gate.Table(), s.events, s.next,
      s.clock, s.files.rows, s.files.acl, s.delivered)
  }

  /** Executes one command; `receipt` is the number of a message that was
      acknowledged for the first time. */
  method Execute(s: Server, c: Command) returns (receipt: Option<nat>)
    requires s.Valid()
    modifies s, s.gate, s.files
    ensures s.Valid() && Shot(s) == Next(s.requireE2e, old(Shot(s)), c) && receipt == Receipt(old(Shot(s)), c)
  {
    hide Server.Valid, NextPeople, NextGroup, NextMail, NextRows, Shot, MessageAwaits;
    receipt := None;
    if c.Ack? {
      receipt := Acknowledge(s, c.uid, c.id);
    } else if AboutPeople(c) {
      if c.Unfriend? || c.BlockUser? || c.ReportUser? { Part(s, c); } else { Befriend(s, c); }
    } else if AboutMail(c) {
      Post(s, c);
    } else if AboutFiles(c) {
      Transfer(s, c);
    } else if c.Pass? {
      Wait(s, c.seconds);
    } else if c.Found? || c.Enter? || c.Password? {
      Admit(s, c);
    } else if c.Role? || c.HandOver? {
      Rank(s, c);
    } else {
      Depart(s, c);
    }
  }

  method Wait(s: Server, seconds: real)
    requires s.Valid()
    modifies s
    ensures s.Valid()
    ensures var a := old(Shot(s)); Shot(s) == if seconds >= 0.0 then a.(clock := a.clock + seconds) else a
  {
    hide Server.Valid;
    if seconds >= 0.0 {
      s.Tick(seconds);
    }
  }

  method Befriend(s: Server, c: Command)
    requires s.Valid() && (c.Join? || c.Ask? || c.Accept? || c.Decline?)
    modifies s
    ensures s.Valid() && Shot(s) == NextPeople(old(Shot(s)), c)
  {
    hide Server.Valid, Outgoing;
    match c
    case Join(uid) => s.Register(uid);
    case Ask(uid, other) => var _ := s.FReq(uid, other);
    case Accept(uid, other) => var _ := s.FAcc(uid, other);
    case Decline(uid, other) => s.FDec(uid, other);
  }

  method Part(s: Server, c: Command)
    requires s.Valid() && (c.Unfriend? || c.BlockUser? || c.ReportUser?)
    modifies s
    ensures s.Valid() && Shot(s) == NextPeople(old(Shot(s)), c)
  {
    hide Server.Valid, Admitted, Reporters;
    match c
    case Unfriend(uid, other) => s.FDel(uid, other);
    case BlockUser(uid, other) => s.Block(uid, other);
    case ReportUser(uid, other) => var _ := s.Report(uid, other);
  }

  method Post(s: Server, c: Command)
    requires s.Valid() && (c.Tell? || c.Say? || c.GiveKey?)
    modifies s, s.files
    ensures s.Valid() && Shot(s) == NextMail(s.requireE2e, old(Shot(s)), c)
  {
    hide Server.Valid, BacklogFull, Shaped, Body, MayAttach, FriendFile, GroupFile, FanOut, Delivers, IsMember, Remove, Count;
    hide WellWrapped, Given, Uids, Gate.Valid, Attachments.Valid;
    match c
    case Tell(uid, msgid, other, text, kind, extra) =>
      if !kind.Key? {
        var _ := s.Send(uid, msgid, other, text, kind, extra);
      }
    case Say(uid, gid, msgid, text, kind, extra) =>
      if !kind.Key? {
        var _ := s.GSay(uid, gid, msgid, text, kind, extra);
      }
    case GiveKey(_, _, _, _, _) => HandKey(s, c);
  }

  method HandKey(s: Server, c: Command)
    requires s.Valid() && c.GiveKey?
    modifies s
    ensures s.Valid() && Shot(s) == NextMail(s.requireE2e, old(Shot(s)), c)
  {
    hide Server.Valid, IsMember, Remove, Count, Removal.Hits, WellWrapped;
    var _ := s.GKey(c.uid, c.gid, c.other, c.epoch, c.wrapped);
  }

  method Acknowledge(s: Server, uid: Uid, id: nat) returns (receipt: Option<nat>)
    requires s.Valid()
    modifies s
    ensures s.Valid() && Shot(s) == NextMail(s.requireE2e, old(Shot(s)), Ack(uid, id))
    ensures receipt == Receipt(old(Shot(s)), Ack(uid, id))
  {
    hide Server.Valid, Remove;
    var r := s.Got(uid, id);
    receipt := if r.Some? then Some(id) else None;
  }

  method Admit(s: Server, c: Command)
    requires s.Valid() && (c.Found? || c.Enter? || c.Password?)
    modifies s, s.gate
    ensures s.Valid() && Shot(s) == NextGroup(old(Shot(s)), c)
  {
    hide Server.Valid, IsMember, Gate.Valid, IsShut, Strong, Tried, Chosen, GroupName, Memberships, Joined, Opened;
    match c
    case Found(uid, gid, name, pw, generated) =>
      if gid !in s.groups && gid != "" && Strong(generated) {
        var _ := s.GNew(uid, gid, name, pw, generated);
      }
    case Enter(uid, gid, pw, at) =>
      if gid in s.groups ==> at <= |s.groups[gid].members| {
        DoorsAreGroups(s);
        TriedRight(s.gate.Table(), uid, gid, Strip(pw), s.clock);
        var _ := s.GJoin(uid, gid, pw, at);
      }
    case Password(uid, gid, pw, generated) =>
      if Strong(generated) {
        var _ := s.GPass(uid, gid, pw, generated);
      }
  }

  lemma DoorsAreGroups(s: Server)
    requires s.Valid()
    ensures s.gate.doors.Keys == s.groups.Keys
  {
  }

  method Depart(s: Server, c: Command)
    requires s.Valid() && (c.Leave? || c.Kick?)
    modifies s, s.gate
    ensures s.Valid() && Shot(s) == NextGroup(old(Shot(s)), c)
  {
    hide Server.Valid, IsMember, RoleOf, AfterDrop, Closing, Remove;
    match c
    case Leave(uid, gid) => var _ := s.GLeave(uid, gid);
    case Kick(uid, gid, other) => var _ := s.GKick(uid, gid, other);
  }

  method Rank(s: Server, c: Command)
    requires s.Valid() && (c.Role? || c.HandOver?)
    modifies s
    ensures s.Valid() && Shot(s) == NextGroup(old(Shot(s)), c)
  {
    hide Server.Valid, IsMember, RoleOf, Admins, SetRole, HandedOver;
    match c
    case Role(uid, gid, other, role) => var _ := s.GRole(uid, gid, other, role);
    case HandOver(uid, gid, other) => var _ := s.GOwner(uid, gid, other);
  }

  method Transfer(s: Server, c: Command)
    requires s.Valid() && AboutFiles(c)
    modifies s.files`rows
    ensures s.Valid()
    ensures var a := old(Shot(s)); Shot(s) == a.(rows := NextRows(a.rows, c))
  {
    hide Attachments.Valid, NextRows, Gate.Valid, MailOk, Sane, GroupsOk, FewGroups, LogOk, Addressed;
    Store(s.files, c);
  }

  method Store(files: Attachments, c: Command)
    requires files.Valid() && AboutFiles(c)
    modifies files`rows
    ensures files.Valid() && files.rows == NextRows(old(files.rows), c)
  {
    hide Attachments.Valid, Used, Uploading, Lasting, Find, Drop, Closed;
    match c
    case Upload(uid, conn, size, fid) =>
      if Find(files.rows, fid) == |files.rows| {
        var _ := files.Start(uid, conn, size, fid);
      }
    case Chunk(_, conn, fid, idx, data) => var _ := files.Take(conn, fid, idx, data);
    case Complete(_, conn, fid) => var _ := files.Finish(conn, fid);
    case HangUp(_, conn) => files.Close(conn);
  }

  /** Any run of commands keeps the tables sound and goes through the states of a run of
      the transition system, beginning with the one it found and ending with the one it
      leaves; the receipts are that run's. */
  method Run(s: Server, cs: seq<Command>) returns (receipts: seq<Option<nat>>, ghost tr: seq<State>)
    requires s.Valid()
    modifies s, s.gate, s.files
    ensures s.Valid() && IsRun(s.requireE2e, tr, cs) && Posted(tr[0])
    ensures tr[0] == old(Shot(s)) && tr[|cs|] == Shot(s)
    ensures |receipts| == |cs| && forall k :: 0 <= k < |cs| ==> receipts[k] == Receipt(tr[k], cs[k])
  {
    hide Server.Valid, Next, Receipt, Posted;
    receipts, tr := [], [Shot(s)];
    ValidPosted(s);
    var k := 0;
    while k < |cs|
      invariant 0 <= k <= |cs| && s.Valid()
      invariant |tr| == k + 1 && tr[0] == old(Shot(s)) && tr[k] == Shot(s)
      invariant forall i :: 0 <= i < k ==> tr[i + 1] == Next(s.requireE2e, tr[i], cs[i])
      invariant |receipts| == k && forall i :: 0 <= i < k ==> receipts[i] == Receipt(tr[i], cs[i])
    {
      var r := Execute(s, cs[k]);
      receipts, tr := receipts + [r], tr + [Shot(s)];
      k := k + 1;
    }
  }

  lemma ValidPosted(s: Server)
    requires s.Valid()
    ensures Posted(Shot(s))
  {
  }

  /** Two users who ask each other do not become friends. */
  method CrossedRequests() returns (first: Answer, second: Answer, friends: Pairs)
    ensures first.Fine? && second.Failure? && friends == {}
  {
    hide Server.Valid, Outgoing;
    var s := new Server(false);
    s.Register("ann");
    s.Register("bob");
    NobodyAsked("ann");
    first := s.FReq("ann", "bob");
    second := s.FReq("bob", "ann");
    friends := s.friends;
  }

  lemma NobodyAsked(u: Uid)
    ensures Outgoing({}, u) == {}
  {
  }
}

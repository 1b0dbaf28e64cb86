/** The message relay as a transition system: the state every command finds, the state
    it leaves, and what that says about whole runs. Nothing comes from strangers, nothing
    is lost without reason, a message is receipted once, a file is open to nobody its owner
    has not given it to, and nobody enters a group without its password. */
module RelayModel {
  import opened Common
  import Grid
  import opened RelayMail
  import opened RelayGroups
  import opened RelayFriends
  import opened RelayReports
  import opened RelayLocks
  import opened RelayFiles
  import opened RelayServer

  /** A command with its sender, and with what the server makes up by chance: names of
      groups and files, and passwords. Time passes in between. */
  datatype Command =
    | Join(uid: Uid)
    | Ask(uid: Uid, other: Uid)
    | Accept(uid: Uid, other: Uid)
    | Decline(uid: Uid, other: Uid)
    | Unfriend(uid: Uid, other: Uid)
    | BlockUser(uid: Uid, other: Uid)
    | ReportUser(uid: Uid, other: Uid)
    | Tell(uid: Uid, msgid: string, other: Uid, text: string, kind: Kind, extra: Option<Fid>)
    | Ack(uid: Uid, id: nat)
    | Found(uid: Uid, gid: Gid, name: string, pw: string, generated: string)
    | Enter(uid: Uid, gid: Gid, pw: string, at: nat)
    | Password(uid: Uid, gid: Gid, pw: string, generated: string)
    | Leave(uid: Uid, gid: Gid)
    | Kick(uid: Uid, gid: Gid, other: Uid)
    | Role(uid: Uid, gid: Gid, other: Uid, role: nat)
    | HandOver(uid: Uid, gid: Gid, other: Uid)
    | GiveKey(uid: Uid, gid: Gid, other: Uid, epoch: string, wrapped: string)
    | Say(uid: Uid, gid: Gid, msgid: string, text: string, kind: Kind, extra: Option<Fid>)
    | Upload(uid: Uid, conn: nat, size: int, fid: Fid)
    | Chunk(uid: Uid, conn: nat, fid: Fid, idx: int, data: seq<Grid.Byte>)
    | Complete(uid: Uid, conn: nat, fid: Fid)
    | HangUp(uid: Uid, conn: nat)
    | Pass(uid: Uid, seconds: real)

  /** Everything the server keeps; `delivered` are the numbers receipts have been sent for. */
  datatype State = State(
    users: set<Uid>, restricted: set<Uid>, friends: Pairs, reqs: Pairs, blocks: Pairs, log: seq<Complaint>,
    groups: Groups, locks: Locks, events: seq<Event>, next: nat, clock: real, rows: seq<Row>, acl: Rights,
    delivered: set<nat>)

  // ---- one step -----------------------------------------------------------------------

  predicate AboutPeople(c: Command)
  {
    c.Join? || c.Ask? || c.Accept? || c.Decline? || c.Unfriend? || c.BlockUser? || c.ReportUser?
  }

  predicate AboutMail(c: Command) { c.Tell? || c.Say? || c.GiveKey? || c.Ack? }

  predicate AboutFiles(c: Command) { c.Upload? || c.Chunk? || c.Complete? || c.HangUp? }

  /** The state after a command. */
  ghost function Next(e2e: bool, a: State, c: Command): (b: State)
  {
    if AboutPeople(c) then NextPeople(a, c)
    else if AboutMail(c) then NextMail(e2e, a, c)
    else if AboutFiles(c) then a.(rows := NextRows(a.rows, c))
    else if c.Pass? then (if c.seconds >= 0.0 then a.(clock := a.clock + c.seconds) else a)
    else NextGroup(a, c)
  }

  ghost predicate MayAsk(a: State, uid: Uid, to: Uid)
  {
    && to != uid && to in a.users && (to, uid) !in a.blocks && uid !in a.restricted && (uid, to) !in a.friends
    && (to, uid) !in a.reqs && |Outgoing(a.reqs, uid)| < MAX_REQUESTS
  }

  ghost function NextPeople(a: State, c: Command): (b: State)
  {
    match c
    case Join(uid) => a.(users := a.users + {uid})
    case Ask(uid, to) => if MayAsk(a, uid, to) then a.(reqs := a.reqs + {(uid, to)}) else a
    case Accept(uid, other) =>
      if (other, uid) in a.reqs then a.(friends := a.friends + Both(uid, other), reqs := a.reqs - {(other, uid)}) else a
    case Decline(uid, other) => a.(reqs := a.reqs - {(other, uid)})
    case Unfriend(uid, other) => a.(friends := a.friends - Both(uid, other))
    case BlockUser(uid, other) =>
      a.(friends := a.friends - Both(uid, other), reqs := a.reqs - {(other, uid)}, blocks := a.blocks + {(uid, other)})
    case ReportUser(uid, other) =>
      var r := Complaint(uid, other, a.clock.Floor);
      if other in a.users && Admitted(a.log, r) then
        a.(friends := a.friends - Both(uid, other), blocks := a.blocks + {(uid, other)}, log := a.log + [r],
           restricted := a.restricted
             + if |Reporters(a.log + [r], other, r.ts - WEEK)| >= REPORT_LIMIT then {other} else {})
      else a
    case _ => a
  }

  ghost predicate In(a: State, gid: Gid, uid: Uid) { gid in a.groups && IsMember(a.groups[gid], uid) }

  ghost predicate MaySend(e2e: bool, a: State, uid: Uid, to: Uid, text: string, kind: Kind, extra: Option<Fid>)
  {
    && !kind.Key? && (uid, to) in a.friends && !BacklogFull(a.events, uid, to)
    && (kind.Deletion? || Shaped(text, 'E', e2e).Some?)
    && (kind.Message? ==> MayAttach(a.rows, uid, FriendFile(Body(e2e, kind, text, 'E'), extra)))
  }

  ghost predicate MaySay(e2e: bool, a: State, uid: Uid, gid: Gid, text: string, kind: Kind, extra: Option<Fid>)
  {
    && !kind.Key? && In(a, gid, uid) && (kind.Deletion? || Shaped(text, 'G', e2e).Some?)
    && (kind.Message? ==> MayAttach(a.rows, uid, GroupFile(Body(e2e, kind, text, 'G'), extra)))
  }

  ghost predicate MayGiveKey(a: State, uid: Uid, gid: Gid, to: Uid, epoch: string, wrapped: string)
  {
    var rest := Remove(a.events, Replaced(uid, to, gid, epoch));
    && WellWrapped(epoch, wrapped) && In(a, gid, uid) && In(a, gid, to) && to != uid
    && Count(rest, KeysFor(to)) < MAX_GKEY_WAITING && Count(rest, ForUser(to)) < MAX_BACKLOG
  }

  /** Event `id` is a one-to-one message waiting for `uid`. */
  ghost predicate MessageAwaits(es: seq<Event>, uid: Uid, id: nat)
  {
    exists e :: e in es && e.id == id && e.to == uid && e.kind.Message? && e.gid == ""
  }

  ghost function NextMail(e2e: bool, a: State, c: Command): (b: State)
  {
    match c
    case Tell(uid, msgid, to, text, kind, extra) =>
      if MaySend(e2e, a, uid, to, text, kind, extra) then
        var body := Body(e2e, kind, text, 'E');
        a.(events := a.events + [Event(a.next, uid, to, body, msgid, kind, "")], next := a.next + 1,
           acl := a.acl + if kind.Message? then Given(FriendFile(body, extra), {to}) else {})
      else a
    case Say(uid, gid, msgid, text, kind, extra) =>
      if MaySay(e2e, a, uid, gid, text, kind, extra) then
        var body, ms := Body(e2e, kind, text, 'G'), a.groups[gid].members;
        var (es, next) := FanOut(a.events, a.next, Post(uid, gid, msgid, body, kind), ms);
        a.(events := es, next := next, acl := a.acl + if kind.Message? then Given(GroupFile(body, extra), Uids(ms)) else {})
      else a
    case GiveKey(uid, gid, to, epoch, wrapped) =>
      if MayGiveKey(a, uid, gid, to, epoch, wrapped) then
        a.(events := Remove(a.events, Replaced(uid, to, gid, epoch)) + [Event(a.next, uid, to, wrapped, epoch, Key, gid)],
           next := a.next + 1)
      else a
    case Ack(uid, id) =>
      if Awaits(a.events, uid, id) then
        a.(events := Remove(a.events, ById(id)),
           delivered := a.delivered + if MessageAwaits(a.events, uid, id) then {id} else {})
      else a
    case _ => a
  }

  /** A group loses a member, with the events waiting for it. */
  ghost function Lost(a: State, gid: Gid, uid: Uid): (b: State)
  {
    a.(groups := AfterDrop(a.groups, gid, uid), locks := Closing(a.locks, a.groups, gid, uid),
       events := Remove(a.events, Leaving(uid, gid)))
  }

  ghost predicate MayKick(a: State, uid: Uid, gid: Gid, target: Uid)
  {
    && In(a, gid, uid) && In(a, gid, target) && target != uid && RoleOf(a.groups[gid], uid) >= 1
    && (a.groups[gid].owner == uid || RoleOf(a.groups[gid], target) < 1)
  }

  /** `uid` owns the group and `target` is somebody else in it. */
  ghost predicate MayRank(a: State, uid: Uid, gid: Gid, target: Uid)
  {
    In(a, gid, target) && a.groups[gid].owner == uid && target != uid
  }

  ghost predicate MayEnter(a: State, uid: Uid, gid: Gid)
  {
    && gid in a.groups && !IsMember(a.groups[gid], uid) && |a.groups[gid].members| < GROUP_MEMBERS
    && |Memberships(a.groups, uid)| < GROUPS_PER_USER
  }

  ghost function NextGroup(a: State, c: Command): (b: State)
  {
    match c
    case Found(uid, gid, name, pw, generated) =>
      if gid !in a.groups && gid != "" && Strong(generated) && GroupName(name) != ""
         && |Memberships(a.groups, uid)| < GROUPS_PER_USER && Chosen(pw, generated).Some? then
        a.(groups := a.groups[gid := Group(uid, [Member(uid, 0)])],
           locks := Opened(a.locks, gid, Door(GroupName(name), Chosen(pw, generated).value, Counter(0, 0.0, 0.0))))
      else a
    case Enter(uid, gid, pw, at) =>
      if gid in a.groups && at > |a.groups[gid].members| then a else
        var (locks, right) := Tried(a.locks, uid, gid, Strip(pw), a.clock);
        var b := a.(locks := locks);
        if right && MayEnter(a, uid, gid) then b.(groups := a.groups[gid := Joined(a.groups[gid], uid, at)]) else b
    case Password(uid, gid, pw, generated) =>
      if Strong(generated) && In(a, gid, uid) && a.groups[gid].owner == uid && Chosen(pw, generated).Some?
         && gid in a.locks.doors then
        var d := a.locks.doors[gid];
        a.(locks := Opened(a.locks, gid, d.(password := Chosen(pw, generated).value, misses := Counter(0, d.misses.start, 0.0))))
      else a
    case Leave(uid, gid) => if In(a, gid, uid) then Lost(a, gid, uid) else a
    case Kick(uid, gid, target) => if MayKick(a, uid, gid, target) then Lost(a, gid, target) else a
    case Role(uid, gid, target, role) =>
      if MayRank(a, uid, gid, target) && role <= 1 && (role == 1 ==> Admins(a.groups[gid].members) < SUB_ADMINS) then
        a.(groups := a.groups[gid := SetRole(a.groups[gid], target, role)])
      else a
    case HandOver(uid, gid, target) =>
      if MayRank(a, uid, gid, target) then a.(groups := a.groups[gid := HandedOver(a.groups[gid], target)]) else a
    case _ => a
  }

  /** The file table after a step of an upload. */
  ghost function NextRows(rows: seq<Row>, c: Command): (r: seq<Row>)
  {
    match c
    case Upload(uid, conn, size, fid) =>
      if Find(rows, fid) == |rows| && 1 <= size <= MAX_FILE && Uploading(rows, conn) < MAX_UPLOADS
         && Used(rows, uid) + size <= QUOTA then
        rows + [Row(fid, uid, size, false, conn, [], [])]
      else rows
    case Chunk(_, conn, fid, idx, data) =>
      var i := Find(rows, fid);
      if i == |rows| || rows[i].done || rows[i].conn != conn then rows
      else
        var r := rows[i];
        if idx == |r.chunks| && 1 <= |data| <= CHUNK && |r.data| + |data| <= r.size
        then rows[i := r.(chunks := r.chunks + [data], data := r.data + data)]
        else Drop(rows, i)
    case Complete(_, conn, fid) =>
      var i := Find(rows, fid);
      if i == |rows| || rows[i].done || rows[i].conn != conn then rows
      else if |rows[i].data| == rows[i].size then rows[i := rows[i].(done := true)]
      else Drop(rows, i)
    case HangUp(_, conn) => Closed(rows, conn)
    case _ => rows
  }

  // ---- what a step does ---------------------------------------------------------------

  /** The reasons for which a waiting event may go: its recipient acknowledges it, its
      recipient leaves or is rightly removed from the group, or a newer copy of the same
      key replaces it. */
  ghost predicate MayTake(a: State, c: Command, e: Event)
  {
    match c
    case Ack(uid, id) => e.to == uid && e.id == id
    case Leave(uid, gid) => In(a, gid, uid) && e.to == uid && e.gid == gid
    case Kick(uid, gid, other) => MayKick(a, uid, gid, other) && e.to == other && e.gid == gid
    case GiveKey(uid, gid, other, epoch, wrapped) =>
      MayGiveKey(a, uid, gid, other, epoch, wrapped) && Replaced(uid, other, gid, epoch).Hits(e)
    case _ => false
  }

  /** The commands that queue an event: its author's, who is a friend of the recipient or a
      member of the same group at that moment; what is queued is what the author wrote. */
  ghost predicate MayQueue(a: State, c: Command, e: Event)
  {
    e.frm == c.uid &&
    match c
    case Tell(uid, msgid, to, text, kind, _) =>
      (uid, to) in a.friends && e.to == to && e.gid == "" && e.kind == kind && e.msgid == msgid && Arrives(text, 'E', kind, e.text)
    case GiveKey(uid, gid, to, epoch, wrapped) =>
      In(a, gid, uid) && In(a, gid, to) && e.to == to && e.gid == gid && e.kind.Key? && e.msgid == epoch && e.text == wrapped
    case Say(uid, gid, msgid, text, kind, _) =>
      In(a, gid, uid) && In(a, gid, e.to) && e.to != uid && e.gid == gid && e.kind == kind && e.msgid == msgid
      && Arrives(text, 'G', kind, e.text)
    case _ => false
  }

  /** The commands that give the file `p.0` to `p.1`: a message of its owner, to that user
      or to a group the user is in, that comes with the file. */
  ghost predicate Gives(e2e: bool, a: State, c: Command, p: (Fid, Uid))
  {
    Owned(a.rows, c.uid, p.0) &&
    match c
    case Tell(uid, _, to, text, Message, extra) =>
      (uid, to) in a.friends && p.1 == to && FriendFile(Body(e2e, Message, text, 'E'), extra) == Some(p.0)
    case Say(uid, gid, _, text, Message, extra) =>
      In(a, gid, uid) && In(a, gid, p.1) && GroupFile(Body(e2e, Message, text, 'G'), extra) == Some(p.0)
    case _ => false
  }

  /** The number of the message that a command's receipt is for. */
  ghost function Receipt(a: State, c: Command): (n: Option<nat>)
  {
    if c.Ack? && MessageAwaits(a.events, c.uid, c.id) then Some(c.id) else None
  }

  /** Waiting events are numbered in order, below the next number, and none of them has
      been receipted. */
  ghost predicate Posted(a: State)
  {
    && Numbered(a.events, a.next) && (forall n :: n in a.delivered ==> n < a.next)
    && (forall e :: e in a.events ==> e.id !in a.delivered)
  }

  /** What a command does to the mailboxes: events go and come for the reasons above only,
      new ones have new numbers, and a receipt is for a message that had none. */
  ghost predicate Handled(a: State, c: Command, b: State)
  {
    && Posted(b) && a.next <= b.next
    && (forall e :: e in a.events && e !in b.events ==> MayTake(a, c, e))
    && (forall e :: e in b.events && e !in a.events ==> e.id >= a.next && MayQueue(a, c, e))
    && (forall n :: n in a.delivered ==> n in b.delivered)
    && (Receipt(a, c).Some? ==> Receipt(a, c).value !in a.delivered && Receipt(a, c).value in b.delivered)
  }

  lemma StepHandled(e2e: bool, a: State, c: Command)
    requires Posted(a)
    ensures Handled(a, c, Next(e2e, a, c))
  {
    hide Posted, Handled, NextPeople, NextGroup, NextMail, NextRows, Lost, MayKick, In;
    match c
    case Tell(_, _, _, _, _, _) => TellHandled(e2e, a, c);
    case Say(_, _, _, _, _, _) => SayHandled(e2e, a, c);
    case GiveKey(_, _, _, _, _) => KeyHandled(e2e, a, c);
    case Ack(_, _) => AckHandled(e2e, a, c);
    case Leave(_, _) => GroupMail(a, c); LostHandled(a, c);
    case Kick(_, _, _) => GroupMail(a, c); LostHandled(a, c);
    case _ => StillMail(e2e, a, c); QuietHandled(a, c, Next(e2e, a, c));
  }

  /** Other commands leave the mailboxes alone. */
  lemma StillMail(e2e: bool, a: State, c: Command)
    requires !c.Tell? && !c.Say? && !c.GiveKey? && !c.Ack? && !c.Leave? && !c.Kick?
    ensures var b := Next(e2e, a, c); b.events == a.events && b.next == a.next && b.delivered == a.delivered && b.acl == a.acl
  {
    hide NextRows, Strong, In, MayRank, MayEnter, Admitted, Tried, MayAsk;
  }

  lemma QuietHandled(a: State, c: Command, b: State)
    requires Posted(a) && b.events == a.events && b.next == a.next && b.delivered == a.delivered && !c.Ack?
    ensures Handled(a, c, b)
  {
    hide Numbered, MayTake, MayQueue, MessageAwaits;
  }

  lemma TellHandled(e2e: bool, a: State, c: Command)
    requires Posted(a) && c.Tell?
    ensures Handled(a, c, NextMail(e2e, a, c))
  {
    hide BacklogFull, MayAttach, FriendFile, Body, Shaped, Arrives, Given, Posted, Handled;
    BodyArrives(e2e, c.kind, c.text, 'E');
    var b := NextMail(e2e, a, c);
    if MaySend(e2e, a, c.uid, c.other, c.text, c.kind, c.extra) {
      AddedHandled(a, c, b, b.events[|a.events|]);
    } else {
      QuietHandled(a, c, b);
    }
  }

  lemma AddedHandled(a: State, c: Command, b: State, e: Event)
    requires Posted(a) && !c.Ack? && b.events == a.events + [e] && b.next == a.next + 1 && b.delivered == a.delivered
    requires e.id == a.next && MayQueue(a, c, e)
    ensures Handled(a, c, b)
  {
    hide Numbered, MayQueue;
    NumberedAdd(a.events, a.next, e);
  }

  lemma KeyHandled(e2e: bool, a: State, c: Command)
    requires Posted(a) && c.GiveKey?
    ensures Handled(a, c, NextMail(e2e, a, c))
  {
    hide Posted, Handled, WellWrapped, In, Remove, Count;
    var b := NextMail(e2e, a, c);
    if MayGiveKey(a, c.uid, c.gid, c.other, c.epoch, c.wrapped) {
      var d := Replaced(c.uid, c.other, c.gid, c.epoch);
      ReplacedHandled(a, c, b, d, Event(a.next, c.uid, c.other, c.wrapped, c.epoch, Key, c.gid));
    } else {
      QuietHandled(a, c, b);
    }
  }

  lemma ReplacedHandled(a: State, c: Command, b: State, d: Removal, e: Event)
    requires Posted(a) && !c.Ack? && b.events == Remove(a.events, d) + [e] && b.next == a.next + 1 && b.delivered == a.delivered
    requires e.id == a.next && MayQueue(a, c, e)
    requires forall e :: e in a.events && d.Hits(e) ==> MayTake(a, c, e)
    ensures Handled(a, c, b)
  {
    hide Remove, Numbered, MayTake, MayQueue, Removal.Hits;
    RemoveExactly(a.events, d);
    NumberedRemove(a.events, a.next, d);
    NumberedAdd(Remove(a.events, d), a.next, e);
  }

  lemma SayHandled(e2e: bool, a: State, c: Command)
    requires Posted(a) && c.Say?
    ensures Handled(a, c, NextMail(e2e, a, c))
  {
    hide MayAttach, GroupFile, Body, Shaped, Arrives, Given, FanOut, Uids, IsMember;
    BodyArrives(e2e, c.kind, c.text, 'G');
    if MaySay(e2e, a, c.uid, c.gid, c.text, c.kind, c.extra) {
      var g, p := a.groups[c.gid], Post(c.uid, c.gid, c.msgid, Body(e2e, c.kind, c.text, 'G'), c.kind);
      FanOutAdds(a.events, a.next, p, g.members);
      MembersIn(g);
    }
  }

  lemma MembersIn(g: Group)
    ensures forall k :: 0 <= k < |g.members| ==> IsMember(g, g.members[k].uid)
  {
  }

  lemma AckHandled(e2e: bool, a: State, c: Command)
    requires Posted(a) && c.Ack?
    ensures Handled(a, c, NextMail(e2e, a, c))
  {
    hide Remove, Numbered;
    if Awaits(a.events, c.uid, c.id) {
      RemoveExactly(a.events, ById(c.id));
      NumberedRemove(a.events, a.next, ById(c.id));
      OneEach(a.events, a.next, c.uid, c.id);
    } else {
      QuietHandledAck(a, c);
    }
  }

  lemma QuietHandledAck(a: State, c: Command)
    requires Posted(a) && c.Ack? && !Awaits(a.events, c.uid, c.id)
    ensures Handled(a, c, a)
  {
    hide Numbered;
  }

  /** The number that is acknowledged is one event's, and it is still below the next. */
  lemma OneEach(es: seq<Event>, next: nat, uid: Uid, id: nat)
    requires Numbered(es, next) && Awaits(es, uid, id)
    ensures id < next && forall e :: e in es && e.id == id ==> e.to == uid
  {
  }

  lemma GroupMail(a: State, c: Command)
    requires c.Leave? || c.Kick?
    ensures var who := if c.Leave? then c.uid else c.other;
      var ok := if c.Leave? then In(a, c.gid, c.uid) else MayKick(a, c.uid, c.gid, c.other);
      NextGroup(a, c) == if ok then Lost(a, c.gid, who) else a
  {
  }

  lemma LostHandled(a: State, c: Command)
    requires Posted(a) && (c.Leave? || c.Kick?)
    ensures Handled(a, c, NextGroup(a, c))
  {
    hide Posted, Handled, Remove, In, MayKick, AfterDrop, Closing;
    GroupMail(a, c);
    var b, d := NextGroup(a, c), Leaving(if c.Leave? then c.uid else c.other, c.gid);
    if (c.Leave? && In(a, c.gid, c.uid)) || (c.Kick? && MayKick(a, c.uid, c.gid, c.other)) {
      RemovedHandled(a, c, b, d);
    } else {
      QuietHandled(a, c, b);
    }
  }

  lemma RemovedHandled(a: State, c: Command, b: State, d: Removal)
    requires Posted(a) && !c.Ack? && b.events == Remove(a.events, d) && b.next == a.next && b.delivered == a.delivered
    requires forall e :: e in a.events && d.Hits(e) ==> MayTake(a, c, e)
    ensures Handled(a, c, b)
  {
    hide Remove, Numbered, MayTake, MayQueue, Removal.Hits;
    RemoveExactly(a.events, d);
    NumberedRemove(a.events, a.next, d);
  }

  /** Rights are given by owners' messages only. */
  lemma StepGives(e2e: bool, a: State, c: Command)
    ensures forall p :: p in Next(e2e, a, c).acl && p !in a.acl ==> Gives(e2e, a, c, p)
  {
    hide NextPeople, NextGroup, NextRows, Owned, FriendFile, GroupFile, FanOut, Body, Shaped, BacklogFull, IsMember, Remove, Count;
    match c
    case Tell(_, _, to, text, kind, extra) => GivenWhom(FriendFile(Body(e2e, kind, text, 'E'), extra), {to});
    case Say(_, gid, _, text, kind, extra) =>
      if gid in a.groups {
        var g := a.groups[gid];
        GivenWhom(GroupFile(Body(e2e, kind, text, 'G'), extra), Uids(g.members));
        MembersIn(g);
      }
    case Ack(_, _) =>
    case GiveKey(_, _, _, _, _) =>
    case Leave(_, _) => GroupMail(a, c);
    case Kick(_, _, _) => GroupMail(a, c);
    case _ => StillMail(e2e, a, c);
  }

  lemma GivenWhom(fid: Option<Fid>, to: set<Uid>)
    ensures forall p :: p in Given(fid, to) ==> fid == Some(p.0) && p.1 in to
  {
  }

  // ---- whole runs ---------------------------------------------------------------------

  /** The states before the first command and after each one. */
  ghost predicate IsRun(e2e: bool, tr: seq<State>, cs: seq<Command>)
  {
    |tr| == |cs| + 1 && forall k :: 0 <= k < |cs| ==> tr[k + 1] == Next(e2e, tr[k], cs[k])
  }

  lemma {:induction false} RunPosted(e2e: bool, tr: seq<State>, cs: seq<Command>, k: nat)
    requires IsRun(e2e, tr, cs) && Posted(tr[0]) && k < |tr|
    ensures Posted(tr[k])
  {
    hide Posted, Next;
    if k > 0 {
      RunPosted(e2e, tr, cs, k - 1);
      StepHandled(e2e, tr[k - 1], cs[k - 1]);
    }
  }

  lemma RunStep(e2e: bool, tr: seq<State>, cs: seq<Command>, k: nat)
    requires IsRun(e2e, tr, cs) && Posted(tr[0]) && k < |cs|
    ensures Handled(tr[k], cs[k], tr[k + 1])
  {
    hide Posted, Next, Handled;
    RunPosted(e2e, tr, cs, k);
    StepHandled(e2e, tr[k], cs[k]);
  }

  /** Nothing is lost: an event that waits after `j` commands and no longer after `k` was
      taken in between, for one of the reasons the protocol names. */
  lemma {:induction false} NothingLost(e2e: bool, tr: seq<State>, cs: seq<Command>, j: nat, k: nat, e: Event)
    requires IsRun(e2e, tr, cs) && Posted(tr[0]) && j <= k < |tr| && e in tr[j].events && e !in tr[k].events
    ensures exists i :: j <= i < k && e in tr[i].events && MayTake(tr[i], cs[i], e)
    decreases k - j
  {
    hide Posted, Next, MayTake, MayQueue;
    RunStep(e2e, tr, cs, j);
    if e in tr[j + 1].events { NothingLost(e2e, tr, cs, j + 1, k, e); }
  }

  /** Nothing comes from strangers: an event that waits after `k` commands and did not
      after `j` was queued in between by its author, who was a friend of its recipient or
      in the same group at that moment. */
  lemma {:induction false} NoStrangers(e2e: bool, tr: seq<State>, cs: seq<Command>, j: nat, k: nat, e: Event)
    requires IsRun(e2e, tr, cs) && Posted(tr[0]) && j <= k < |tr| && e !in tr[j].events && e in tr[k].events
    ensures exists i :: j <= i < k && MayQueue(tr[i], cs[i], e)
    decreases k - j
  {
    hide Posted, Next, MayTake, MayQueue;
    RunStep(e2e, tr, cs, j);
    if e !in tr[j + 1].events { NoStrangers(e2e, tr, cs, j + 1, k, e); }
  }

  /** No message is receipted twice. */
  lemma ReceiptOnce(e2e: bool, tr: seq<State>, cs: seq<Command>, i: nat, k: nat)
    requires IsRun(e2e, tr, cs) && Posted(tr[0]) && i < k < |cs| && Receipt(tr[i], cs[i]).Some?
    ensures Receipt(tr[k], cs[k]) != Receipt(tr[i], cs[i])
  {
    hide Posted, Next, MayTake, MayQueue, Receipt;
    RunStep(e2e, tr, cs, i);
    RunStep(e2e, tr, cs, k);
    StaysDelivered(e2e, tr, cs, i + 1, k, Receipt(tr[i], cs[i]).value);
  }

  lemma {:induction false} StaysDelivered(e2e: bool, tr: seq<State>, cs: seq<Command>, j: nat, k: nat, n: nat)
    requires IsRun(e2e, tr, cs) && Posted(tr[0]) && j <= k < |tr| && n in tr[j].delivered
    ensures n in tr[k].delivered
    decreases k
  {
    hide Posted, Next, MayTake, MayQueue, Receipt;
    if j < k {
      StaysDelivered(e2e, tr, cs, j, k - 1, n);
      RunStep(e2e, tr, cs, k - 1);
    }
  }

  /** Whoever may have a file was given it by its owner, as a friend of the owner's or a
      member of the same group at that moment. */
  lemma {:induction false} FilesAreGiven(e2e: bool, tr: seq<State>, cs: seq<Command>, j: nat, k: nat, p: (Fid, Uid))
    requires IsRun(e2e, tr, cs) && j <= k < |tr| && p !in tr[j].acl && p in tr[k].acl
    ensures exists i :: j <= i < k && Gives(e2e, tr[i], cs[i], p)
    decreases k - j
  {
    hide Next, Gives;
    StepGives(e2e, tr[j], cs[j]);
    if p !in tr[j + 1].acl { FilesAreGiven(e2e, tr, cs, j + 1, k, p); }
  }

  // ---- consent and admission ------------------------------------------------------------

  lemma StepFriends(e2e: bool, a: State, c: Command)
    ensures forall p :: p in Next(e2e, a, c).friends && p !in a.friends ==>
      c.Accept? && p in Both(c.uid, c.other) && (c.other, c.uid) in a.reqs
    ensures forall p :: p in Next(e2e, a, c).reqs && p !in a.reqs ==> c == Ask(p.0, p.1)
  {
    hide NextRows, MaySend, MaySay, MayGiveKey, Strong, In, MayRank, MayKick, MayEnter, Admitted, Tried, Awaits, FanOut, Lost;
    if c.Leave? || c.Kick? { LostPeople(a, c.gid, if c.Leave? then c.uid else c.other); }
  }

  lemma LostPeople(a: State, gid: Gid, uid: Uid)
    ensures Lost(a, gid, uid).friends == a.friends && Lost(a, gid, uid).reqs == a.reqs
  {
  }

  lemma {:induction false} Asked(e2e: bool, tr: seq<State>, cs: seq<Command>, k: nat, p: (Uid, Uid))
    requires IsRun(e2e, tr, cs) && k < |tr| && tr[0].reqs == {} && p in tr[k].reqs
    ensures exists i :: 0 <= i < k && cs[i] == Ask(p.0, p.1)
  {
    hide Next;
    if k > 0 {
      StepFriends(e2e, tr[k - 1], cs[k - 1]);
      if p in tr[k - 1].reqs { Asked(e2e, tr, cs, k - 1, p); }
    }
  }

  /** One of the two has asked, and the other has accepted afterwards. */
  ghost predicate Agreed(cs: seq<Command>, k: nat, u: Uid, v: Uid)
    requires k <= |cs|
  {
    exists i, j :: 0 <= i < j < k && cs[i] == Ask(u, v) && cs[j] == Accept(v, u)
  }

  /** Nobody becomes a friend without both sides' will. */
  lemma {:induction false} Consent(e2e: bool, tr: seq<State>, cs: seq<Command>, k: nat, u: Uid, v: Uid)
    requires IsRun(e2e, tr, cs) && k < |tr| && tr[0].reqs == {} && (u, v) !in tr[0].friends && (u, v) in tr[k].friends
    ensures Agreed(cs, k, u, v) || Agreed(cs, k, v, u)
  {
    hide Next;
    if (u, v) in tr[k - 1].friends {
      Consent(e2e, tr, cs, k - 1, u, v);
    } else {
      StepFriends(e2e, tr[k - 1], cs[k - 1]);
      var c := cs[k - 1];
      Asked(e2e, tr, cs, k - 1, (c.other, c.uid));
    }
  }

  /** The commands that make somebody a member: founding the group, or entering it with
      its password while no lock is closed. */
  ghost predicate Admits(a: State, c: Command, gid: Gid, uid: Uid)
  {
    c.uid == uid &&
    match c
    case Found(_, g, _, _, _) => g == gid && gid !in a.groups
    case Enter(_, g, pw, _) =>
      g == gid && gid in a.locks.doors && a.locks.doors[gid].password == Strip(pw) && !IsShut(a.locks, uid, gid, a.clock)
    case _ => false
  }

  lemma StepMembers(e2e: bool, a: State, c: Command, gid: Gid, uid: Uid)
    requires In(Next(e2e, a, c), gid, uid) && !In(a, gid, uid)
    ensures Admits(a, c, gid, uid)
  {
    hide NextPeople, NextMail, NextRows, Strong, Index, Strip, IsShut, AfterDrop, SetRole, HandedOver, Remove, Tried, IsMember, Admins;
    hide RoleOf, Memberships, GroupName, Chosen;
    match c
    case Found(u, g, _, _, _) => OnlyFounder(u, uid);
    case Enter(u, g, pw, at) =>
      TriedRight(a.locks, u, g, Strip(pw), a.clock);
      if g in a.groups && at <= |a.groups[g].members| { JoinedOnly(a.groups[g], u, at, uid); }
    case Role(_, g, target, role) => if g in a.groups { SameMembers(a.groups[g], target, role, uid); }
    case HandOver(_, g, target) => if g in a.groups { SameMembers(a.groups[g], target, 0, uid); }
    case Leave(u, g) => GroupMail(a, c); DropAddsNone(a.groups, g, u, gid, uid);
    case Kick(_, g, target) => GroupMail(a, c); DropAddsNone(a.groups, g, target, gid, uid);
    case _ => StillGroups(e2e, a, c);
  }

  lemma StillGroups(e2e: bool, a: State, c: Command)
    requires !c.Found? && !c.Enter? && !c.Role? && !c.HandOver? && !c.Leave? && !c.Kick?
    ensures Next(e2e, a, c).groups == a.groups
  {
    hide NextRows, MaySend, MaySay, MayGiveKey, MayAsk, Strong, Admitted, Awaits, FanOut, IsMember;
  }

  lemma OnlyFounder(u: Uid, v: Uid)
    ensures IsMember(Group(u, [Member(u, 0)]), v) ==> v == u
  {
  }

  lemma JoinedOnly(g: Group, u: Uid, at: nat, v: Uid)
    requires at <= |g.members|
    ensures IsMember(Joined(g, u, at), v) <==> IsMember(g, v) || v == u
  {
    InsertedMembers(g.members, Member(u, 0), at, v);
  }

  lemma TriedRight(l: Locks, uid: Uid, gid: Gid, pw: string, now: real)
    ensures Tried(l, uid, gid, pw, now).1 <==> gid in l.doors && l.doors[gid].password == pw && !IsShut(l, uid, gid, now)
  {
  }

  lemma SameMembers(g: Group, u: Uid, role: nat, v: Uid)
    ensures IsMember(SetRole(g, u, role), v) <==> IsMember(g, v)
    ensures IsMember(HandedOver(g, u), v) <==> IsMember(g, v)
  {
    RoleKeeps(g.members, u, role);
    RoleKeeps(g.members, u, 0);
    RoleKeeps(WithRole(g.members, u, 0), g.owner, 1);
  }

  lemma DropAddsNone(gs: Groups, g: Gid, u: Uid, gid: Gid, v: Uid)
    requires var gs' := AfterDrop(gs, g, u); gid in gs' && IsMember(gs'[gid], v)
    ensures gid in gs && IsMember(gs[gid], v)
  {
    hide Index, Without, WithRole, Heir;
    if gid == g && g in gs {
      var rest := Without(gs[g].members, u);
      if rest != [] {
        WithoutOnly(gs[g].members, u, v);
        RoleKeeps(rest, Heir(rest), 0);
      }
    }
  }

  lemma WithoutOnly(ms: seq<Member>, u: Uid, v: Uid)
    ensures Index(Without(ms, u), v) < |Without(ms, u)| ==> Index(ms, v) < |ms|
  {
    hide Index;
    var rest := Without(ms, u);
    var j := Index(rest, v);
    if Index(ms, u) < |ms| && j < |rest| { assert ms[if j < Index(ms, u) then j else j + 1].uid == v; }
  }

  /** Nobody is in a group without having founded it or given its password. */
  lemma {:induction false} Admission(e2e: bool, tr: seq<State>, cs: seq<Command>, j: nat, k: nat, gid: Gid, uid: Uid)
    requires IsRun(e2e, tr, cs) && j <= k < |tr| && !In(tr[j], gid, uid) && In(tr[k], gid, uid)
    ensures exists i :: j <= i < k && Admits(tr[i], cs[i], gid, uid)
    decreases k - j
  {
    hide Next, In, Admits;
    if In(tr[j + 1], gid, uid) {
      StepMembers(e2e, tr[j], cs[j], gid, uid);
    } else {
      Admission(e2e, tr, cs, j + 1, k, gid, uid);
    }
  }
}

/** The message relay as a state machine: every command is one step on the
    tables, and every step keeps their invariants. */
module RelayServer {
  import opened Common
  import opened RelayMail
  import opened RelayGroups
  import opened RelayFriends
  import opened RelayReports
  import opened RelayLocks
  import opened RelayFiles

  const MAX_TEXT := 600
  const MAX_E2E := 3200

  predicate Envelope(text: string, mark: char)
  {
    |text| >= 2 && text[0] == '\U{0001}' && text[1] == mark
  }

  /** A text as it is queued: envelopes marked `mark` pass whole up to their limit,
      plain texts are cut, or refused when encryption is required. */
  function Shaped(text: string, mark: char, requireE2e: bool): (r: Option<string>)
    ensures r.Some? ==> |r.value| <= MAX_E2E
  {
    if Envelope(text, mark) then (if |text| > MAX_E2E then None else Some(text))
    else if requireE2e then None
    else Some(if |text| > MAX_TEXT then text[..MAX_TEXT] else text)
  }

  /** The text a message, an edit or a deletion is queued with. */
  ghost function Body(requireE2e: bool, kind: Kind, text: string, mark: char): (body: string)
  {
    if kind.Deletion? then "" else
      var s := Shaped(text, mark, requireE2e);
      if s.Some? then s.value else ""
  }

  /** What arrives of a text: nothing for a deletion; a text of at most 600 characters, or
      an encrypted one of at most 3200, whole; of a longer plain text the first 600. */
  ghost predicate Arrives(text: string, mark: char, kind: Kind, body: string)
  {
    if kind.Deletion? then body == ""
    else if |text| <= 600 then body == text
    else if text[0] == '\U{0001}' && text[1] == mark then body == text && |text| <= 3200
    else body == text[..600]
  }

  lemma BodyArrives(requireE2e: bool, kind: Kind, text: string, mark: char)
    ensures Shaped(text, mark, requireE2e).Some? <==>
      if |text| >= 2 && text[0] == '\U{0001}' && text[1] == mark then |text| <= 3200 else !requireE2e
    ensures kind.Deletion? || Shaped(text, mark, requireE2e).Some? ==> Arrives(text, mark, kind, Body(requireE2e, kind, text, mark))
  {
  }

  /** A group key as it may be handed over: an envelope of bounded size, with a short
      epoch. */
  ghost predicate WellWrapped(epoch: string, wrapped: string)
  {
    Envelope(wrapped, 'E') && |wrapped| <= MAX_E2E && |epoch| <= 12
  }

  /** The file that comes with a message to a friend: an envelope names it beside, a plain
      text announces it; a plain text that announces none is sent without. */
  ghost function FriendFile(body: string, extra: Option<Fid>): (fid: Option<Fid>)
  {
    var f := if Envelope(body, 'E') && extra.Some? then extra.value else Announced(body);
    if f == "" then None else Some(f)
  }

  /** The file that comes with a message to a group: here a plain text that begins like an
      announcement must be one. */
  ghost function GroupFile(body: string, extra: Option<Fid>): (fid: Option<Fid>)
  {
    if Envelope(body, 'G') then (if extra == Some("") then None else extra)
    else if Announcing(body) then Some(Announced(body))
    else None
  }

  /** A file may go along: there is none, or it is the sender's own and complete. */
  ghost predicate MayAttach(rows: seq<Row>, uid: Uid, fid: Option<Fid>)
  {
    fid.Some? ==> Owned(rows, uid, fid.value)
  }

  ghost function Given(fid: Option<Fid>, to: set<Uid>): (r: Rights)
  {
    if fid.None? then {} else set u | u in to :: (fid.value, u)
  }

  ghost function Uids(ms: seq<Member>): (us: set<Uid>)
  {
    set m | m in ms :: m.uid
  }

  // ---- group fan-out --------------------------------------------------------------

  /** What a group post carries, apart from its recipient. */
  datatype Post = Post(frm: Uid, gid: Gid, msgid: string, text: string, kind: Kind)

  ghost function Addressing(p: Post, id: nat, to: Uid): Event
  {
    Event(id, p.frm, to, p.text, p.msgid, p.kind, p.gid)
  }

  /** The table after a post has been queued for the members listed: not for its
      author, and not for members whose mailbox is full. */
  ghost function FanOut(es: seq<Event>, next: nat, p: Post, ms: seq<Member>): (r: (seq<Event>, nat))
    decreases |ms|
  {
    if ms == [] then (es, next)
    else if ms[0].uid == p.frm || BacklogFull(es, p.frm, ms[0].uid) then FanOut(es, next, p, ms[1..])
    else FanOut(es + [Addressing(p, next, ms[0].uid)], next + 1, p, ms[1..])
  }

  /** A post only appends, with new numbers, and for members other than the author. */
  lemma {:induction false} FanOutAdds(es: seq<Event>, next: nat, p: Post, ms: seq<Member>)
    requires Numbered(es, next)
    ensures var (es', next') := FanOut(es, next, p, ms);
      && es <= es' && next <= next' && Numbered(es', next')
      && (forall i :: |es| <= i < |es'| ==>
            && es'[i].id >= next && es'[i] == Addressing(p, es'[i].id, es'[i].to) && es'[i].to != p.frm
            && exists k :: 0 <= k < |ms| && ms[k].uid == es'[i].to)
    decreases |ms|
  {
    hide BacklogFull;
    if ms != [] {
      var es', rest := FanOut(es, next, p, ms).0, ms[1..];
      if ms[0].uid == p.frm || BacklogFull(es, p.frm, ms[0].uid) {
        FanOutAdds(es, next, p, rest);
      } else {
        NumberedAdd(es, next, Addressing(p, next, ms[0].uid));
        FanOutAdds(es + [Addressing(p, next, ms[0].uid)], next + 1, p, rest);
      }
      forall i | |es| <= i < |es'| ensures exists k :: 0 <= k < |ms| && ms[k].uid == es'[i].to {
        if es'[i].to != ms[0].uid {
          var k :| 0 <= k < |rest| && rest[k].uid == es'[i].to;
          assert ms[k + 1].uid == es'[i].to;
        }
      }
    }
  }

  /** And it keeps the bounds. */
  lemma {:induction false} FanOutOk(es: seq<Event>, next: nat, p: Post, ms: seq<Member>)
    requires Bounded(es) && !p.kind.Key?
    ensures Bounded(FanOut(es, next, p, ms).0)
    decreases |ms|
  {
    hide Bounded, BacklogFull;
    if ms != [] {
      if ms[0].uid == p.frm || BacklogFull(es, p.frm, ms[0].uid) {
        FanOutOk(es, next, p, ms[1..]);
      } else {
        var e := Addressing(p, next, ms[0].uid);
        BoundedSend(es, e);
        FanOutOk(es + [e], next + 1, p, ms[1..]);
      }
    }
  }

  /** A post is due to `u`, judged by the table before it. */
  ghost predicate Due(es: seq<Event>, p: Post, u: Uid)
  {
    u != p.frm && !BacklogFull(es, p.frm, u)
  }

  /** The events from `es` on to `es'` deliver the post exactly once to every member it
      is due to, and to nobody else. */
  ghost predicate Delivers(es: seq<Event>, es': seq<Event>, p: Post, ms: seq<Member>)
  {
    && es <= es'
    && (forall i :: |es| <= i < |es'| ==> es'[i] == Addressing(p, es'[i].id, es'[i].to))
    && forall u :: Count(es'[|es|..], ForUser(u)) == if Index(ms, u) < |ms| && Due(es, p, u) then 1 else 0
  }

  /** An event for somebody else changes no count of `u`'s mailbox. */
  lemma DueStays(es: seq<Event>, e: Event, p: Post, u: Uid)
    requires e.to != u
    ensures Due(es + [e], p, u) == Due(es, p, u)
  {
    hide Count;
    CountAdd(es, e, ForUser(u));
    CountAdd(es, e, Between(p.frm, u));
  }

  /** Every member is listed once, so what is appended for one does not fill the mailbox
      of another, and each delivery can be judged by the table before the post. */
  lemma {:induction false} FanOutDelivers(es: seq<Event>, next: nat, p: Post, ms: seq<Member>)
    requires Distinct(ms)
    ensures Delivers(es, FanOut(es, next, p, ms).0, p, ms)
    decreases |ms|
  {
    hide Due, Delivers, Count, BacklogFull, Index;
    if ms == [] {
      DeliversNone(es, p);
    } else {
      var u, rest := ms[0].uid, ms[1..];
      DueIs(es, p, u);
      if Due(es, p, u) {
        var e := Addressing(p, next, u);
        FanOutDelivers(es + [e], next + 1, p, rest);
        DeliversOne(es, e, FanOut(es, next, p, ms).0, p, ms);
      } else {
        FanOutDelivers(es, next, p, rest);
        DeliversSkip(es, FanOut(es, next, p, ms).0, p, ms);
      }
    }
  }

  lemma DueIs(es: seq<Event>, p: Post, u: Uid)
    ensures Due(es, p, u) <==> u != p.frm && !BacklogFull(es, p.frm, u)
  {
  }

  lemma DeliversNone(es: seq<Event>, p: Post)
    ensures Delivers(es, es, p, [])
  {
    assert es[|es|..] == [];
  }

  lemma DeliversOne(es: seq<Event>, e: Event, es': seq<Event>, p: Post, ms: seq<Member>)
    requires ms != [] && Distinct(ms) && e == Addressing(p, e.id, ms[0].uid) && Due(es, p, ms[0].uid)
    requires Delivers(es + [e], es', p, ms[1..])
    ensures Delivers(es, es', p, ms)
  {
    hide Due, Count, Index;
    var added := es'[|es|..];
    assert added == [e] + es'[|es| + 1..] && es' == es + added;
    forall u ensures Count(added, ForUser(u)) == if Index(ms, u) < |ms| && Due(es, p, u) then 1 else 0 {
      CountConcat([e], es'[|es| + 1..], ForUser(u));
      CountAdd([], e, ForUser(u));
      assert [] + [e] == [e] && Count([], ForUser(u)) == 0 by { CountNone(ForUser(u)); }
      ListedStep(ms, u);
      if u != e.to { DueStays(es, e, p, u); }
    }
  }

  lemma DeliversSkip(es: seq<Event>, es': seq<Event>, p: Post, ms: seq<Member>)
    requires ms != [] && !Due(es, p, ms[0].uid) && Delivers(es, es', p, ms[1..])
    ensures Delivers(es, es', p, ms)
  {
    hide Due, Count, Index;
    forall u ensures Count(es'[|es|..], ForUser(u)) == if Index(ms, u) < |ms| && Due(es, p, u) then 1 else 0 {
      ListedStep(ms, u);
    }
  }

  lemma CountNone(q: Query)
    ensures Count([], q) == 0
  {
  }

  lemma ListedStep(ms: seq<Member>, u: Uid)
    requires ms != []
    ensures Index(ms, u) < |ms| <==> u == ms[0].uid || Index(ms[1..], u) < |ms| - 1
    ensures Distinct(ms) ==> Index(ms[1..], ms[0].uid) == |ms| - 1
  {
  }

  // ---- the mail part of the invariant ----------------------------------------------

  /** Waiting events are bounded and numbered; a number once acknowledged never
      waits again. */
  ghost predicate MailOk(es: seq<Event>, next: nat, delivered: set<nat>)
  {
    && Bounded(es) && Numbered(es, next)
    && (forall i :: i in delivered ==> i < next)
    && (forall e :: e in es ==> e.id !in delivered)
  }

  lemma MailRemove(es: seq<Event>, next: nat, delivered: set<nat>, gs: Groups, d: Removal)
    requires MailOk(es, next, delivered) && Addressed(gs, es)
    ensures MailOk(Remove(es, d), next, delivered) && Addressed(gs, Remove(es, d))
    ensures forall e :: e in Remove(es, d) <==> e in es && !d.Hits(e)
  {
    hide Bounded, Numbered, Removal.Hits;
    BoundedRemove(es, d);
    NumberedRemove(es, next, d);
    RemoveExactly(es, d);
  }

  lemma MailSend(es: seq<Event>, next: nat, delivered: set<nat>, gs: Groups, e: Event)
    requires MailOk(es, next, delivered) && Addressed(gs, es) && e.id == next
    requires if e.kind.Key? then Count(es, KeysFor(e.to)) < MAX_GKEY_WAITING && Count(es, ForUser(e.to)) < MAX_BACKLOG
             else !BacklogFull(es, e.frm, e.to)
    requires e.gid == "" || (e.gid in gs && IsMember(gs[e.gid], e.to))
    ensures MailOk(es + [e], next + 1, delivered) && Addressed(gs, es + [e])
  {
    hide Bounded, BacklogFull, Count;
    if e.kind.Key? { BoundedKey(es, e); } else { BoundedSend(es, e); }
    NumberedAdd(es, next, e);
  }

  lemma MailFanOut(es: seq<Event>, next: nat, delivered: set<nat>, gs: Groups, p: Post)
    requires MailOk(es, next, delivered) && Addressed(gs, es) && GroupsOk(gs) && !p.kind.Key? && p.gid in gs
    ensures var (es', next') := FanOut(es, next, p, gs[p.gid].members);
      MailOk(es', next', delivered) && Addressed(gs, es') && es <= es'
  {
    hide Bounded, Numbered, IsMember, FanOut, GroupOk;
    var ms := gs[p.gid].members;
    FanOutAdds(es, next, p, ms);
    FanOutOk(es, next, p, ms);
    var (es', next') := FanOut(es, next, p, ms);
    forall e | e in es' ensures e.id !in delivered && (e.gid != "" ==> e.gid in gs && IsMember(gs[e.gid], e.to)) {
      var i :| 0 <= i < |es'| && es'[i] == e;
      if i < |es| {
        assert es[i] == e;
      } else {
        var k :| 0 <= k < |ms| && ms[k].uid == e.to;
        MemberAt(gs[p.gid], k);
      }
    }
  }

  lemma MemberAt(g: Group, k: nat)
    requires k < |g.members|
    ensures IsMember(g, g.members[k].uid)
  {
  }

  /** A group with the same members keeps every event addressed. */
  lemma Regrouped(gs: Groups, g: Gid, grp: Group, es: seq<Event>)
    requires GroupsOk(gs) && FewGroups(gs) && Addressed(gs, es) && g in gs && GroupOk(grp)
    requires forall v :: IsMember(grp, v) <==> IsMember(gs[g], v)
    ensures GroupsOk(gs[g := grp]) && FewGroups(gs[g := grp]) && Addressed(gs[g := grp], es)
  {
    hide IsMember, GroupOk, FewGroups;
    FewerMembers(gs, gs[g := grp]);
  }

  /** The groups after a member has gone, the last one with its group. */
  ghost function AfterDrop(gs: Groups, gid: Gid, uid: Uid): (gs': Groups)
  {
    if gid !in gs then gs
    else if Without(gs[gid].members, uid) == [] then gs - {gid}
    else gs[gid := Dropped(gs[gid], uid)]
  }

  /** The door goes with its group. */
  ghost function Closing(l: Locks, gs: Groups, gid: Gid, uid: Uid): (l': Locks)
  {
    if gid in gs && Without(gs[gid].members, uid) == [] then l.(doors := l.doors - {gid}) else l
  }

  ghost function Opened(l: Locks, gid: Gid, d: Door): Locks { l.(doors := l.doors[gid := d]) }

  /** Event `id` waits for `uid`. */
  ghost predicate Awaits(es: seq<Event>, uid: Uid, id: nat)
  {
    exists e :: e in es && e.id == id && e.to == uid
  }

  /** How a command ends: done, refused, or in an exception that closes the connection. */
  datatype Answer = Fine | Refused | Failure

  lemma OutgoingIs(reqs: Pairs, u: Uid)
    ensures Outgoing(reqs, u) == set p | p in reqs && p.0 == u
  {
  }

  lemma FullIs(es: seq<Event>, f: Uid, u: Uid)
    ensures BacklogFull(es, f, u) <==> Count(es, ForUser(u)) >= MAX_BACKLOG || Count(es, Between(f, u)) >= MAX_BACKLOG_PAIR
  {
  }

  lemma FriendFileIs(body: string, extra: Option<Fid>)
    ensures var f := if Envelope(body, 'E') && extra.Some? then extra.value else Announced(body);
      FriendFile(body, extra) == if f == "" then None else Some(f)
  {
  }

  lemma GroupFileIs(body: string, extra: Option<Fid>)
    ensures GroupFile(body, extra) ==
      if Envelope(body, 'G') then (if extra == Some("") then None else extra)
      else if Announcing(body) then Some(Announced(body)) else None
  {
  }

  lemma GroupNameIs(name: string, pw: string, generated: string)
    requires Strong(generated)
    ensures GroupName(name) == var n := Strip(name); if |n| > MAX_GNAME then n[..MAX_GNAME] else n
    ensures Chosen(pw, generated) ==
      var p := Strip(pw); if p == "" then Some(generated) else if Strong(p) then Some(p) else None
  {
  }

  lemma MembershipsAre(gs: Groups, u: Uid)
    ensures Memberships(gs, u) == set g | g in gs && IsMember(gs[g], u)
  {
  }

  lemma UidsAre(ms: seq<Member>)
    ensures Uids(ms) == set m | m in ms :: m.uid
  {
  }

  lemma ReportersAre(log: seq<Complaint>, target: Uid, now: int)
    ensures Reporters(log, target, now - WEEK) == set r | r in log && r.target == target && r.ts > now - WEEK :: r.reporter
  {
  }

  class Server {
    const requireE2e: bool
    var users: set<Uid>
    var restricted: set<Uid>
    var friends: Pairs
    var reqs: Pairs
    var blocks: Pairs
    var log: seq<Complaint>
    var groups: Groups
    var events: seq<Event>
    var next: nat
    var clock: real
    const gate: Gate
    const files: Attachments
    ghost var delivered: set<nat>    // the numbers receipts have been sent for

    ghost predicate Valid()
      reads this, gate, files
    {
      && LogOk(log, restricted, clock.Floor) && files.Valid()
      && gate.Valid() && gate.clock <= clock && gate.doors.Keys == groups.Keys
      && Sane(friends, reqs) && MailOk(events, next, delivered)
      && GroupsOk(groups) && FewGroups(groups) && Addressed(groups, events)
    }

    constructor (requireE2e: bool)
      ensures Valid() && users == {} && friends == {} && reqs == {} && groups == map[] && events == []
      ensures blocks == {} && log == [] && restricted == {} && files.rows == [] && files.acl == {} && fresh(gate) && fresh(files)
    {
      this.requireE2e := requireE2e;
      users, restricted, friends, reqs, blocks := {}, {}, {}, {}, {};
      groups, events, next, delivered, log, clock := map[], [], 1, {}, [], 0.0;
      gate := new Gate();
      files := new Attachments();
      new;
      Fresh(this);
    }

    /** Time passes. */
    method Tick(seconds: real)
      requires Valid() && seconds >= 0.0
      modifies `clock
      ensures Valid() && clock == old(clock) + seconds
    {
      LogLater(log, restricted, clock.Floor, (clock + seconds).Floor);
      clock := clock + seconds;
    }

    method Register(uid: Uid)
      requires Valid()
      modifies `users
      ensures Valid() && users == old(users) + {uid}
    {
      users := users + {uid};
    }

    // ---- friends ------------------------------------------------------------------

    /** Asks for friendship. A crossed request is meant to be taken as an acceptance, but
        the call that should do so fails before it reaches the tables. */
    method FReq(uid: Uid, to: Uid) returns (r: Answer)
      requires Valid()
      modifies `reqs
      ensures Valid()
      ensures var open :=
          to != uid && to in users && (to, uid) !in blocks && uid !in restricted && (uid, to) !in friends;
        && (r.Failure? <==> open && (to, uid) in old(reqs))
        && (r.Fine? <==> open && (to, uid) !in old(reqs) && |Outgoing(old(reqs), uid)| < MAX_REQUESTS)
      ensures reqs == if r.Fine? then old(reqs) + {(uid, to)} else old(reqs)
    {
      hide Outgoing, LogOk, Gate.Valid, Attachments.Valid;
      if to == uid || to !in users || (to, uid) in blocks || uid in restricted || (uid, to) in friends {
        return Refused;
      }
      if (to, uid) in reqs {
        return Failure;
      }
      var out := set p | p in reqs && p.0 == uid;
      assert out == Outgoing(reqs, uid) by { OutgoingIs(reqs, uid); }
      if |out| >= MAX_REQUESTS {
        return Refused;
      }
      AskOk(friends, reqs, uid, to);
      reqs := reqs + {(uid, to)};
      r := Fine;
    }

    method FAcc(uid: Uid, other: Uid) returns (ok: bool)
      requires Valid()
      modifies `friends, `reqs
      ensures Valid() && (ok <==> (other, uid) in old(reqs))
      ensures ok ==> friends == old(friends) + Both(uid, other) && reqs == old(reqs) - {(other, uid)}
      ensures !ok ==> friends == old(friends) && reqs == old(reqs)
    {
      if (other, uid) !in reqs {
        return false;
      }
      AcceptOk(friends, reqs, uid, other);
      reqs := reqs - {(other, uid)};
      friends := friends + {(uid, other), (other, uid)};
      ok := true;
    }

    method FDec(uid: Uid, other: Uid)
      requires Valid()
      modifies `reqs
      ensures Valid() && reqs == old(reqs) - {(other, uid)}
    {
      PartOk(friends, reqs, uid, other, {(other, uid)});
      reqs := reqs - {(other, uid)};
    }

    method FDel(uid: Uid, other: Uid)
      requires Valid()
      modifies `friends
      ensures Valid() && friends == old(friends) - Both(uid, other)
    {
      PartOk(friends, reqs, uid, other, {});
      assert reqs - {} == reqs;
      friends := friends - {(uid, other), (other, uid)};
    }

    method Block(uid: Uid, other: Uid)
      requires Valid()
      modifies `friends, `reqs, `blocks
      ensures Valid() && blocks == old(blocks) + {(uid, other)}
      ensures friends == old(friends) - Both(uid, other) && reqs == old(reqs) - {(other, uid)}
    {
      blocks := blocks + {(uid, other)};
      PartOk(friends, reqs, uid, other, {(other, uid)});
      friends := friends - {(uid, other), (other, uid)};
      reqs := reqs - {(other, uid)};
    }

    /** Reports a user, at most five in an hour and nobody twice a day; who reports no
        longer hears from the user, and five reporters within a week restrict it. */
    method Report(uid: Uid, target: Uid) returns (ok: bool)
      requires Valid()
      modifies `friends, `blocks, `restricted, `log
      ensures Valid()
      ensures ok <==> target in users && Admitted(old(log), Complaint(uid, target, clock.Floor))
      ensures ok ==>
        && friends == old(friends) - Both(uid, target) && blocks == old(blocks) + {(uid, target)}
        && log == old(log) + [Complaint(uid, target, clock.Floor)]
        && restricted == old(restricted)
             + if |Reporters(log, target, clock.Floor - WEEK)| >= REPORT_LIMIT then {target} else {}
      ensures !ok ==> friends == old(friends) && blocks == old(blocks) && restricted == old(restricted) && log == old(log)
    {
      hide Reporters, Filings, Repeated, LogOk, MailOk, GroupsOk, FewGroups, Addressed, Gate.Valid, Attachments.Valid;
      var now := clock.Floor;
      var may := MayReport(uid, target);
      if !may {
        return false;
      }
      FileOk(log, restricted, now, Complaint(uid, target, now));
      assert restricted + {} == restricted;
      log := log + [Complaint(uid, target, now)];
      ReportersAre(log, target, now);
      if |set r | r in log && r.target == target && r.ts > now - WEEK :: r.reporter| >= REPORT_LIMIT {
        restricted := restricted + {target};
      }
      blocks := blocks + {(uid, target)};
      PartOk(friends, reqs, uid, target, {});
      assert reqs - {} == reqs;
      friends := friends - {(uid, target), (target, uid)};
      ok := true;
    }

    method MayReport(uid: Uid, target: Uid) returns (ok: bool)
      ensures ok <==> target in users && Admitted(log, Complaint(uid, target, clock.Floor))
    {
      var now := clock.Floor;
      ok := target in users && target != uid
        && |set i: nat | i < |log| && log[i].reporter == uid && log[i].ts > now - HOUR| < REPORTS_PER_HOUR
        && !exists i :: 0 <= i < |log| && log[i].reporter == uid && log[i].target == target && log[i].ts > now - DAY;
      assert Filings(log, uid, now - HOUR) == set i: nat | i < |log| && log[i].reporter == uid && log[i].ts > now - HOUR;
    }

    // ---- one-to-one traffic ---------------------------------------------------------

    /** Queues a message, an edit or a deletion for a friend; a file that comes with a
        message must be the sender's and complete, and the friend may then have it. */
    method Send(uid: Uid, msgid: string, to: Uid, text: string, kind: Kind, extra: Option<Fid>) returns (ok: bool)
      requires Valid() && !kind.Key?
      modifies `events, `next, files`acl
      ensures Valid()
      ensures ok <==>
        && (uid, to) in friends && !BacklogFull(old(events), uid, to)
        && (kind.Deletion? || Shaped(text, 'E', requireE2e).Some?)
        && (kind.Message? ==> MayAttach(files.rows, uid, FriendFile(Body(requireE2e, kind, text, 'E'), extra)))
      ensures ok ==>
        && events == old(events) + [Event(old(next), uid, to, Body(requireE2e, kind, text, 'E'), msgid, kind, "")] && next == old(next) + 1
        && Arrives(text, 'E', kind, events[|events| - 1].text)
        && files.acl == old(files.acl) + if kind.Message? then Given(FriendFile(Body(requireE2e, kind, text, 'E'), extra), {to}) else {}
      ensures !ok ==> events == old(events) && next == old(next) && files.acl == old(files.acl)
    {
      hide BacklogFull, MailOk, Addressed, Shaped, Arrives, FriendFile, Owned, Sane, LogOk, GroupsOk, FewGroups, Gate.Valid, Attachments.Valid;
      FullIs(events, uid, to);
      if (uid, to) !in friends || Count(events, ForUser(to)) >= MAX_BACKLOG || Count(events, Between(uid, to)) >= MAX_BACKLOG_PAIR {
        return false;
      }
      var body := Shaped(text, 'E', requireE2e);
      if kind.Deletion? {
        body := Some("");
      }
      BodyArrives(requireE2e, kind, text, 'E');
      if body.None? {
        return false;
      }
      if kind.Message? {
        var named := if Envelope(body.value, 'E') && extra.Some? then extra.value else Announced(body.value);
        var fid := if named == "" then None else Some(named);
        assert fid == FriendFile(body.value, extra) by { FriendFileIs(body.value, extra); }
        var mine := Attach(uid, fid, {to});
        if !mine {
          return false;
        }
      }
      var e := Event(next, uid, to, body.value, msgid, kind, "");
      MailSend(events, next, delivered, groups, e);
      events := events + [e];
      next := next + 1;
      ok := true;
    }

    /** A file that goes along must be the sender's own and complete. */
    method Attach(uid: Uid, fid: Option<Fid>, to: set<Uid>) returns (mine: bool)
      requires files.Valid()
      modifies files`acl
      ensures files.Valid() && (mine <==> MayAttach(files.rows, uid, fid))
      ensures files.acl == old(files.acl) + if mine then Given(fid, to) else {}
    {
      hide Attachments.Valid;
      mine := true;
      if fid.Some? {
        var rows, f := files.rows, fid.value;
        mine := exists i :: 0 <= i < |rows| && rows[i].fid == f && rows[i].done && rows[i].owner == uid;
        if mine {
          files.Give(uid, f, to);
        }
      }
    }

    /** The recipient acknowledges event `id`; the sender of a one-to-one message
        gets a receipt, once. */
    method Got(uid: Uid, id: nat) returns (receipt: Option<(Uid, string)>)
      requires Valid()
      modifies `events, `delivered
      ensures Valid()
      ensures events == if Awaits(old(events), uid, id) then Remove(old(events), ById(id)) else old(events)
      ensures forall e :: e in events <==> e in old(events) && !(e.id == id && e.to == uid)
      ensures receipt.Some? <==> exists e :: e in old(events) && e.id == id && e.to == uid && e.kind.Message? && e.gid == ""
      ensures receipt.Some? ==>
        id !in old(delivered) && delivered == old(delivered) + {id}
        && exists e :: e in old(events) && e.id == id && receipt.value == (e.frm, e.msgid)
      ensures receipt.None? ==> delivered == old(delivered)
    {
      hide Remove, Bounded, Sane, GroupsOk, FewGroups, IsMember, LogOk, Gate.Valid, Attachments.Valid;
      receipt := None;
      var i := 0;
      while i < |events|
        invariant 0 <= i <= |events| && forall j :: 0 <= j < i ==> !(events[j].id == id && events[j].to == uid)
      {
        if events[i].id == id && events[i].to == uid {
          break;
        }
        i := i + 1;
      }
      if i == |events| {
        return;
      }
      var e := events[i];
      assert forall f :: f in events && f.id == id ==> f == e;
      MailRemove(events, next, delivered, groups, ById(id));
      events := Remove(events, ById(id));
      if e.kind.Message? && e.gid == "" {
        receipt := Some((e.frm, e.msgid));
        delivered := delivered + {id};
      }
    }

    /** What login replays: the user's waiting events, oldest first. */
    method OnLogin(uid: Uid) returns (replay: seq<Event>)
      requires Valid()
      ensures replay == Mailbox(events, uid)
      ensures forall i, j :: 0 <= i < j < |replay| ==> replay[i].id < replay[j].id
      ensures forall e :: e in replay <==> e in events && e.to == uid
    {
      replay := [];
      var i := 0;
      while i < |events|
        invariant 0 <= i <= |events| && replay == Mailbox(events[..i], uid)
      {
        assert events[..i + 1][..i] == events[..i];
        if events[i].to == uid {
          replay := replay + [events[i]];
        }
        i := i + 1;
      }
      assert events[..i] == events;
      MailboxOrdered(events, next, uid);
      MailboxExactly(events, uid);
    }

    // ---- groups ---------------------------------------------------------------------

    /** Founds a group under the unused name `gid`; `generated` is the password it gets
        when none is given. */
    method GNew(uid: Uid, gid: Gid, name: string, pw: string, generated: string) returns (ok: bool)
      requires Valid() && gid !in groups && gid != "" && Strong(generated)
      modifies `groups, gate
      ensures Valid()
      ensures ok <==>
        GroupName(name) != "" && |Memberships(old(groups), uid)| < GROUPS_PER_USER && Chosen(pw, generated).Some?
      ensures ok ==>
        && groups == old(groups)[gid := Group(uid, [Member(uid, 0)])]
        && gate.Table() == Opened(old(gate.Table()), gid, Door(GroupName(name), Chosen(pw, generated).value, Counter(0, 0.0, 0.0)))
      ensures !ok ==> groups == old(groups) && gate.Table() == old(gate.Table())
    {
      hide MailOk, Sane, Memberships, LogOk, Strong, GroupName, Chosen, DoorOk, Gate.Valid, Attachments.Valid, Addressed;
      GroupNameIs(name, pw, generated);
      MembershipsAre(groups, uid);
      var n, p := Strip(name), Strip(pw);
      if |n| > MAX_GNAME {
        n := n[..MAX_GNAME];
      }
      if n == "" || |set g | g in groups && IsMember(groups[g], uid)| >= GROUPS_PER_USER {
        return false;
      }
      if p != "" && !Strong(p) {
        return false;
      }
      if p == "" {
        p := generated;
      }
      var g := Group(uid, [Member(uid, 0)]);
      Founded(groups, gid, uid, events);
      NewDoor(name, p);
      gate.Add(gid, n, p);
      groups := groups[gid := g];
      ok := true;
    }

    /** Joins a group with its password; `at` is where the time of joining puts the new
        row. Nobody gets in with a wrong password, or while a lock is closed. */
    method GJoin(uid: Uid, gid: Gid, pw: string, at: nat) returns (ok: bool)
      requires Valid() && (gid in groups ==> at <= |groups[gid].members|)
      modifies `groups, gate
      ensures Valid()
      ensures ok <==>
        && gid in old(groups) && old(gate.doors[gid].password) == Strip(pw) && !old(gate.Shut(uid, gid, clock))
        && !IsMember(old(groups)[gid], uid) && |old(groups)[gid].members| < GROUP_MEMBERS
        && |Memberships(old(groups), uid)| < GROUPS_PER_USER
      ensures ok ==> groups == old(groups)[gid := Joined(old(groups)[gid], uid, at)]
      ensures !ok ==> groups == old(groups)
      ensures gate.Table() == Tried(old(gate.Table()), uid, gid, Strip(pw), clock).0
    {
      hide MailOk, Sane, Memberships, IsMember, GroupOk, Joined, FewGroups, LogOk, Gate.Valid, Gate.Shut, Attachments.Valid;
      MembershipsAre(groups, uid);
      var right := gate.Verify(uid, gid, Strip(pw), clock);
      if !right || IsMember(groups[gid], uid) || |groups[gid].members| >= GROUP_MEMBERS
         || |set g | g in groups && IsMember(groups[g], uid)| >= GROUPS_PER_USER {
        return false;
      }
      var g := Joined(groups[gid], uid, at);
      JoinOk(groups[gid], uid, at);
      OneMoreMember(groups, gid, g, uid);
      groups := groups[gid := g];
      ok := true;
    }

    /** The owner changes the password. */
    method GPass(uid: Uid, gid: Gid, pw: string, generated: string) returns (ok: bool)
      requires Valid() && Strong(generated)
      modifies gate
      ensures Valid()
      ensures ok <==> gid in groups && IsMember(groups[gid], uid) && groups[gid].owner == uid && Chosen(pw, generated).Some?
      ensures ok ==> gid in old(gate.doors)
      ensures ok ==>
        var d := old(gate.doors)[gid];
        gate.Table() == Opened(old(gate.Table()), gid, d.(password := Chosen(pw, generated).value, misses := Counter(0, d.misses.start, 0.0)))
      ensures !ok ==> gate.Table() == old(gate.Table())
    {
      hide MailOk, Sane, IsMember, GroupOk, FewGroups, LogOk, Gate.Valid, Strong, Attachments.Valid;
      GroupNameIs("", pw, generated);
      var p := Strip(pw);
      if gid !in groups || !IsMember(groups[gid], uid) || groups[gid].owner != uid || (p != "" && !Strong(p)) {
        return false;
      }
      gate.Change(gid, if p == "" then generated else p);
      ok := true;
    }

    /** Takes `uid` out of a group, with the group's events waiting for it; the
        last member takes the group along. */
    method DropMember(gid: Gid, uid: Uid)
      requires Valid() && gid in groups && IsMember(groups[gid], uid)
      modifies `groups, `events, gate
      ensures Valid()
      ensures events == Remove(old(events), Leaving(uid, gid))
      ensures forall e :: e in events <==> e in old(events) && !(e.gid == gid && e.to == uid)
      ensures groups == AfterDrop(old(groups), gid, uid) && gate.Table() == Closing(old(gate.Table()), old(groups), gid, uid)
      ensures groups == if |old(groups)[gid].members| == 1 then old(groups) - {gid}
                        else old(groups)[gid := Dropped(old(groups)[gid], uid)]
      ensures |old(groups)[gid].members| > 1 ==> Without(old(groups)[gid].members, uid) != []
    {
      hide MailOk, Sane, IsMember, GroupsOk, Addressed, Without, Dropped, FewGroups, Remove, LogOk, Gate.Valid, Attachments.Valid;
      ghost var es := events;
      RemoveExactly(es, Leaving(uid, gid));
      events := Remove(events, Leaving(uid, gid));
      var rest := Without(groups[gid].members, uid);
      WithoutSize(groups[gid], uid);
      if rest == [] {
        Dissolves(groups, es, next, delivered, gid, uid);
        gate.Forget(gid);
        groups := groups - {gid};
        events := Remove(events, Whole(gid));
      } else {
        Drops(groups, es, next, delivered, gid, uid);
        groups := groups[gid := Dropped(groups[gid], uid)];
      }
    }

    method GLeave(uid: Uid, gid: Gid) returns (ok: bool)
      requires Valid()
      modifies `groups, `events, gate
      ensures Valid() && (ok <==> gid in old(groups) && IsMember(old(groups)[gid], uid))
      ensures ok ==> forall e :: e in events <==> e in old(events) && !(e.gid == gid && e.to == uid)
      ensures ok ==>
        && events == Remove(old(events), Leaving(uid, gid))
        && groups == AfterDrop(old(groups), gid, uid) && gate.Table() == Closing(old(gate.Table()), old(groups), gid, uid)
      ensures !ok ==> groups == old(groups) && events == old(events) && gate.Table() == old(gate.Table())
    {
      if gid !in groups || !IsMember(groups[gid], uid) {
        return false;
      }
      DropMember(gid, uid);
      ok := true;
    }

    /** The owner removes anybody, a sub-admin only plain members. */
    method GKick(uid: Uid, gid: Gid, target: Uid) returns (ok: bool)
      requires Valid()
      modifies `groups, `events, gate
      ensures Valid()
      ensures ok <==>
        && gid in old(groups) && target != uid
        && RoleOf(old(groups)[gid], uid) >= 1 && IsMember(old(groups)[gid], uid) && IsMember(old(groups)[gid], target)
        && (old(groups)[gid].owner == uid || RoleOf(old(groups)[gid], target) < 1)
      ensures ok ==> forall e :: e in events <==> e in old(events) && !(e.gid == gid && e.to == target)
      ensures ok ==>
        && events == Remove(old(events), Leaving(target, gid))
        && groups == AfterDrop(old(groups), gid, target) && gate.Table() == Closing(old(gate.Table()), old(groups), gid, target)
      ensures !ok ==> groups == old(groups) && events == old(events) && gate.Table() == old(gate.Table())
    {
      hide RoleOf, IsMember, LogOk, Gate.Valid, Attachments.Valid;
      if gid !in groups || !IsMember(groups[gid], uid) || RoleOf(groups[gid], uid) < 1 {
        return false;
      }
      if target == uid || !IsMember(groups[gid], target) {
        return false;
      }
      if groups[gid].owner != uid && RoleOf(groups[gid], target) >= 1 {
        return false;
      }
      DropMember(gid, target);
      ok := true;
    }

    /** The owner makes a member a sub-admin or a plain member. */
    method GRole(uid: Uid, gid: Gid, target: Uid, role: nat) returns (ok: bool)
      requires Valid()
      modifies `groups
      ensures Valid()
      ensures ok <==>
        && gid in old(groups) && old(groups)[gid].owner == uid && target != uid
        && IsMember(old(groups)[gid], target) && role <= 1
        && (role == 1 ==> Admins(old(groups)[gid].members) < SUB_ADMINS)
      ensures ok ==> groups == old(groups)[gid := SetRole(old(groups)[gid], target, role)]
      ensures ok && Admins(old(groups)[gid].members) <= SUB_ADMINS ==> Admins(groups[gid].members) <= SUB_ADMINS
      ensures !ok ==> groups == old(groups)
    {
      hide MailOk, Sane, IsMember, GroupOk, SetRole, FewGroups, Admins, LogOk, Gate.Valid, Attachments.Valid;
      if gid !in groups || groups[gid].owner != uid || target == uid || !IsMember(groups[gid], target) || role > 1 {
        return false;
      }
      if role == 1 && Admins(groups[gid].members) >= SUB_ADMINS {
        return false;
      }
      SetRoleOk(groups[gid], target, role);
      SetRoleAdmins(groups[gid], target, role);
      Regrouped(groups, gid, SetRole(groups[gid], target, role), events);
      groups := groups[gid := SetRole(groups[gid], target, role)];
      ok := true;
    }

    /** The owner hands the group over and becomes a sub-admin. */
    method GOwner(uid: Uid, gid: Gid, target: Uid) returns (ok: bool)
      requires Valid()
      modifies `groups
      ensures Valid()
      ensures ok <==>
        gid in old(groups) && old(groups)[gid].owner == uid && target != uid && IsMember(old(groups)[gid], target)
      ensures ok ==> groups == old(groups)[gid := HandedOver(old(groups)[gid], target)]
      ensures ok ==>
        Admins(groups[gid].members) == Admins(old(groups)[gid].members) + 1 - RoleOf(old(groups)[gid], target)
      ensures !ok ==> groups == old(groups)
    {
      hide Admins, RoleOf, MailOk, Sane, IsMember, GroupOk, HandedOver, FewGroups, LogOk, Gate.Valid, Attachments.Valid;
      if gid !in groups || groups[gid].owner != uid || target == uid || !IsMember(groups[gid], target) {
        return false;
      }
      NamedGroup(groups, gid);
      HandOverOk(groups[gid], target);
      HandOverAdmins(groups[gid], target);
      Regrouped(groups, gid, HandedOver(groups[gid], target), events);
      groups := groups[gid := HandedOver(groups[gid], target)];
      ok := true;
    }

    /** Hands one member the group key of an epoch; an older copy is replaced, and
        then there is always room for the new one. */
    method GKey(uid: Uid, gid: Gid, to: Uid, epoch: string, wrapped: string) returns (ok: bool)
      requires Valid()
      modifies `events, `next
      ensures Valid()
      ensures var rest := Remove(old(events), Replaced(uid, to, gid, epoch));
        ok <==>
          && WellWrapped(epoch, wrapped) && gid in groups && IsMember(groups[gid], uid) && IsMember(groups[gid], to) && to != uid
          && Count(rest, KeysFor(to)) < MAX_GKEY_WAITING && Count(rest, ForUser(to)) < MAX_BACKLOG
      ensures ok ==>
        && next == old(next) + 1
        && events == Remove(old(events), Replaced(uid, to, gid, epoch)) + [Event(old(next), uid, to, wrapped, epoch, Key, gid)]
      ensures ok ==> forall e :: e in events <==>
        || e == Event(old(next), uid, to, wrapped, epoch, Key, gid)
        || (e in old(events) && !(e.frm == uid && e.to == to && e.gid == gid && e.kind == Key && e.msgid == epoch))
      ensures !ok ==> next == old(next) && events == old(events)
      ensures WellWrapped(epoch, wrapped) && gid in groups && IsMember(groups[gid], uid) && IsMember(groups[gid], to) && to != uid ==>
        (exists e :: e in old(events) && Replaced(uid, to, gid, epoch).Hits(e)) ==> ok
    {
      hide Remove, Count, Bounded, Sane, IsMember, GroupsOk, FewGroups, Numbered, LogOk, Gate.Valid, Attachments.Valid;
      if gid !in groups || !IsMember(groups[gid], uid) || to == uid || !IsMember(groups[gid], to) || !Envelope(wrapped, 'E') || |wrapped| > MAX_E2E
         || |epoch| > 12 {
        return false;
      }
      ghost var es := events;
      var d := Replaced(uid, to, gid, epoch);
      MailRemove(events, next, delivered, groups, d);
      events := Remove(events, d);
      KeyRoom(es, d, to);
      if Count(events, KeysFor(to)) >= MAX_GKEY_WAITING || Count(events, ForUser(to)) >= MAX_BACKLOG {
        return false;
      }
      assert gid != "" by { NamedGroup(groups, gid); }
      var e := Event(next, uid, to, wrapped, epoch, Key, gid);
      MailSend(events, next, delivered, groups, e);
      events := events + [e];
      next := next + 1;
      ok := true;
    }

    /** Posts to a group: every other member with room in its mailbox gets it. */
    method GSay(uid: Uid, gid: Gid, msgid: string, text: string, kind: Kind, extra: Option<Fid>) returns (ok: bool)
      requires Valid() && !kind.Key?
      modifies `events, `next, files`acl
      ensures Valid() && old(events) <= events
      ensures ok <==>
        && gid in groups && IsMember(groups[gid], uid)
        && (kind.Deletion? || Shaped(text, 'G', requireE2e).Some?)
        && (kind.Message? ==> MayAttach(files.rows, uid, GroupFile(Body(requireE2e, kind, text, 'G'), extra)))
      ensures ok ==>
        var p := Post(uid, gid, msgid, Body(requireE2e, kind, text, 'G'), kind);
        && Arrives(text, 'G', kind, p.text)
        && (events, next) == FanOut(old(events), old(next), p, groups[gid].members)
        && Delivers(old(events), events, p, groups[gid].members)
        && files.acl == old(files.acl)
             + if kind.Message? then Given(GroupFile(Body(requireE2e, kind, text, 'G'), extra), Uids(groups[gid].members)) else {}
      ensures !ok ==> events == old(events) && next == old(next) && files.acl == old(files.acl)
    {
      hide GroupFile, Owned, Uids, LogOk, Delivers, Sane, IsMember, GroupsOk, FewGroups, MailOk, FanOut, Shaped, Arrives, Gate.Valid, Attachments.Valid;
      if gid !in groups || !IsMember(groups[gid], uid) {
        return false;
      }
      var body := Shaped(text, 'G', requireE2e);
      if kind.Deletion? {
        body := Some("");
      }
      BodyArrives(requireE2e, kind, text, 'G');
      if body.None? {
        return false;
      }
      if kind.Message? {
        var fid: Option<Fid> := None;
        if Envelope(body.value, 'G') {
          if extra != Some("") {
            fid := extra;
          }
        } else if Announcing(body.value) {
          fid := Some(Announced(body.value));
        }
        assert fid == GroupFile(body.value, extra) by { GroupFileIs(body.value, extra); }
        UidsAre(groups[gid].members);
        var mine := Attach(uid, fid, set m | m in groups[gid].members :: m.uid);
        if !mine {
          return false;
        }
      }
      QueueGroup(Post(uid, gid, msgid, body.value, kind));
      ok := true;
    }

    method QueueGroup(p: Post)
      requires Valid() && !p.kind.Key? && p.gid in groups
      modifies `events, `next
      ensures Valid() && old(events) <= events
      ensures (events, next) == FanOut(old(events), old(next), p, groups[p.gid].members)
      ensures Delivers(old(events), events, p, groups[p.gid].members)
    {
      hide Delivers, Sane, GroupsOk, FewGroups, MailOk, Addressed, LogOk, Gate.Valid, Attachments.Valid;
      OnceEach(groups, p.gid);
      FanOutDelivers(events, next, p, groups[p.gid].members);
      MailFanOut(events, next, delivered, groups, p);
      var ms := groups[p.gid].members;
      var i := 0;
      while i < |ms|
        invariant 0 <= i <= |ms|
        invariant FanOut(events, next, p, ms[i..]) == FanOut(old(events), old(next), p, ms)
      {
        var m := ms[i].uid;
        assert ms[i..][0] == ms[i] && ms[i..][1..] == ms[i + 1..];
        FullIs(events, p.frm, m);
        if m != p.frm && Count(events, ForUser(m)) < MAX_BACKLOG && Count(events, Between(p.frm, m)) < MAX_BACKLOG_PAIR {
          events := events + [Event(next, p.frm, m, p.text, p.msgid, p.kind, p.gid)];
          next := next + 1;
        }
        i := i + 1;
      }
    }
  }

  lemma Fresh(s: Server)
    requires s.friends == {} && s.reqs == {} && s.groups == map[] && s.events == [] && s.delivered == {}
    requires s.log == [] && s.restricted == {} && s.clock == 0.0
    requires s.gate.Valid() && s.gate.clock == 0.0 && s.gate.doors == map[] && s.files.Valid()
    ensures s.Valid()
  {
    assert forall u :: Outgoing(s.reqs, u) == {};
    assert forall u :: Memberships(s.groups, u) == {};
  }

  lemma Founded(gs: Groups, gid: Gid, uid: Uid, es: seq<Event>)
    requires GroupsOk(gs) && FewGroups(gs) && Addressed(gs, es) && gid !in gs && gid != ""
    requires |Memberships(gs, uid)| < GROUPS_PER_USER
    ensures var gs' := gs[gid := Group(uid, [Member(uid, 0)])]; GroupsOk(gs') && FewGroups(gs') && Addressed(gs', es)
  {
    hide FewGroups, Memberships;
    var g := Group(uid, [Member(uid, 0)]);
    OneMoreMember(gs, gid, g, uid);
    assert GroupOk(g);
  }

  lemma NewDoor(name: string, pw: string)
    requires GroupName(name) != "" && Strong(pw)
    ensures DoorOk(Door(GroupName(name), pw, Counter(0, 0.0, 0.0)))
  {
  }

  lemma NamedGroup(gs: Groups, g: Gid)
    requires GroupsOk(gs) && g in gs
    ensures g != "" && GroupOk(gs[g])
  {
  }

  lemma OnceEach(gs: Groups, g: Gid)
    requires GroupsOk(gs) && g in gs
    ensures Distinct(gs[g].members)
  {
  }

  lemma WithoutSize(g: Group, u: Uid)
    requires IsMember(g, u)
    ensures |Without(g.members, u)| == |g.members| - 1
  {
  }

  /** Once the last member's events are gone, no event of the group is left. */
  lemma LastMember(gs: Groups, es: seq<Event>, gid: Gid, uid: Uid)
    requires GroupsOk(gs) && Addressed(gs, es) && gid in gs && IsMember(gs[gid], uid) && |gs[gid].members| == 1
    requires forall e :: e in es ==> !(e.gid == gid && e.to == uid)
    ensures forall e :: e in es ==> e.gid != gid
  {
  }

  /** The tables after the last member has gone. */
  lemma Dissolves(gs: Groups, es: seq<Event>, next: nat, delivered: set<nat>, gid: Gid, uid: Uid)
    requires GroupsOk(gs) && FewGroups(gs) && Addressed(gs, es) && MailOk(es, next, delivered)
    requires gid in gs && IsMember(gs[gid], uid) && |gs[gid].members| == 1
    ensures var es' := Remove(Remove(es, Leaving(uid, gid)), Whole(gid));
      && MailOk(es', next, delivered) && Addressed(gs - {gid}, es')
      && (forall e :: e in es' <==> e in es && !(e.gid == gid && e.to == uid))
    ensures GroupsOk(gs - {gid}) && FewGroups(gs - {gid})
    ensures Remove(Remove(es, Leaving(uid, gid)), Whole(gid)) == Remove(es, Leaving(uid, gid))
  {
    hide MailOk, Remove, FewGroups;
    var es1 := Remove(es, Leaving(uid, gid));
    MailRemove(es, next, delivered, gs, Leaving(uid, gid));
    LastMember(gs, es1, gid, uid);
    RemoveMisses(es1, Whole(gid));
    hide IsMember, GroupOk;
    MailRemove(es1, next, delivered, gs, Whole(gid));
    FewerMembers(gs, gs - {gid});
  }

  /** The tables after a member has gone and others stay. */
  lemma Drops(gs: Groups, es: seq<Event>, next: nat, delivered: set<nat>, gid: Gid, uid: Uid)
    requires GroupsOk(gs) && FewGroups(gs) && Addressed(gs, es) && MailOk(es, next, delivered)
    requires gid in gs && Without(gs[gid].members, uid) != []
    ensures var es', gs' := Remove(es, Leaving(uid, gid)), gs[gid := Dropped(gs[gid], uid)];
      && MailOk(es', next, delivered) && GroupsOk(gs') && FewGroups(gs') && Addressed(gs', es')
      && (forall e :: e in es' <==> e in es && !(e.gid == gid && e.to == uid))
  {
    hide MailOk, Remove, FewGroups, IsMember, GroupOk, Without, Dropped;
    MailRemove(es, next, delivered, gs, Leaving(uid, gid));
    RelayGroups.DropOk(gs[gid], uid);
    FewerMembers(gs, gs[gid := Dropped(gs[gid], uid)]);
  }

  /** A key that replaces another finds room. */
  lemma KeyRoom(es: seq<Event>, d: Removal, to: Uid)
    requires Bounded(es) && d.Replaced? && d.to == to
    ensures (exists e :: e in es && d.Hits(e)) ==>
      Count(Remove(es, d), KeysFor(to)) < MAX_GKEY_WAITING && Count(Remove(es, d), ForUser(to)) < MAX_BACKLOG
    ensures (forall e :: e in es ==> !d.Hits(e)) ==> Remove(es, d) == es
  {
    hide Count, Remove;
    RemoveExactly(es, d);
    if forall e :: e in es ==> !d.Hits(e) { RemoveMisses(es, d); }
    if e :| e in es && d.Hits(e) {
      CountRemoveHit(es, d, KeysFor(to), e);
      CountRemoveHit(es, d, ForUser(to), e);
    }
  }
}

/** Mailboxes of the message relay: waiting events in one table ordered by
    sequence number, the queries the server asks of it, and its bounds. */
module RelayMail {

  type Uid = string
  type Gid = string

  const MAX_BACKLOG := 2000
  const MAX_BACKLOG_PAIR := 400
  const MAX_GKEY_WAITING := 64

  /** An event's kind: a message, an edit, a deletion or a group key. */
  datatype Kind = Message | Edit | Deletion | Key

  /** A waiting event; `gid` is empty for one-to-one traffic. */
  datatype Event = Event(id: nat, frm: Uid, to: Uid, text: string, msgid: string, kind: Kind, gid: Gid)

  /** What the server counts: all events waiting for a user, the group keys among
      them, those from one sender, and those from one sender that are no keys. */
  datatype Query = ForUser(to: Uid) | KeysFor(kto: Uid) | Between(frm: Uid, bto: Uid) | Talk(tfrm: Uid, tto: Uid)
  {
    predicate Selects(e: Event)
    {
      match this
      case ForUser(u) => e.to == u
      case KeysFor(u) => e.to == u && e.kind.Key?
      case Between(f, u) => e.to == u && e.frm == f
      case Talk(f, u) => e.to == u && e.frm == f && !e.kind.Key?
    }
  }

  function Count(es: seq<Event>, q: Query): (n: nat)
  {
    if es == [] then 0 else Count(es[..|es| - 1], q) + (if q.Selects(es[|es| - 1]) then 1 else 0)
  }

  /** What the server deletes. */
  datatype Removal =
    | ById(id: nat)
    | Leaving(uid: Uid, gid: Gid)
    | Whole(wgid: Gid)
    | Replaced(frm: Uid, to: Uid, kgid: Gid, epoch: string)
  {
    predicate Hits(e: Event)
    {
      match this
      case ById(i) => e.id == i
      case Leaving(u, g) => e.to == u && e.gid == g
      case Whole(g) => e.gid == g
      case Replaced(f, t, g, ep) => e.frm == f && e.to == t && e.gid == g && e.kind.Key? && e.msgid == ep
    }
  }

  function Remove(es: seq<Event>, d: Removal): (r: seq<Event>)
  {
    if es == [] then [] else
      Remove(es[..|es| - 1], d) + (if d.Hits(es[|es| - 1]) then [] else [es[|es| - 1]])
  }

  lemma RemoveNone(d: Removal)
    ensures Remove([], d) == []
  {
  }

  lemma RemoveLast(es: seq<Event>, d: Removal)
    requires es != []
    ensures var init, last := es[..|es| - 1], es[|es| - 1];
      Remove(es, d) == if d.Hits(last) then Remove(init, d) else Remove(init, d) + [last]
  {
  }

  /** Exactly the events a removal names leave the table. */
  lemma {:induction false} RemoveExactly(es: seq<Event>, d: Removal)
    ensures forall e :: e in Remove(es, d) <==> e in es && !d.Hits(e)
  {
    hide Removal.Hits;
    if es != [] {
      RemoveExactly(es[..|es| - 1], d);
      assert es == es[..|es| - 1] + [es[|es| - 1]];
    }
  }

  lemma {:induction false} RemoveMisses(es: seq<Event>, d: Removal)
    requires forall e :: e in es ==> !d.Hits(e)
    ensures Remove(es, d) == es
  {
    if es != [] {
      RemoveMisses(es[..|es| - 1], d);
      RemoveLast(es, d);
    }
  }

  lemma CountAdd(es: seq<Event>, e: Event, q: Query)
    ensures Count(es + [e], q) == Count(es, q) + (if q.Selects(e) then 1 else 0)
  {
    assert (es + [e])[..|es|] == es;
  }

  lemma {:induction false} CountRemove(es: seq<Event>, d: Removal, q: Query)
    ensures Count(Remove(es, d), q) <= Count(es, q)
  {
    hide Query.Selects, Removal.Hits;
    if es != [] {
      var last := es[|es| - 1];
      CountRemove(es[..|es| - 1], d, q);
      RemoveLast(es, d);
      if !d.Hits(last) { CountAdd(Remove(es[..|es| - 1], d), last, q); }
    }
  }

  /** Deleting an event a query selects lowers its count. */
  lemma {:induction false} CountRemoveHit(es: seq<Event>, d: Removal, q: Query, e: Event)
    requires e in es && d.Hits(e) && q.Selects(e)
    ensures Count(Remove(es, d), q) < Count(es, q)
  {
    hide Query.Selects, Removal.Hits;
    var last := es[|es| - 1];
    assert es == es[..|es| - 1] + [last];
    CountRemove(es[..|es| - 1], d, q);
    RemoveLast(es, d);
    if e in es[..|es| - 1] {
      CountRemoveHit(es[..|es| - 1], d, q, e);
      RemoveLast(es, d);
      if !d.Hits(last) { CountAdd(Remove(es[..|es| - 1], d), last, q); }
    }
  }

  lemma {:induction false} CountConcat(a: seq<Event>, b: seq<Event>, q: Query)
    ensures Count(a + b, q) == Count(a, q) + Count(b, q)
    decreases |b|
  {
    hide Query.Selects;
    if b == [] {
      assert a + b == a;
    } else {
      var n := |b| - 1;
      CountConcat(a, b[..n], q);
      CountAdd(a + b[..n], b[n], q);
      CountAdd(b[..n], b[n], q);
      assert a + b == a + b[..n] + [b[n]] && b == b[..n] + [b[n]];
    }
  }

  lemma {:induction false} TalkWithin(es: seq<Event>, f: Uid, u: Uid)
    ensures Count(es, Talk(f, u)) <= Count(es, Between(f, u)) <= Count(es, ForUser(u))
    ensures Count(es, KeysFor(u)) <= Count(es, ForUser(u))
  {
    if es != [] { TalkWithin(es[..|es| - 1], f, u); }
  }

  /** The mailbox bounds. */
  ghost predicate Bounded(es: seq<Event>)
  {
    && (forall u :: Count(es, ForUser(u)) <= MAX_BACKLOG && Count(es, KeysFor(u)) <= MAX_GKEY_WAITING)
    && (forall f, u :: Count(es, Talk(f, u)) <= MAX_BACKLOG_PAIR)
  }

  /** Sequence numbers grow along the table and are below the next one. */
  ghost predicate Numbered(es: seq<Event>, next: nat)
  {
    && (forall i, j :: 0 <= i < j < |es| ==> es[i].id < es[j].id)
    && (forall i :: 0 <= i < |es| ==> es[i].id < next)
  }

  ghost predicate BacklogFull(es: seq<Event>, f: Uid, u: Uid)
  {
    Count(es, ForUser(u)) >= MAX_BACKLOG || Count(es, Between(f, u)) >= MAX_BACKLOG_PAIR
  }

  // ---- what is counted ----------------------------------------------------------

  ghost function Selected(es: seq<Event>, q: Query): (s: set<nat>)
  {
    set i: nat | i < |es| && q.Selects(es[i])
  }

  lemma {:induction false} CountIs(es: seq<Event>, q: Query)
    ensures Count(es, q) == |Selected(es, q)|
  {
    hide Query.Selects;
    if es != [] {
      var n := |es| - 1;
      CountIs(es[..n], q);
      assert Selected(es, q) == Selected(es[..n], q) + if q.Selects(es[n]) then {n} else {};
    }
  }

  /** The places in the table of the events that wait for `u`, of the keys among them, of
      those that come from `f`, and of those from `f` that are no keys. */
  ghost function Waiting(es: seq<Event>, u: Uid): set<nat> { set i: nat | i < |es| && es[i].to == u }
  ghost function WaitingKeys(es: seq<Event>, u: Uid): set<nat> { set i: nat | i < |es| && es[i].to == u && es[i].kind == Key }
  ghost function WaitingFrom(es: seq<Event>, f: Uid, u: Uid): set<nat> { set i: nat | i < |es| && es[i].to == u && es[i].frm == f }
  ghost function WaitingTalk(es: seq<Event>, f: Uid, u: Uid): set<nat>
  {
    set i: nat | i < |es| && es[i].to == u && es[i].frm == f && es[i].kind != Key
  }

  lemma Counts(es: seq<Event>, f: Uid, u: Uid)
    ensures Count(es, ForUser(u)) == |Waiting(es, u)| && Count(es, KeysFor(u)) == |WaitingKeys(es, u)|
    ensures Count(es, Between(f, u)) == |WaitingFrom(es, f, u)| && Count(es, Talk(f, u)) == |WaitingTalk(es, f, u)|
  {
    hide Count;
    CountIs(es, ForUser(u));
    CountIs(es, KeysFor(u));
    CountIs(es, Between(f, u));
    CountIs(es, Talk(f, u));
    assert Selected(es, ForUser(u)) == Waiting(es, u) && Selected(es, KeysFor(u)) == WaitingKeys(es, u);
    assert Selected(es, Between(f, u)) == WaitingFrom(es, f, u) && Selected(es, Talk(f, u)) == WaitingTalk(es, f, u);
  }

  /** A mailbox is full for a sender with 2000 events waiting in it, or 400 of that sender. */
  lemma FullExactly(es: seq<Event>, f: Uid, u: Uid)
    ensures BacklogFull(es, f, u) <==> |Waiting(es, u)| >= 2000 || |WaitingFrom(es, f, u)| >= 400
  {
    hide Count;
    Counts(es, f, u);
  }

  /** The bounds: 2000 events for a user, 64 of them keys, 400 from one sender apart from
      keys. */
  lemma BoundedExactly(es: seq<Event>)
    ensures Bounded(es) <==>
      && (forall u :: |Waiting(es, u)| <= 2000 && |WaitingKeys(es, u)| <= 64)
      && (forall f, u :: |WaitingTalk(es, f, u)| <= 400)
  {
    hide Count, Waiting, WaitingKeys, WaitingTalk;
    forall u ensures Count(es, ForUser(u)) == |Waiting(es, u)| && Count(es, KeysFor(u)) == |WaitingKeys(es, u)| {
      Counts(es, u, u);
    }
    forall f, u ensures Count(es, Talk(f, u)) == |WaitingTalk(es, f, u)| { Counts(es, f, u); }
  }

  lemma BoundedRemove(es: seq<Event>, d: Removal)
    requires Bounded(es)
    ensures Bounded(Remove(es, d))
  {
    hide Count, Remove;
    forall u ensures Count(Remove(es, d), ForUser(u)) <= MAX_BACKLOG && Count(Remove(es, d), KeysFor(u)) <= MAX_GKEY_WAITING {
      CountRemove(es, d, ForUser(u));
      CountRemove(es, d, KeysFor(u));
    }
    forall f, u ensures Count(Remove(es, d), Talk(f, u)) <= MAX_BACKLOG_PAIR {
      CountRemove(es, d, Talk(f, u));
    }
  }

  /** Queueing traffic into a mailbox that is not full keeps the bounds. */
  lemma BoundedSend(es: seq<Event>, e: Event)
    requires Bounded(es) && !e.kind.Key? && !BacklogFull(es, e.frm, e.to)
    ensures Bounded(es + [e])
  {
    hide Count;
    TalkWithin(es, e.frm, e.to);
    forall u ensures Count(es + [e], ForUser(u)) <= MAX_BACKLOG && Count(es + [e], KeysFor(u)) <= MAX_GKEY_WAITING {
      CountAdd(es, e, ForUser(u));
      CountAdd(es, e, KeysFor(u));
    }
    forall f, u ensures Count(es + [e], Talk(f, u)) <= MAX_BACKLOG_PAIR {
      CountAdd(es, e, Talk(f, u));
    }
  }

  /** So does handing over a group key. */
  lemma BoundedKey(es: seq<Event>, e: Event)
    requires Bounded(es) && e.kind.Key?
    requires Count(es, KeysFor(e.to)) < MAX_GKEY_WAITING && Count(es, ForUser(e.to)) < MAX_BACKLOG
    ensures Bounded(es + [e])
  {
    hide Count;
    forall u ensures Count(es + [e], ForUser(u)) <= MAX_BACKLOG && Count(es + [e], KeysFor(u)) <= MAX_GKEY_WAITING {
      CountAdd(es, e, ForUser(u));
      CountAdd(es, e, KeysFor(u));
    }
    forall f, u ensures Count(es + [e], Talk(f, u)) <= MAX_BACKLOG_PAIR {
      CountAdd(es, e, Talk(f, u));
    }
  }

  lemma {:induction false} NumberedRemove(es: seq<Event>, next: nat, d: Removal)
    requires Numbered(es, next)
    ensures Numbered(Remove(es, d), next)
    ensures |Remove(es, d)| > 0 ==> Remove(es, d)[|Remove(es, d)| - 1].id <= es[|es| - 1].id
  {
    hide Removal.Hits, Remove;
    if es == [] {
      RemoveNone(d);
    } else {
      var init := es[..|es| - 1];
      if init == [] { RemoveNone(d); }
      NumberedRemove(init, next, d);
      RemoveLast(es, d);
      var r := Remove(init, d);
      assert forall i :: 0 <= i < |r| ==> r[i].id <= r[|r| - 1].id;
    }
  }

  lemma NumberedAdd(es: seq<Event>, next: nat, e: Event)
    requires Numbered(es, next) && e.id == next
    ensures Numbered(es + [e], next + 1)
  {
  }

  // ---- replay at login --------------------------------------------------------

  /** The events waiting for one user, in table order. */
  ghost function Mailbox(es: seq<Event>, u: Uid): (r: seq<Event>)
  {
    if es == [] then [] else
      Mailbox(es[..|es| - 1], u) + (if es[|es| - 1].to == u then [es[|es| - 1]] else [])
  }

  /** Login replays the waiting events in increasing order of number, each once. */
  lemma {:induction false} MailboxOrdered(es: seq<Event>, next: nat, u: Uid)
    requires Numbered(es, next)
    ensures Numbered(Mailbox(es, u), next) && |Mailbox(es, u)| == Count(es, ForUser(u))
    ensures |Mailbox(es, u)| > 0 ==> Mailbox(es, u)[|Mailbox(es, u)| - 1].id <= es[|es| - 1].id
  {
    if es != [] { MailboxOrdered(es[..|es| - 1], next, u); }
  }

  lemma {:induction false} MailboxExactly(es: seq<Event>, u: Uid)
    ensures forall e :: e in Mailbox(es, u) <==> e in es && e.to == u
  {
    if es != [] {
      MailboxExactly(es[..|es| - 1], u);
      assert es == es[..|es| - 1] + [es[|es| - 1]];
    }
  }
}

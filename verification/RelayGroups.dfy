/** Groups of the message relay: an owner, sub-admins and members in the order
    they joined. */
module RelayGroups {
  import opened Common
  import opened RelayMail

  const GROUP_MEMBERS := 200
  const GROUPS_PER_USER := 30
  const SUB_ADMINS := 10

  /** A membership row with its stored role: 0 member, 1 sub-admin. */
  datatype Member = Member(uid: Uid, role: nat)

  datatype Group = Group(owner: Uid, members: seq<Member>)

  /** The first row of `u`, or the length of the list. */
  function Index(ms: seq<Member>, u: Uid): (i: nat)
    ensures i <= |ms| && (i < |ms| ==> ms[i].uid == u)
    ensures forall j :: 0 <= j < i ==> ms[j].uid != u
  {
    if ms == [] then 0 else if ms[0].uid == u then 0 else
      var i := Index(ms[1..], u);
      assert forall j :: 0 < j < i + 1 ==> ms[j] == ms[1..][j - 1];
      i + 1
  }

  predicate IsMember(g: Group, u: Uid)
  {
    Index(g.members, u) < |g.members|
  }

  /** 2 for the owner, the stored role for others, -1 for strangers. */
  function RoleOf(g: Group, u: Uid): (r: int)
  {
    if g.owner == u then 2
    else if IsMember(g, u) then g.members[Index(g.members, u)].role
    else -1
  }

  ghost predicate Distinct(ms: seq<Member>)
  {
    forall i, j :: 0 <= i < j < |ms| ==> ms[i].uid != ms[j].uid
  }

  /** 1 to 200 members, the owner among them with stored role 0. */
  ghost predicate GroupOk(g: Group)
  {
    && 1 <= |g.members| <= GROUP_MEMBERS && Distinct(g.members)
    && (forall i :: 0 <= i < |g.members| ==> g.members[i].role <= 1)
    && IsMember(g, g.owner) && g.members[Index(g.members, g.owner)].role == 0
  }

  lemma IndexIs(ms: seq<Member>, i: nat)
    requires i < |ms| && Distinct(ms)
    ensures Index(ms, ms[i].uid) == i
  {
  }

  /** Exactly one member has role 2. */
  lemma OneOwner(g: Group, i: nat)
    requires GroupOk(g) && i < |g.members|
    ensures RoleOf(g, g.members[i].uid) == 2 <==> i == Index(g.members, g.owner)
    ensures 0 <= RoleOf(g, g.members[i].uid) <= 2
  {
    IndexIs(g.members, i);
  }

  // ---- changes ----------------------------------------------------------------

  function WithRole(ms: seq<Member>, u: Uid, role: nat): (r: seq<Member>)
    ensures |r| == |ms|
  {
    var i := Index(ms, u);
    if i < |ms| then ms[i := Member(u, role)] else ms
  }

  /** The group with its stored role of `u` changed. */
  function SetRole(g: Group, u: Uid, role: nat): Group
  {
    g.(members := WithRole(g.members, u, role))
  }

  /** The group after a member joined; the row goes where its time of joining
      puts it. */
  function Joined(g: Group, u: Uid, at: nat): (r: Group)
    requires at <= |g.members|
  {
    g.(members := g.members[..at] + [Member(u, 0)] + g.members[at..])
  }

  /** The group handed over to `u`; the former owner becomes a sub-admin. */
  function HandedOver(g: Group, u: Uid): (r: Group)
  {
    Group(u, WithRole(WithRole(g.members, u, 0), g.owner, 1))
  }

  function Without(ms: seq<Member>, u: Uid): (r: seq<Member>)
  {
    var i := Index(ms, u);
    if i < |ms| then ms[..i] + ms[i + 1..] else ms
  }

  /** How many sub-admins there are. */
  function Admins(ms: seq<Member>): (n: nat)
  {
    if ms == [] then 0 else One(ms[0]) + Admins(ms[1..])
  }

  function One(m: Member): (n: nat) { if m.role == 1 then 1 else 0 }

  lemma {:induction false} AdminsConcat(a: seq<Member>, b: seq<Member>)
    ensures Admins(a + b) == Admins(a) + Admins(b)
  {
    if a == [] {
      assert a + b == b;
    } else {
      AdminsConcat(a[1..], b);
      assert (a + b)[1..] == a[1..] + b;
    }
  }

  lemma AdminsAt(ms: seq<Member>, i: nat, m: Member)
    requires i < |ms|
    ensures Admins(ms) == Admins(ms[..i]) + One(ms[i]) + Admins(ms[i + 1..])
    ensures Admins(ms[i := m]) == Admins(ms) - One(ms[i]) + One(m)
    ensures Admins(ms[..i] + ms[i + 1..]) == Admins(ms) - One(ms[i])
  {
    AdminsAround(ms[..i], ms[i], ms[i + 1..]);
    AdminsAround(ms[..i], m, ms[i + 1..]);
    AdminsConcat(ms[..i], ms[i + 1..]);
    assert ms == ms[..i] + [ms[i]] + ms[i + 1..] && ms[i := m] == ms[..i] + [m] + ms[i + 1..];
  }

  lemma AdminsAround(a: seq<Member>, m: Member, b: seq<Member>)
    ensures Admins(a + [m] + b) == Admins(a) + One(m) + Admins(b)
  {
    AdminsConcat(a + [m], b);
    AdminsConcat(a, [m]);
    assert [m][1..] == [] && Admins([m]) == One(m) + Admins([m][1..]);
  }

  /** Appointing within the limit keeps the limit. */
  lemma SetRoleAdmins(g: Group, u: Uid, role: nat)
    requires role == 1 ==> Admins(g.members) < SUB_ADMINS
    ensures Admins(g.members) <= SUB_ADMINS ==> Admins(SetRole(g, u, role).members) <= SUB_ADMINS
  {
    hide Index;
    var i := Index(g.members, u);
    if i < |g.members| { AdminsAt(g.members, i, Member(u, role)); }
  }

  /** Joining and leaving never add a sub-admin. */
  lemma MovesAdmins(g: Group, u: Uid, at: nat)
    requires at <= |g.members|
    ensures Admins(Joined(g, u, at).members) == Admins(g.members)
    ensures Without(g.members, u) != [] ==> Admins(Dropped(g, u).members) <= Admins(g.members)
  {
    hide Index;
    AdminsAround(g.members[..at], Member(u, 0), g.members[at..]);
    AdminsConcat(g.members[..at], g.members[at..]);
    assert g.members == g.members[..at] + g.members[at..];
    var rest := Without(g.members, u);
    var i := Index(g.members, u);
    if i < |g.members| { AdminsAt(g.members, i, g.members[i]); }
    if rest != [] {
      var j := Index(rest, Heir(rest));
      if j < |rest| { AdminsAt(rest, j, Member(Heir(rest), 0)); }
    }
  }

  /** A hand-over makes the former owner a sub-admin: one more, unless the new owner was
      one. */
  lemma HandOverAdmins(g: Group, u: Uid)
    requires GroupOk(g) && IsMember(g, u) && u != g.owner
    ensures Admins(HandedOver(g, u).members) == Admins(g.members) + 1 - RoleOf(g, u)
  {
    hide Index;
    var i := Index(g.members, u);
    AdminsAt(g.members, i, Member(u, 0));
    var ms := WithRole(g.members, u, 0);
    RoleKeeps(g.members, u, 0);
    var j := Index(ms, g.owner);
    AdminsAt(ms, j, Member(g.owner, 1));
    assert ms[j] == g.members[j];
  }

  /** So it keeps the limit exactly when there was room or the new owner was a sub-admin. */
  lemma HandOverLimit(g: Group, u: Uid)
    requires GroupOk(g) && IsMember(g, u) && u != g.owner && Admins(g.members) <= SUB_ADMINS
    ensures Admins(HandedOver(g, u).members) <= SUB_ADMINS <==> Admins(g.members) < SUB_ADMINS || RoleOf(g, u) == 1
  {
    hide Admins, Index;
    HandOverAdmins(g, u);
  }

  /** A name of `i` letters. */
  ghost function Name(i: nat): (u: Uid)
    ensures |u| == i
  {
    seq(i, _ => 'a')
  }

  /** A sound group with ten sub-admins that is handed to its only plain member, and
      then has eleven. */
  lemma ElevenAdmins() returns (g: Group, u: Uid)
    ensures GroupOk(g) && IsMember(g, u) && u != g.owner && Admins(g.members) == SUB_ADMINS
    ensures GroupOk(HandedOver(g, u)) && Admins(HandedOver(g, u).members) == SUB_ADMINS + 1
  {
    var crew := seq(10, i requires 0 <= i < 10 => Member(Name(i + 2), 1));
    var ms := [Member(Name(0), 0), Member(Name(1), 0)] + crew;
    g, u := Group(Name(0), ms), Name(1);
    assert Distinct(ms) by {
      forall i, j | 0 <= i < j < |ms| ensures ms[i].uid != ms[j].uid {
        assert |ms[i].uid| == i && |ms[j].uid| == j;
      }
    }
    IndexIs(ms, 0);
    IndexIs(ms, 1);
    AdminsConcat([Member(Name(0), 0), Member(Name(1), 0)], crew);
    AllAdmins(crew);
    NoAdmins();
    HandOverOk(g, u);
    HandOverAdmins(g, u);
  }

  lemma NoAdmins()
    ensures Admins([Member(Name(0), 0), Member(Name(1), 0)]) == 0
  {
    var ms := [Member(Name(0), 0), Member(Name(1), 0)];
    assert ms[1..] == [Member(Name(1), 0)] && ms[1..][1..] == [];
  }

  lemma {:induction false} AllAdmins(ms: seq<Member>)
    requires forall i :: 0 <= i < |ms| ==> ms[i].role == 1
    ensures Admins(ms) == |ms|
  {
    if ms != [] { AllAdmins(ms[1..]); }
  }

  /** The first sub-admin's place, or the length of the list. */
  function FirstAdmin(ms: seq<Member>): (i: nat)
    ensures i <= |ms| && (i < |ms| ==> ms[i].role == 1)
    ensures forall j :: 0 <= j < i ==> ms[j].role != 1
  {
    if ms == [] then 0 else if ms[0].role == 1 then 0 else
      var i := FirstAdmin(ms[1..]);
      assert forall j :: 0 < j < i + 1 ==> ms[j] == ms[1..][j - 1];
      i + 1
  }

  /** Who takes over when the owner has gone. */
  function Heir(rest: seq<Member>): (u: Uid)
    requires rest != []
  {
    var i := FirstAdmin(rest);
    if i < |rest| then rest[i].uid else rest[0].uid
  }

  /** The group after `u` has gone; it must have had another member. */
  function Dropped(g: Group, u: Uid): (r: Group)
    requires Without(g.members, u) != []
  {
    var rest := Without(g.members, u);
    if g.owner == u then Group(Heir(rest), WithRole(rest, Heir(rest), 0)) else Group(g.owner, rest)
  }

  // ---- what changes keep --------------------------------------------------------

  lemma RoleKeeps(ms: seq<Member>, u: Uid, role: nat)
    ensures var r := WithRole(ms, u, role);
      && (forall i :: 0 <= i < |ms| ==> r[i].uid == ms[i].uid)
      && (Distinct(ms) ==> Distinct(r))
      && (forall v :: Index(r, v) == Index(ms, v))
  {
    var r := WithRole(ms, u, role);
    forall v ensures Index(r, v) == Index(ms, v) {
      SameIndex(ms, r, v);
    }
  }

  lemma SameIndex(ms: seq<Member>, r: seq<Member>, v: Uid)
    requires |r| == |ms| && forall i :: 0 <= i < |ms| ==> r[i].uid == ms[i].uid
    ensures Index(r, v) == Index(ms, v)
  {
    var i, j := Index(ms, v), Index(r, v);
  }

  lemma SetRoleOk(g: Group, u: Uid, role: nat)
    requires GroupOk(g) && u != g.owner && role <= 1
    ensures GroupOk(SetRole(g, u, role))
    ensures forall v :: IsMember(SetRole(g, u, role), v) <==> IsMember(g, v)
  {
    hide Index;
    RoleKeeps(g.members, u, role);
  }

  lemma HandOverOk(g: Group, u: Uid)
    requires GroupOk(g) && u != g.owner && IsMember(g, u)
    ensures GroupOk(HandedOver(g, u))
    ensures forall v :: IsMember(HandedOver(g, u), v) <==> IsMember(g, v)
  {
    hide Index;
    RoleKeeps(g.members, u, 0);
    RoleKeeps(WithRole(g.members, u, 0), g.owner, 1);
  }

  lemma InsertedDistinct(ms: seq<Member>, m: Member, at: nat)
    requires Distinct(ms) && at <= |ms| && forall i :: 0 <= i < |ms| ==> ms[i].uid != m.uid
    ensures Distinct(ms[..at] + [m] + ms[at..])
  {
    var r := ms[..at] + [m] + ms[at..];
    forall i, j | 0 <= i < j < |r| ensures r[i].uid != r[j].uid {
      assert r[i] == (if i < at then ms[i] else if i == at then m else ms[i - 1]);
      assert r[j] == (if j < at then ms[j] else if j == at then m else ms[j - 1]);
    }
  }

  lemma InsertedMembers(ms: seq<Member>, m: Member, at: nat, v: Uid)
    requires at <= |ms|
    ensures var r := ms[..at] + [m] + ms[at..]; Index(r, v) < |r| <==> Index(ms, v) < |ms| || v == m.uid
  {
    hide Index;
    var r := ms[..at] + [m] + ms[at..];
    var i, j := Index(ms, v), Index(r, v);
    if i < |ms| { assert r[if i < at then i else i + 1].uid == v; }
    if v == m.uid { assert r[at].uid == v; }
    if j < |r| { assert r[j] == (if j < at then ms[j] else if j == at then m else ms[j - 1]); }
  }

  lemma JoinOk(g: Group, u: Uid, at: nat)
    requires GroupOk(g) && !IsMember(g, u) && |g.members| < GROUP_MEMBERS && at <= |g.members|
    ensures GroupOk(Joined(g, u, at))
    ensures forall v :: IsMember(Joined(g, u, at), v) <==> IsMember(g, v) || v == u
  {
    hide Index, Distinct;
    var ms, r := g.members, Joined(g, u, at).members;
    assert forall i :: 0 <= i < |ms| ==> ms[i].uid != u;
    InsertedDistinct(ms, Member(u, 0), at);
    forall v ensures Index(r, v) < |r| <==> Index(ms, v) < |ms| || v == u {
      InsertedMembers(ms, Member(u, 0), at, v);
    }
    var o := Index(ms, g.owner);
    IndexIs(r, if o < at then o else o + 1);
  }

  lemma WithoutKeeps(ms: seq<Member>, u: Uid)
    requires Distinct(ms)
    ensures Distinct(Without(ms, u)) && |Without(ms, u)| <= |ms|
    ensures forall i :: 0 <= i < |Without(ms, u)| ==> Without(ms, u)[i] in ms
    ensures forall v :: Index(Without(ms, u), v) < |Without(ms, u)| <==> Index(ms, v) < |ms| && v != u
  {
    hide Index;
    var r := Without(ms, u);
    var k := Index(ms, u);
    forall v ensures Index(r, v) < |r| <==> Index(ms, v) < |ms| && v != u {
      var i := Index(ms, v);
      if i < |ms| && v != u {
        if k < |ms| { assert r[if i < k then i else i - 1].uid == v; }
      }
      var j := Index(r, v);
      if j < |r| && k < |ms| { assert ms[if j < k then j else j + 1].uid == v; }
    }
  }

  /** Losing a member leaves a sound group, with a new owner if need be. */
  lemma DropOk(g: Group, u: Uid)
    requires GroupOk(g) && Without(g.members, u) != []
    ensures GroupOk(Dropped(g, u))
    ensures forall v :: IsMember(Dropped(g, u), v) <==> IsMember(g, v) && v != u
  {
    hide Index, Without;
    var rest := Without(g.members, u);
    WithoutKeeps(g.members, u);
    if g.owner == u {
      var h := Heir(rest);
      RoleKeeps(rest, h, 0);
    } else {
      var o := Index(g.members, g.owner);
      assert rest[Index(rest, g.owner)] in g.members;
      var i :| 0 <= i < |g.members| && g.members[i] == rest[Index(rest, g.owner)];
      IndexIs(g.members, i);
    }
  }

  // ---- who has which role afterwards --------------------------------------------

  /** Appointing changes the role of that member only, and nobody's place. */
  lemma SetRoleRoles(g: Group, u: Uid, role: nat, v: Uid)
    requires IsMember(g, u) && u != g.owner
    ensures RoleOf(SetRole(g, u, role), v) == if v == u then role else RoleOf(g, v)
    ensures SameRows(g, SetRole(g, u, role)) && SetRole(g, u, role).owner == g.owner
  {
    hide Index;
    RoleKeeps(g.members, u, role);
  }

  /** The same users in the same order. */
  ghost predicate SameRows(g: Group, h: Group)
  {
    |h.members| == |g.members| && forall i :: 0 <= i < |g.members| ==> h.members[i].uid == g.members[i].uid
  }

  /** A hand-over makes `u` the owner and the former owner a sub-admin. */
  lemma HandedOverRoles(g: Group, u: Uid, v: Uid)
    requires GroupOk(g) && IsMember(g, u) && u != g.owner
    ensures RoleOf(HandedOver(g, u), v) == if v == u then 2 else if v == g.owner then 1 else RoleOf(g, v)
    ensures SameRows(g, HandedOver(g, u))
  {
    hide Index;
    RoleKeeps(g.members, u, 0);
    RoleKeeps(WithRole(g.members, u, 0), g.owner, 1);
  }

  /** Who joins is a plain member, in the row where the time of joining puts it. */
  lemma JoinedRoles(g: Group, u: Uid, at: nat, v: Uid)
    requires GroupOk(g) && !IsMember(g, u) && at <= |g.members|
    ensures RoleOf(Joined(g, u, at), v) == if v == u then 0 else RoleOf(g, v)
    ensures Joined(g, u, at).members[at].uid == u && Without(Joined(g, u, at).members, u) == g.members
  {
    hide Index, GroupOk;
    Members(g);
    JoinedUndone(g.members, u, at);
    if v != u { JoinedRow(g.members, u, at, v); }
  }

  lemma Members(g: Group)
    requires GroupOk(g)
    ensures Distinct(g.members) && IsMember(g, g.owner)
  {
  }

  lemma JoinedUndone(ms: seq<Member>, u: Uid, at: nat)
    requires Distinct(ms) && Index(ms, u) == |ms| && at <= |ms|
    ensures var r := ms[..at] + [Member(u, 0)] + ms[at..];
      Distinct(r) && Index(r, u) == at && r[at].uid == u && Without(r, u) == ms
  {
    hide Index, Distinct;
    var r := ms[..at] + [Member(u, 0)] + ms[at..];
    InsertedDistinct(ms, Member(u, 0), at);
    assert r[at] == Member(u, 0);
    IndexIs(r, at);
  }

  lemma JoinedRow(ms: seq<Member>, u: Uid, at: nat, v: Uid)
    requires Distinct(ms) && Index(ms, u) == |ms| && at <= |ms| && v != u
    ensures var r := ms[..at] + [Member(u, 0)] + ms[at..];
      if Index(ms, v) < |ms| then Index(r, v) < |r| && r[Index(r, v)] == ms[Index(ms, v)] else Index(r, v) == |r|
  {
    hide Index, Distinct;
    var r, i := ms[..at] + [Member(u, 0)] + ms[at..], Index(ms, v);
    InsertedMembers(ms, Member(u, 0), at, v);
    if i < |ms| {
      var k := if i < at then i else i + 1;
      InsertedDistinct(ms, Member(u, 0), at);
      assert r[k] == ms[i];
      IndexIs(r, k);
    }
  }

  /** Who leaves is a stranger; the others keep their roles, but for the heir of an owner
      who leaves. */
  lemma DroppedRoles(g: Group, u: Uid, v: Uid)
    requires GroupOk(g) && IsMember(g, u) && Without(g.members, u) != []
    ensures var d := Dropped(g, u);
      RoleOf(d, v) == if v == u then -1 else if v == d.owner then 2 else RoleOf(g, v)
    ensures g.owner != u ==> Dropped(g, u).owner == g.owner
    ensures g.owner == u ==> Inherits(g, u, Dropped(g, u).owner)
  {
    hide Index, Without;
    var rest := Without(g.members, u);
    WithoutKeeps(g.members, u);
    KeptRole(g.members, u, v);
    assert IsMember(g, g.owner);
    if g.owner == u {
      RoleKeeps(rest, Heir(rest), 0);
      HeirInherits(g, u);
      Heiress(rest);
    } else {
      DropOk(g, u);
    }
  }

  lemma Heiress(rest: seq<Member>)
    requires rest != []
    ensures Index(rest, Heir(rest)) < |rest|
  {
    hide Index;
  }

  lemma KeptRole(ms: seq<Member>, u: Uid, v: Uid)
    requires Distinct(ms) && Index(ms, u) < |ms|
    ensures var rest := Without(ms, u);
      && (v != u && Index(ms, v) < |ms| ==> Index(rest, v) < |rest| && rest[Index(rest, v)] == ms[Index(ms, v)])
      && (v == u ==> Index(rest, v) == |rest|)
  {
    hide Index;
    WithoutKeeps(ms, u);
    var k, i, rest := Index(ms, u), Index(ms, v), Without(ms, u);
    if v != u && i < |ms| {
      assert rest[if i < k then i else i - 1] == ms[i];
      IndexIs(rest, if i < k then i else i - 1);
    }
  }

  /** `h` is the sub-admin who joined first, or, if there is none, the member who did, the
      owner who leaves aside. */
  ghost predicate Inherits(g: Group, owner: Uid, h: Uid)
  {
    exists k :: 0 <= k < |g.members| && g.members[k].uid == h != owner
      && if g.members[k].role == 1 then forall j :: 0 <= j < k ==> g.members[j].role != 1
         else (forall j :: 0 <= j < |g.members| ==> g.members[j].role != 1) && (forall j :: 0 <= j < k ==> g.members[j].uid == owner)
  }

  lemma HeirInherits(g: Group, u: Uid)
    requires GroupOk(g) && g.owner == u && Without(g.members, u) != []
    ensures Inherits(g, u, Heir(Without(g.members, u)))
  {
    hide Index, FirstAdmin;
    var ms, rest, o := g.members, Without(g.members, u), Index(g.members, u);
    var i := FirstAdmin(rest);
    if i < |rest| {
      var k := if i < o then i else i + 1;
      forall j | 0 <= j < k ensures ms[j].role != 1 {
        if j != o { assert ms[j] == rest[if j < o then j else j - 1]; }
      }
      assert ms[k] == rest[i];
      IndexIs(ms, k);
    } else {
      var k := if o == 0 then 1 else 0;
      forall j | 0 <= j < |ms| ensures ms[j].role != 1 {
        if j != o { assert ms[j] == rest[if j < o then j else j - 1]; }
      }
      assert ms[k] == rest[0];
      IndexIs(ms, k);
    }
  }

  // ---- the table of groups ------------------------------------------------------

  type Groups = map<Gid, Group>

  ghost predicate GroupsOk(gs: Groups)
  {
    "" !in gs && forall g :: g in gs ==> GroupOk(gs[g])
  }

  /** Every waiting group event is for a current member. */
  ghost predicate Addressed(gs: Groups, es: seq<Event>)
  {
    forall e :: e in es && e.gid != "" ==> e.gid in gs && IsMember(gs[e.gid], e.to)
  }

  ghost function Memberships(gs: Groups, u: Uid): (s: set<Gid>)
  {
    set g | g in gs && IsMember(gs[g], u)
  }

  ghost predicate FewGroups(gs: Groups)
  {
    forall u :: |Memberships(gs, u)| <= GROUPS_PER_USER
  }

  /** Replacing a group by one with no new members. */
  lemma FewerMembers(gs: Groups, gs': Groups)
    requires FewGroups(gs) && (forall g, u :: g in gs' && IsMember(gs'[g], u) ==> g in gs && IsMember(gs[g], u))
    ensures FewGroups(gs')
  {
    hide IsMember;
    forall u ensures |Memberships(gs', u)| <= GROUPS_PER_USER {
      SubsetSize(Memberships(gs', u), Memberships(gs, u));
    }
  }

  /** One more member in one group. */
  lemma OneMoreMember(gs: Groups, g: Gid, grp: Group, who: Uid)
    requires FewGroups(gs) && |Memberships(gs, who)| < GROUPS_PER_USER
    requires forall u :: IsMember(grp, u) ==> u == who || (g in gs && IsMember(gs[g], u))
    ensures FewGroups(gs[g := grp])
  {
    hide IsMember;
    var gs' := gs[g := grp];
    forall u ensures |Memberships(gs', u)| <= GROUPS_PER_USER {
      if u == who {
        SubsetSize(Memberships(gs', u), Memberships(gs, u) + {g});
      } else {
        SubsetSize(Memberships(gs', u), Memberships(gs, u));
      }
    }
  }
}

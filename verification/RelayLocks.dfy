/** Passwords of groups in the message relay, and the locks that wrong guesses close:
    on one user for one group, on one user for all groups, and on one group for
    everybody. Times are seconds. */
module RelayLocks {
  import opened Common
  import opened RelayMail

  const USER_TRIES: nat := 5
  const USER_LOCK := 600.0
  const ANY_TRIES: nat := 25
  const ANY_LOCK := 3600.0
  const ANY_WINDOW := 3600.0
  const GROUP_TRIES: nat := 40
  const GROUP_WINDOW := 3600.0
  const GROUP_LOCK := 1800.0
  const MAX_GNAME := 30

  // ---- names and passwords ----------------------------------------------------------

  /** White space as the server strips it. */
  predicate Blank(c: char)
  {
    || '\U{0009}' <= c <= '\U{000D}' || '\U{001C}' <= c <= '\U{0020}' || c == '\U{0085}' || c == '\U{00A0}'
    || c == '\U{1680}' || '\U{2000}' <= c <= '\U{200A}' || c == '\U{2028}' || c == '\U{2029}'
    || c == '\U{202F}' || c == '\U{205F}' || c == '\U{3000}'
  }

  ghost const BLANKS: set<int> := {
    9, 10, 11, 12, 13, 28, 29, 30, 31, 32, 0x85, 0xA0, 0x1680, 0x2000, 0x2001, 0x2002, 0x2003, 0x2004, 0x2005,
    0x2006, 0x2007, 0x2008, 0x2009, 0x200A, 0x2028, 0x2029, 0x202F, 0x205F, 0x3000}

  lemma BlankIs(c: char)
    ensures Blank(c) <==> c as int in BLANKS
  {
  }

  function Strip(s: string): (r: string)
    ensures r != [] ==> !Blank(r[0]) && !Blank(r[|r| - 1])
    ensures r == [] <==> forall i :: 0 <= i < |s| ==> Blank(s[i])
    decreases |s|
  {
    if s == [] then []
    else if Blank(s[0]) then
      assert forall i :: 0 < i < |s| ==> s[i] == s[1..][i - 1];
      Strip(s[1..])
    else if Blank(s[|s| - 1]) then
      assert s[..|s| - 1][0] == s[0];
      Strip(s[..|s| - 1])
    else s
  }

  /** Blanks around a text that neither begins nor ends with one are stripped, and nothing
      else. */
  lemma {:induction false} StripBack(a: string, s: string, b: string)
    requires s == "" || (!Blank(s[0]) && !Blank(s[|s| - 1]))
    requires (forall i :: 0 <= i < |a| ==> Blank(a[i])) && (forall i :: 0 <= i < |b| ==> Blank(b[i]))
    ensures Strip(a + s + b) == s
    decreases |a| + |b|
  {
    hide Blank;
    if a != "" {
      assert (a + s + b)[1..] == a[1..] + s + b;
      StripBack(a[1..], s, b);
    } else if s == "" {
      assert a + s + b == b;
    } else if b != "" {
      assert a + s + b == s + b && (s + b)[..|s + b| - 1] == a + s + b[..|b| - 1];
      StripBack(a, s, b[..|b| - 1]);
    } else {
      assert a + s + b == s;
    }
  }

  ghost function GroupName(name: string): (r: string)
    ensures |r| <= MAX_GNAME
  {
    var s := Strip(name);
    if |s| > MAX_GNAME then s[..MAX_GNAME] else s
  }

  predicate SixDigits(pw: string)
  {
    |pw| == 6 && forall i :: 0 <= i < 6 ==> '0' <= pw[i] <= '9'
  }

  /** Every digit is the previous one plus `d`. */
  predicate Steps(pw: string, d: int)
    requires |pw| == 6
  {
    forall i :: 0 <= i < 5 ==> pw[i + 1] as int == pw[i] as int + d
  }

  predicate Weak(pw: string)
    requires |pw| == 6
  {
    Steps(pw, 0) || Steps(pw, 1) || Steps(pw, -1) || pw in ["123123", "121212", "112233", "012345", "654321"]
  }

  /** The simple passwords: one digit six times, six digits in order, and three more. */
  ghost const SIMPLE: seq<string> := [
    "000000", "111111", "222222", "333333", "444444", "555555", "666666", "777777", "888888", "999999",
    "012345", "123456", "234567", "345678", "456789", "543210", "654321", "765432", "876543", "987654",
    "123123", "121212", "112233"]

  /** Six digits from `k` on, `d` apart. */
  ghost function Digits(k: int, d: int): (s: string)
    requires 0 <= k <= 9 && 0 <= k + 5 * d <= 9
  {
    seq(6, i requires 0 <= i < 6 => (48 + k + i * d) as char)
  }

  lemma SimpleSteps(k: int)
    ensures 0 <= k < 10 ==> SIMPLE[k] == Digits(k, 0)
    ensures 0 <= k < 5 ==> SIMPLE[10 + k] == Digits(k, 1) && SIMPLE[15 + k] == Digits(k + 5, -1)
  {
    if k == 0 {} else if k == 1 {} else if k == 2 {} else if k == 3 {} else if k == 4 {}
    else if k == 5 {} else if k == 6 {} else if k == 7 {} else if k == 8 {} else if k == 9 {}
  }

  lemma StepsAre(pw: string, d: int)
    requires SixDigits(pw) && Steps(pw, d) && d in {0, 1, -1}
    ensures var k := pw[0] as int - 48; 0 <= k + 5 * d <= 9 && pw == Digits(k, d)
  {
    assert pw[1] as int == pw[0] as int + d && pw[2] as int == pw[1] as int + d && pw[3] as int == pw[2] as int + d;
    assert pw[4] as int == pw[3] as int + d && pw[5] as int == pw[4] as int + d;
  }

  lemma WeakIsSimple(pw: string)
    requires SixDigits(pw)
    ensures Weak(pw) <==> pw in SIMPLE
  {
    hide Weak, SIMPLE;
    if Weak(pw) { Listed(pw); }
    if pw in SIMPLE {
      var j :| 0 <= j < |SIMPLE| && SIMPLE[j] == pw;
      SimpleAt(j);
    }
  }

  lemma Listed(pw: string)
    requires SixDigits(pw) && Weak(pw)
    ensures pw in SIMPLE
  {
    hide SIMPLE, Steps, Digits;
    SimpleSize();
    var k := pw[0] as int - 48;
    if Steps(pw, 0) {
      StepsAre(pw, 0);
      SimpleSteps(k);
      assert pw == SIMPLE[k];
    } else if Steps(pw, 1) {
      StepsAre(pw, 1);
      SimpleSteps(k);
      assert pw == SIMPLE[10 + k];
    } else if Steps(pw, -1) {
      StepsAre(pw, -1);
      SimpleSteps(k - 5);
      assert pw == SIMPLE[10 + k];
    }
  }

  lemma SimpleSize()
    ensures |SIMPLE| == 23 && forall s :: s in ["123123", "121212", "112233", "012345", "654321"] ==> s in SIMPLE
  {
    assert SIMPLE[20] == "123123" && SIMPLE[21] == "121212" && SIMPLE[22] == "112233" && SIMPLE[10] == "012345" && SIMPLE[16] == "654321";
  }

  lemma SimpleAt(j: nat)
    requires j < |SIMPLE|
    ensures |SIMPLE[j]| == 6 && Weak(SIMPLE[j])
  {
    if j < 20 {
      hide SIMPLE;
      SimpleSize();
      SimpleSteps(if j < 10 then j else if j < 15 then j - 10 else j - 15);
    }
  }

  predicate Strong(pw: string)
  {
    SixDigits(pw) && !Weak(pw)
  }

  /** The password a group gets: the given one if it will do, the generated one if none
      is given. */
  ghost function Chosen(given: string, generated: string): (r: Option<string>)
    requires Strong(generated)
    ensures r.Some? ==> Strong(r.value)
  {
    var pw := Strip(given);
    if pw == "" then Some(generated) else if Strong(pw) then Some(pw) else None
  }

  // ---- counters of wrong guesses ----------------------------------------------------

  /** Wrong guesses counted so far, since when, and until when there is a lock. */
  datatype Counter = Counter(count: nat, start: real, until: real)

  /** A lock that has less than a second left is open: the seconds left are rounded down. */
  ghost predicate Locked(c: Counter, now: real) { c.until - now >= 1.0 }

  /** One user's wrong guess for one group. */
  ghost function PairMiss(c: Counter, now: real): (r: Counter)
  {
    if c.count + 1 >= USER_TRIES then Counter(0, c.start, now + USER_LOCK) else c.(count := c.count + 1)
  }

  /** One user's wrong guess for any group, counted from the beginning of its window. */
  ghost function AnyMiss(c: Counter, now: real): (r: Counter)
  {
    var b := AnyFrom(c, now);
    if b.count + 1 >= ANY_TRIES then Counter(0, b.start, now + ANY_LOCK) else b.(count := b.count + 1)
  }

  ghost function AnyFrom(c: Counter, now: real): (r: Counter)
  {
    if now - c.start > ANY_WINDOW then Counter(0, now, c.until) else c
  }

  /** Anybody's wrong guess for one group; these times are kept in whole seconds. */
  ghost function GroupMiss(c: Counter, now: real): (r: Counter)
  {
    var b := GroupFrom(c, now);
    if b.count + 1 >= GROUP_TRIES then Counter(0, b.start, Seconds(now + GROUP_LOCK)) else Counter(b.count + 1, b.start, 0.0)
  }

  ghost function GroupFrom(c: Counter, now: real): (r: Counter)
  {
    if now - c.start <= GROUP_WINDOW then c else Counter(0, Seconds(now), c.until)
  }

  function Seconds(t: real): (w: real)
    ensures w <= t < w + 1.0
  {
    t.Floor as real
  }

  // ---- how fast one can guess ---------------------------------------------------------

  /** How a counter is run: up to `limit` guesses, then nothing for longer than `lock`;
      with a window, counting begins anew for a guess longer than `window` after the
      beginning. */
  datatype Rule = Rule(limit: nat, lock: real, window: Option<real>)

  const PAIR := Rule(USER_TRIES, USER_LOCK - 1.0, None)
  const ANY := Rule(ANY_TRIES, ANY_LOCK - 1.0, Some(ANY_WINDOW))
  const GROUP := Rule(GROUP_TRIES, GROUP_LOCK - 2.0, Some(GROUP_WINDOW))

  /** A wrong guess: when, as the how manieth, and since when they were counted. */
  datatype Miss = Miss(at: real, count: nat, start: real)

  ghost predicate Follows(a: Miss, b: Miss, r: Rule)
  {
    && a.at <= b.at
    && if a.count == r.limit then b.count == 1 && b.at > a.at + r.lock
       else (b.count == a.count + 1 && b.start == a.start)
            || (r.window.Some? && b.count == 1 && b.at > a.start + r.window.value && b.at < b.start + 1.0)
  }

  ghost predicate Paced(h: seq<Miss>, r: Rule)
  {
    && (forall i :: 0 <= i < |h| ==> 1 <= h[i].count <= r.limit)
    && (forall i :: 0 < i < |h| ==> Follows(h[i - 1], h[i], r))
  }

  lemma {:induction false} Later(h: seq<Miss>, r: Rule, i: nat, j: nat)
    requires Paced(h, r) && i <= j < |h|
    ensures h[i].at <= h[j].at
    decreases j
  {
    if i < j {
      Later(h, r, i, j - 1);
      assert Follows(h[j - 1], h[j], r);
    }
  }

  /** Counting begins anew at the latest when the limit is reached. */
  lemma {:induction false} Restart(h: seq<Miss>, r: Rule, j: nat) returns (k: nat)
    requires Paced(h, r) && j < |h| && j + r.limit + 1 - h[j].count < |h|
    ensures j < k <= j + r.limit + 1 - h[j].count && h[k].count == 1
    ensures h[k - 1].count == h[j].count + (k - 1 - j) && h[k - 1].start == h[j].start
    decreases r.limit + 1 - h[j].count
  {
    assert Follows(h[j], h[j + 1], r);
    if h[j + 1].count == 1 {
      k := j + 1;
    } else {
      k := Restart(h, r, j + 1);
    }
  }

  /** Without a window: one guess more than the limit takes longer than the lock. */
  lemma SlowPlain(h: seq<Miss>, r: Rule, i: nat)
    requires Paced(h, r) && r.window.None? && i + r.limit < |h|
    ensures h[i + r.limit].at > h[i].at + r.lock
  {
    var k := Restart(h, r, i);
    assert Follows(h[k - 1], h[k], r);
    Later(h, r, i, k - 1);
    Later(h, r, k, i + r.limit);
  }

  /** With one: twice the limit does. */
  lemma SlowWindow(h: seq<Miss>, r: Rule, i: nat)
    requires Paced(h, r) && r.window.Some? && r.lock <= r.window.value - 1.0 && i + 2 * r.limit - 1 < |h| && r.limit > 0
    ensures h[i + 2 * r.limit - 1].at > h[i].at + r.lock
  {
    var end := i + 2 * r.limit - 1;
    var k := Restart(h, r, i);
    assert Follows(h[k - 1], h[k], r);
    Later(h, r, i, k - 1);
    Later(h, r, k, end);
    if h[k - 1].count != r.limit {
      var k' := Restart(h, r, k);
      assert Follows(h[k' - 1], h[k'], r);
      Later(h, r, k, k' - 1);
      Later(h, r, k', end);
    }
  }

  /** A counter stands where the guesses so far have put it. */
  ghost predicate Tracks(c: Counter, h: seq<Miss>, r: Rule, now: real)
  {
    && Paced(h, r) && c.count < r.limit
    && if h == [] then c.count == 0 && c.until == 0.0 else
         var last := h[|h| - 1];
         && last.at <= now
         && if last.count == r.limit then c.count == 0 && c.until == Release(r, last.at)
            else c.count == last.count && c.start == last.start && c.until < last.at + 1.0
  }

  /** Until when a lock closes; a group's time is kept in whole seconds. */
  ghost function Release(r: Rule, at: real): (t: real)
    ensures r in {PAIR, ANY, GROUP} ==> t >= at + r.lock + 1.0
  {
    if r == GROUP then Seconds(at + GROUP_LOCK) else at + r.lock + 1.0
  }

  ghost function Entry(b: Counter, now: real): Miss { Miss(now, b.count + 1, b.start) }

  lemma PairMissOk(c: Counter, h: seq<Miss>, now: real)
    requires Tracks(c, h, PAIR, now) && !Locked(c, now)
    ensures Tracks(PairMiss(c, now), h + [Entry(c, now)], PAIR, now)
  {
  }

  lemma AnyMissOk(c: Counter, h: seq<Miss>, now: real)
    requires Tracks(c, h, ANY, now) && !Locked(c, now)
    ensures Tracks(AnyMiss(c, now), h + [Entry(AnyFrom(c, now), now)], ANY, now)
  {
  }

  lemma GroupMissOk(c: Counter, h: seq<Miss>, now: real)
    requires 0.0 <= now && Tracks(c, h, GROUP, now) && !Locked(c, now)
    ensures Tracks(GroupMiss(c, now), h + [Entry(GroupFrom(c, now), now)], GROUP, now)
  {
  }

  // ---- the doors of all groups --------------------------------------------------------

  /** What the server keeps of a group for admission. */
  datatype Door = Door(name: string, password: string, misses: Counter)

  ghost predicate DoorOk(d: Door) { d.name != "" && |d.name| <= MAX_GNAME && Strong(d.password) }

  ghost function Of<K>(m: map<K, Counter>, k: K, now: real): Counter
  {
    if k in m then m[k] else Counter(0, now, 0.0)
  }

  ghost function Past<K>(m: map<K, seq<Miss>>, k: K): seq<Miss>
  {
    if k in m then m[k] else []
  }

  ghost predicate AllTrack<K(!new)>(m: map<K, Counter>, past: map<K, seq<Miss>>, r: Rule, now: real)
  {
    forall k :: if k in m then Tracks(m[k], Past(past, k), r, now) else Past(past, k) == []
  }

  lemma TracksLater(c: Counter, h: seq<Miss>, r: Rule, now: real, later: real)
    requires Tracks(c, h, r, now) && now <= later
    ensures Tracks(c, h, r, later)
  {
  }

  lemma AllLater<K(!new)>(m: map<K, Counter>, past: map<K, seq<Miss>>, r: Rule, now: real, later: real)
    requires AllTrack(m, past, r, now) && now <= later
    ensures AllTrack(m, past, r, later)
  {
    hide Tracks, Past;
    forall k | k in m ensures Tracks(m[k], Past(past, k), r, later) {
      TracksLater(m[k], Past(past, k), r, now, later);
    }
  }

  lemma AllSet<K(!new)>(m: map<K, Counter>, past: map<K, seq<Miss>>, past': map<K, seq<Miss>>, r: Rule, now: real, k: K, c: Counter)
    requires AllTrack(m, past, r, now) && Tracks(c, Past(past', k), r, now)
    requires forall j :: j != k ==> Past(past', j) == Past(past, j)
    ensures AllTrack(m[k := c], past', r, now)
  {
    hide Tracks, Past;
  }

  lemma AllDrop<K(!new)>(m: map<K, Counter>, past: map<K, seq<Miss>>, r: Rule, now: real, k: K)
    requires AllTrack(m, past, r, now)
    ensures AllTrack(m - {k}, past - {k}, r, now)
  {
    hide Tracks;
  }

  ghost function Counters(doors: map<Gid, Door>): map<Gid, Counter>
  {
    map g | g in doors :: doors[g].misses
  }

  lemma CountersSet(doors: map<Gid, Door>, g: Gid, d: Door)
    ensures Counters(doors[g := d]) == Counters(doors)[g := d.misses]
    ensures Counters(doors - {g}) == Counters(doors) - {g}
  {
  }

  lemma UserCounted(tries: map<(Uid, Gid), Counter>, pairs: map<(Uid, Gid), seq<Miss>>, p: (Uid, Gid), now: real)
    requires AllTrack(tries, pairs, PAIR, now) && !Locked(Of(tries, p, now), now)
    ensures var t := Of(tries, p, now);
      AllTrack(tries[p := PairMiss(t, now)], pairs[p := Past(pairs, p) + [Entry(t, now)]], PAIR, now)
  {
    hide Tracks, PairMiss, Locked;
    var t := Of(tries, p, now);
    if p !in tries { NoneYet(t, PAIR, now); }
    PairMissOk(t, Past(pairs, p), now);
    AllSet(tries, pairs, pairs[p := Past(pairs, p) + [Entry(t, now)]], PAIR, now, p, PairMiss(t, now));
  }

  lemma AnyCounted(tallies: map<Uid, Counter>, past: map<Uid, seq<Miss>>, u: Uid, now: real)
    requires AllTrack(tallies, past, ANY, now) && !Locked(Of(tallies, u, now), now)
    ensures var a := Of(tallies, u, now);
      AllTrack(tallies[u := AnyMiss(a, now)], past[u := Past(past, u) + [Entry(AnyFrom(a, now), now)]], ANY, now)
  {
    hide Tracks, AnyMiss, Locked, AnyFrom;
    var a := Of(tallies, u, now);
    if u !in tallies { NoneYet(a, ANY, now); }
    AnyMissOk(a, Past(past, u), now);
    AllSet(tallies, past, past[u := Past(past, u) + [Entry(AnyFrom(a, now), now)]], ANY, now, u, AnyMiss(a, now));
  }

  lemma GroupCounted(doors: map<Gid, Door>, past: map<Gid, seq<Miss>>, g: Gid, now: real)
    requires 0.0 <= now && AllTrack(Counters(doors), past, GROUP, now) && g in doors && !Locked(doors[g].misses, now)
    ensures var d := doors[g];
      AllTrack(Counters(doors[g := d.(misses := GroupMiss(d.misses, now))]),
        past[g := Past(past, g) + [Entry(GroupFrom(d.misses, now), now)]], GROUP, now)
  {
    hide Tracks, GroupMiss, Locked, GroupFrom;
    var d := doors[g];
    assert Tracks(Counters(doors)[g], Past(past, g), GROUP, now);
    GroupMissOk(d.misses, Past(past, g), now);
    var past' := past[g := Past(past, g) + [Entry(GroupFrom(d.misses, now), now)]];
    AllSet(Counters(doors), past, past', GROUP, now, g, GroupMiss(d.misses, now));
    CountersSet(doors, g, d.(misses := GroupMiss(d.misses, now)));
  }

  lemma NoneYet(c: Counter, r: Rule, now: real)
    requires c.count == 0 && c.until == 0.0 && r.limit > 0
    ensures Tracks(c, [], r, now)
  {
  }

  /** A group's counter begins anew. */
  lemma NewCounter(doors: map<Gid, Door>, past: map<Gid, seq<Miss>>, past': map<Gid, seq<Miss>>, now: real, g: Gid, d: Door)
    requires AllTrack(Counters(doors), past, GROUP, now) && d.misses.count == 0 && d.misses.until == 0.0
    requires past' == past - {g} || (past' == past && g !in doors)
    ensures AllTrack(Counters(doors[g := d]), past', GROUP, now)
  {
    hide Tracks;
    NoneYet(d.misses, GROUP, now);
    assert g !in Counters(doors) ==> Past(past, g) == [];
    AllSet(Counters(doors), past, past', GROUP, now, g, d.misses);
    CountersSet(doors, g, d);
  }

  lemma PasswordForm(d: Door)
    requires DoorOk(d)
    ensures SixDigits(d.password)
  {
  }

  lemma SameDoor(d: Door, c: Counter)
    ensures DoorOk(d.(misses := c)) == DoorOk(d)
  {
  }

  /** The tables the server looks at and changes when somebody tries a password. */
  datatype Locks = Locks(doors: map<Gid, Door>, tries: map<(Uid, Gid), Counter>, tallies: map<Uid, Counter>)

  ghost predicate IsShut(l: Locks, uid: Uid, gid: Gid, now: real)
  {
    || Locked(Of(l.tries, (uid, gid), now), now) || Locked(Of(l.tallies, uid, now), now)
    || (gid in l.doors && Locked(l.doors[gid].misses, now))
  }

  /** The tables afterwards, and whether the password was right. */
  ghost function Tried(l: Locks, uid: Uid, gid: Gid, pw: string, now: real): (r: (Locks, bool))
  {
    if IsShut(l, uid, gid, now) then (l, false)
    else if gid in l.doors && l.doors[gid].password == pw then (l.(tries := l.tries - {(uid, gid)}), true)
    else
      var t, a := Of(l.tries, (uid, gid), now), Of(l.tallies, uid, now);
      var doors :=
        if gid !in l.doors then l.doors
        else l.doors[gid := l.doors[gid].(misses := GroupMiss(l.doors[gid].misses, now))];
      (Locks(doors, l.tries[(uid, gid) := PairMiss(t, now)], l.tallies[uid := AnyMiss(a, now)]), false)
  }

  /** Which locks are closed. */
  lemma ShutIs(l: Locks, uid: Uid, gid: Gid, now: real)
    requires 0.0 <= now
    ensures IsShut(l, uid, gid, now) <==>
      || ((uid, gid) in l.tries && now <= l.tries[(uid, gid)].until - 1.0)
      || (uid in l.tallies && now <= l.tallies[uid].until - 1.0)
      || (gid in l.doors && now <= l.doors[gid].misses.until - 1.0)
  {
  }

  class Gate {
    var doors: map<Gid, Door>
    var tries: map<(Uid, Gid), Counter>
    var tallies: map<Uid, Counter>
    // the wrong guesses that were looked at: of a user for a group since its last right
    // one, of a user, and for a group since it got its password
    ghost var byPair: map<(Uid, Gid), seq<Miss>>
    ghost var byUser: map<Uid, seq<Miss>>
    ghost var byGroup: map<Gid, seq<Miss>>
    ghost var clock: real

    ghost predicate Valid()
      reads this
    {
      && 0.0 <= clock && AllTrack(tries, byPair, PAIR, clock) && AllTrack(tallies, byUser, ANY, clock)
      && AllTrack(Counters(doors), byGroup, GROUP, clock)
      && forall g :: g in doors ==> DoorOk(doors[g])
    }

    constructor ()
      ensures Valid() && doors == map[] && tries == map[] && tallies == map[] && clock == 0.0
      ensures byPair == map[] && byUser == map[] && byGroup == map[]
    {
      doors, tries, tallies := map[], map[], map[];
      byPair, byUser, byGroup, clock := map[], map[], map[], 0.0;
    }

    ghost function Table(): Locks
      reads this
    {
      Locks(doors, tries, tallies)
    }

    ghost predicate Shut(uid: Uid, gid: Gid, now: real)
      reads this
    {
      IsShut(Table(), uid, gid, now)
    }

    /** Looks at a password unless a lock is closed. The right one opens; a wrong one is
        counted for the user and the group, for the user, and for the group. */
    method Verify(uid: Uid, gid: Gid, pw: string, now: real) returns (ok: bool)
      requires Valid() && clock <= now
      modifies this
      ensures Valid() && clock == now && (Table(), ok) == Tried(old(Table()), uid, gid, pw, now)
      ensures ok <==> !old(Shut(uid, gid, now)) && gid in old(doors) && old(doors)[gid].password == pw
      ensures old(Shut(uid, gid, now)) ==>
        && doors == old(doors) && tries == old(tries) && tallies == old(tallies)
        && byPair == old(byPair) && byUser == old(byUser) && byGroup == old(byGroup)
      ensures ok ==>
        && doors == old(doors) && tries == old(tries) - {(uid, gid)} && tallies == old(tallies)
        && byPair == old(byPair) - {(uid, gid)} && byUser == old(byUser) && byGroup == old(byGroup)
      ensures !ok && !old(Shut(uid, gid, now)) ==>
        var t, a := Of(old(tries), (uid, gid), now), Of(old(tallies), uid, now);
        && tries == old(tries)[(uid, gid) := PairMiss(t, now)] && tallies == old(tallies)[uid := AnyMiss(a, now)]
        && byPair == old(byPair)[(uid, gid) := Past(old(byPair), (uid, gid)) + [Entry(t, now)]]
        && byUser == old(byUser)[uid := Past(old(byUser), uid) + [Entry(AnyFrom(a, now), now)]]
        && if gid !in old(doors) then doors == old(doors) && byGroup == old(byGroup) else
             var d := old(doors)[gid];
             && doors == old(doors)[gid := d.(misses := GroupMiss(d.misses, now))]
             && byGroup == old(byGroup)[gid := Past(old(byGroup), gid) + [Entry(GroupFrom(d.misses, now), now)]]
    {
      hide AllTrack, DoorOk, Locked, PairMiss, AnyMiss, GroupMiss, AnyFrom, GroupFrom, Entry, Counters, Of, Past;
      AllLater(tries, byPair, PAIR, clock, now);
      AllLater(tallies, byUser, ANY, clock, now);
      AllLater(Counters(doors), byGroup, GROUP, clock, now);
      var none := Counter(0, now, 0.0);
      var t, a := if (uid, gid) in tries then tries[(uid, gid)] else none, if uid in tallies then tallies[uid] else none;
      ClockRuns(this);
      ShutIs(Table(), uid, gid, now);
      clock := now;
      if t.until - now >= 1.0 || a.until - now >= 1.0 || (gid in doors && doors[gid].misses.until - now >= 1.0) {
        return false;
      }
      if gid in doors { PasswordForm(doors[gid]); }
      if SixDigits(pw) && gid in doors && doors[gid].password == pw {
        AllDrop(tries, byPair, PAIR, now, (uid, gid));
        tries := tries - {(uid, gid)};
        byPair := byPair - {(uid, gid)};
        return true;
      }
      CountWrong(uid, gid, now);
      ok := false;
    }

    method CountWrong(uid: Uid, gid: Gid, now: real)
      requires Valid() && clock == now && !Shut(uid, gid, now)
      modifies this
      ensures Valid() && clock == now
      ensures var t, a := Of(old(tries), (uid, gid), now), Of(old(tallies), uid, now);
        && tries == old(tries)[(uid, gid) := PairMiss(t, now)] && tallies == old(tallies)[uid := AnyMiss(a, now)]
        && byPair == old(byPair)[(uid, gid) := Past(old(byPair), (uid, gid)) + [Entry(t, now)]]
        && byUser == old(byUser)[uid := Past(old(byUser), uid) + [Entry(AnyFrom(a, now), now)]]
      ensures if gid !in old(doors) then doors == old(doors) && byGroup == old(byGroup) else
        var d := old(doors)[gid];
        && doors == old(doors)[gid := d.(misses := GroupMiss(d.misses, now))]
        && byGroup == old(byGroup)[gid := Past(old(byGroup), gid) + [Entry(GroupFrom(d.misses, now), now)]]
    {
      hide AllTrack, DoorOk, Locked, PairMiss, AnyMiss, GroupMiss, AnyFrom, GroupFrom, Entry, Counters, Of, Past;
      UserCounted(tries, byPair, (uid, gid), now);
      AnyCounted(tallies, byUser, uid, now);
      ghost var t, a := Of(tries, (uid, gid), now), Of(tallies, uid, now);
      CountForUser(uid, gid, now);
      byPair := byPair[(uid, gid) := Past(byPair, (uid, gid)) + [Entry(t, now)]];
      byUser := byUser[uid := Past(byUser, uid) + [Entry(AnyFrom(a, now), now)]];
      if gid in doors {
        CountForGroup(gid, now);
      }
    }

    method CountForUser(uid: Uid, gid: Gid, now: real)
      modifies `tries, `tallies
      ensures tries == old(tries)[(uid, gid) := PairMiss(Of(old(tries), (uid, gid), now), now)]
      ensures tallies == old(tallies)[uid := AnyMiss(Of(old(tallies), uid, now), now)]
    {
      var none := Counter(0, now, 0.0);
      var t, a := if (uid, gid) in tries then tries[(uid, gid)] else none, if uid in tallies then tallies[uid] else none;
      t := t.(count := t.count + 1);
      if t.count >= USER_TRIES {
        t := t.(count := 0, until := now + USER_LOCK);
      }
      if now - a.start > ANY_WINDOW {
        a := a.(count := 0, start := now);
      }
      a := a.(count := a.count + 1);
      if a.count >= ANY_TRIES {
        a := a.(count := 0, until := now + ANY_LOCK);
      }
      tries, tallies := tries[(uid, gid) := t], tallies[uid := a];
    }

    method CountForGroup(gid: Gid, now: real)
      requires 0.0 <= now && gid in doors && AllTrack(Counters(doors), byGroup, GROUP, now) && !Locked(doors[gid].misses, now)
      requires forall g :: g in doors ==> DoorOk(doors[g])
      modifies `doors, `byGroup
      ensures AllTrack(Counters(doors), byGroup, GROUP, now) && forall g :: g in doors ==> DoorOk(doors[g])
      ensures var d := old(doors)[gid];
        && doors == old(doors)[gid := d.(misses := GroupMiss(d.misses, now))]
        && byGroup == old(byGroup)[gid := Past(old(byGroup), gid) + [Entry(GroupFrom(d.misses, now), now)]]
    {
      hide AllTrack, DoorOk, Locked, Entry, Counters, Past;
      var d := doors[gid];
      GroupCounted(doors, byGroup, gid, now);
      SameDoor(d, GroupMiss(d.misses, now));
      byGroup := byGroup[gid := Past(byGroup, gid) + [Entry(GroupFrom(d.misses, now), now)]];
      var fails, win := d.misses.count + 1, d.misses.start;
      if now - d.misses.start > GROUP_WINDOW {
        fails, win := 1, Seconds(now);
      }
      var locked := if fails >= GROUP_TRIES then Seconds(now + GROUP_LOCK) else 0.0;
      doors := doors[gid := d.(misses := Counter(if fails >= GROUP_TRIES then 0 else fails, win, locked))];
    }

    /** A new group gets its door. */
    method Add(gid: Gid, name: string, pw: string)
      requires Valid() && gid !in doors && DoorOk(Door(name, pw, Counter(0, 0.0, 0.0)))
      modifies this
      ensures Valid() && doors == old(doors)[gid := Door(name, pw, Counter(0, 0.0, 0.0))]
      ensures tries == old(tries) && tallies == old(tallies) && clock == old(clock)
      ensures byPair == old(byPair) && byUser == old(byUser) && byGroup == old(byGroup)
    {
      hide AllTrack, DoorOk;
      var d := Door(name, pw, Counter(0, 0.0, 0.0));
      NewCounter(doors, byGroup, byGroup, clock, gid, d);
      doors := doors[gid := d];
    }

    /** A new password opens the group's lock and forgets its wrong guesses. */
    method Change(gid: Gid, pw: string)
      requires Valid() && gid in doors && Strong(pw)
      modifies this
      ensures Valid() && clock == old(clock)
      ensures var d := old(doors)[gid]; doors == old(doors)[gid := d.(password := pw, misses := Counter(0, d.misses.start, 0.0))]
      ensures tries == old(tries) && tallies == old(tallies)
      ensures byPair == old(byPair) && byUser == old(byUser) && byGroup == old(byGroup) - {gid}
    {
      hide AllTrack, Strong;
      var d := doors[gid].(password := pw, misses := Counter(0, doors[gid].misses.start, 0.0));
      NewCounter(doors, byGroup, byGroup - {gid}, clock, gid, d);
      doors := doors[gid := d];
      byGroup := byGroup - {gid};
    }

    method Forget(gid: Gid)
      requires Valid()
      modifies this
      ensures Valid() && doors == old(doors) - {gid} && clock == old(clock)
      ensures tries == old(tries) && tallies == old(tallies)
      ensures byPair == old(byPair) && byUser == old(byUser) && byGroup == old(byGroup) - {gid}
    {
      hide AllTrack, DoorOk;
      AllDrop(Counters(doors), byGroup, GROUP, clock, gid);
      CountersSet(doors, gid, Door("", "", Counter(0, 0.0, 0.0)));
      doors := doors - {gid};
      byGroup := byGroup - {gid};
    }
  }

  /** Any `n + 1` guesses in a row take longer than `t`. */
  ghost predicate Slow(h: seq<Miss>, n: nat, t: real)
  {
    forall i: nat :: i + n < |h| ==> h[i + n].at > h[i].at + t
  }

  /** However long the server runs and whoever guesses: six wrong guesses of one user for
      one group take more than 599 seconds, fifty of one user for all groups more than 3599,
      and eighty of all users for one group more than 1798. */
  lemma GuessingIsSlow(g: Gate, uid: Uid, gid: Gid)
    requires g.Valid()
    ensures Slow(Past(g.byPair, (uid, gid)), 5, 599.0)
    ensures Slow(Past(g.byUser, uid), 49, 3599.0)
    ensures Slow(Past(g.byGroup, gid), 79, 1798.0)
  {
    hide AllTrack, Slow, Past;
    AllPaced(g.tries, g.byPair, PAIR, g.clock, (uid, gid));
    AllPaced(g.tallies, g.byUser, ANY, g.clock, uid);
    AllPaced(Counters(g.doors), g.byGroup, GROUP, g.clock, gid);
    PacedIsSlow(Past(g.byPair, (uid, gid)), PAIR);
    PacedIsSlow(Past(g.byUser, uid), ANY);
    PacedIsSlow(Past(g.byGroup, gid), GROUP);
  }

  /** The last guess was the `n`-th, and `t` is not later than `end`. */
  ghost predicate Closes(h: seq<Miss>, n: nat, t: real, end: real -> real)
  {
    h != [] && h[|h| - 1].count == n && t <= end(h[|h| - 1].at)
  }

  /** When locks are closed: for a user and a group after the fifth wrong guess, for ten
      minutes; for a user after the twenty-fifth, for an hour; for a group after the fortieth,
      for half an hour, in whole seconds; all of them but for the last second. */
  lemma LocksExactly(g: Gate, uid: Uid, gid: Gid, t: real)
    requires g.Valid() && g.clock <= t
    ensures Locked(Of(g.tries, (uid, gid), t), t) <==> Closes(Past(g.byPair, (uid, gid)), 5, t, at => at + 599.0)
    ensures Locked(Of(g.tallies, uid, t), t) <==> Closes(Past(g.byUser, uid), 25, t, at => at + 3599.0)
    ensures gid in g.doors && Locked(g.doors[gid].misses, t) <==>
      Closes(Past(g.byGroup, gid), 40, t, at => (at + 1800.0).Floor as real - 1.0)
  {
    hide AllTrack, Locked, Closes, Past, Tracks;
    AllTracked(g.tries, g.byPair, PAIR, g.clock, (uid, gid), t);
    AllTracked(g.tallies, g.byUser, ANY, g.clock, uid, t);
    AllTracked(Counters(g.doors), g.byGroup, GROUP, g.clock, gid, t);
    LockedExactly(Of(g.tries, (uid, gid), t), Past(g.byPair, (uid, gid)), PAIR, g.clock, t);
    LockedExactly(Of(g.tallies, uid, t), Past(g.byUser, uid), ANY, g.clock, t);
    LockedExactly(Of(Counters(g.doors), gid, t), Past(g.byGroup, gid), GROUP, g.clock, t);
    NeverShut(t);
  }

  lemma AllTracked<K(!new)>(m: map<K, Counter>, past: map<K, seq<Miss>>, r: Rule, now: real, k: K, t: real)
    requires AllTrack(m, past, r, now) && r.limit > 0
    ensures Tracks(Of(m, k, t), Past(past, k), r, now)
  {
  }

  lemma NeverShut(t: real)
    requires 0.0 <= t
    ensures !Locked(Counter(0, t, 0.0), t)
  {
  }

  lemma LockedExactly(c: Counter, h: seq<Miss>, r: Rule, now: real, t: real)
    requires Tracks(c, h, r, now) && 0.0 <= now <= t && r in {PAIR, ANY, GROUP}
    ensures Locked(c, t) <==>
      Closes(h, r.limit, t, if r == GROUP then at => (at + 1800.0).Floor as real - 1.0 else if r == ANY then at => at + 3599.0 else at => at + 599.0)
  {
    hide Paced;
  }

  lemma AllPaced<K(!new)>(m: map<K, Counter>, past: map<K, seq<Miss>>, r: Rule, now: real, k: K)
    requires AllTrack(m, past, r, now)
    ensures Paced(Past(past, k), r)
  {
    if k in m { assert Tracks(m[k], Past(past, k), r, now); }
  }

  lemma PacedIsSlow(h: seq<Miss>, r: Rule)
    requires Paced(h, r) && r in {PAIR, ANY, GROUP}
    ensures Slow(h, if r.window.None? then r.limit else 2 * r.limit - 1, r.lock)
  {
    hide Paced;
    var n := if r.window.None? then r.limit else 2 * r.limit - 1;
    forall i: nat | i + n < |h| ensures h[i + n].at > h[i].at + r.lock {
      if r.window.None? { SlowPlain(h, r, i); } else { SlowWindow(h, r, i); }
    }
  }

  // ---- when a limit holds ---------------------------------------------------------------

  /** The counters with a window: of a user for all groups, and of a group for everybody. */
  ghost predicate Windowed(r: Rule) { r == ANY || r == GROUP }

  ghost function Missed(r: Rule, c: Counter, now: real): Counter
    requires Windowed(r)
  {
    if r == GROUP then GroupMiss(c, now) else AnyMiss(c, now)
  }

  /** Wrong guesses at these times, none before `from`, are all looked at. */
  ghost predicate Looked(r: Rule, c: Counter, ts: seq<real>, from: real)
    requires Windowed(r)
    decreases |ts|
  {
    ts == [] || (from <= ts[0] && !Locked(c, ts[0]) && Looked(r, Missed(r, c, ts[0]), ts[1..], ts[0]))
  }

  /** The counter after them. */
  ghost function After(r: Rule, c: Counter, ts: seq<real>): Counter
    requires Windowed(r)
    decreases |ts|
  {
    if ts == [] then c else After(r, Missed(r, c, ts[0]), ts[1..])
  }

  lemma MissedIs(r: Rule, c: Counter, now: real)
    requires Windowed(r) && 0.0 <= now && !Locked(c, now) && c.count < r.limit
    ensures var m := Missed(r, c, now);
      if now - c.start > r.window.value then m.count == 1 && m.start <= now < m.start + 1.0 && !Locked(m, now)
      else if c.count + 1 < r.limit then m.count == c.count + 1 && m.start == c.start && !Locked(m, now)
      else m.count == 0 && m.until >= now + r.lock + 1.0
  {
  }

  /** While counting does not begin anew, the limit holds. */
  lemma {:induction false} LimitInWindow(r: Rule, c: Counter, ts: seq<real>, from: real)
    requires Windowed(r) && 0.0 <= from && c.count < r.limit && Looked(r, c, ts, from)
    requires |ts| > r.limit - c.count && ts[|ts| - 1] <= c.start + r.window.value
    ensures ts[|ts| - 1] > ts[0] + r.lock
    decreases |ts|
  {
    hide Missed, Locked;
    var m, rest := Missed(r, c, ts[0]), ts[1..];
    LookedLater(r, c, ts, from);
    MissedIs(r, c, ts[0]);
    LookedLater(r, m, rest, ts[0]);
    if c.count + 1 < r.limit {
      LimitInWindow(r, m, rest, ts[0]);
    } else {
      LockedOut(m, rest[0], ts[0] + r.lock);
    }
  }

  lemma LockedOut(c: Counter, now: real, t: real)
    requires c.until >= t + 1.0 && !Locked(c, now)
    ensures now > t
  {
  }

  lemma {:induction false} LookedLater(r: Rule, c: Counter, ts: seq<real>, from: real)
    requires Windowed(r) && Looked(r, c, ts, from) && ts != []
    ensures from <= ts[0] <= ts[|ts| - 1]
    decreases |ts|
  {
    if |ts| > 1 { LookedLater(r, Missed(r, c, ts[0]), ts[1..], ts[0]); }
  }

  lemma {:induction false} LookedJoin(r: Rule, c: Counter, a: seq<real>, b: seq<real>, from: real, t: real)
    requires Windowed(r) && Looked(r, c, a, from) && from <= t && (a != [] ==> a[|a| - 1] <= t)
    requires Looked(r, After(r, c, a), b, t)
    ensures Looked(r, c, a + b, from)
    decreases |a|
  {
    hide Missed, Locked;
    if a == [] {
      assert a + b == b;
    } else {
      LookedLater(r, c, a, from);
      LookedJoin(r, Missed(r, c, a[0]), a[1..], b, a[0], t);
      assert (a + b)[1..] == a[1..] + b;
    }
  }

  function Times(t: real, n: nat): (ts: seq<real>) { seq(n, _ => t) }

  /** As many guesses at one moment as are left before the limit, or up to it. */
  lemma {:induction false} LookedAtOnce(r: Rule, c: Counter, t: real, n: nat, from: real)
    requires Windowed(r) && 0.0 <= from <= t && !Locked(c, t) && c.count + n <= r.limit && t - c.start <= r.window.value
    ensures Looked(r, c, Times(t, n), from)
    ensures c.count + n < r.limit ==>
      var m := After(r, c, Times(t, n)); m.count == c.count + n && m.start == c.start && !Locked(m, t)
    decreases n
  {
    hide Missed, Locked;
    if n > 0 {
      MissedIs(r, c, t);
      assert Times(t, n)[1..] == Times(t, n - 1);
      if c.count + 1 < r.limit { LookedAtOnce(r, Missed(r, c, t), t, n - 1, t); }
    }
  }

  /** After the end of the window it is as many as the limit. */
  lemma LookedAnew(r: Rule, c: Counter, t: real, n: nat, from: real)
    requires Windowed(r) && 0.0 <= from <= t && !Locked(c, t) && c.count < r.limit && n <= r.limit && t - c.start > r.window.value
    ensures Looked(r, c, Times(t, n), from)
  {
    hide Missed, Locked;
    if n > 0 {
      MissedIs(r, c, t);
      assert Times(t, n)[1..] == Times(t, n - 1);
      LookedAtOnce(r, Missed(r, c, t), t, n - 1, t);
    }
  }

  /** Guesses enough to fill the counter up to one below the limit, the others as late as
      the lock would last. */
  function Crowd(r: Rule, c: Counter, now: real): (ts: seq<real>)
    requires c.count < r.limit
    ensures |ts| == r.limit + 1
  {
    Times(now, r.limit - 1 - c.count) + Times(now + r.lock, c.count + 2)
  }

  lemma CrowdLooked(r: Rule, c: Counter, now: real)
    requires Windowed(r) && 0.0 <= now && !Locked(c, now) && c.count < r.limit && !Strict(r, c, now)
    ensures Looked(r, c, Crowd(r, c, now), now)
  {
    hide Missed, Locked;
    var n := r.limit - 1 - c.count;
    LookedAtOnce(r, c, now, n, now);
    var m := After(r, c, Times(now, n));
    StillOpen(m, now, now + r.lock);
    LookedAnew(r, m, now + r.lock, c.count + 2, now);
    LookedJoin(r, c, Times(now, n), Times(now + r.lock, c.count + 2), now, now);
  }

  lemma StillOpen(c: Counter, now: real, later: real)
    requires !Locked(c, now) && now <= later
    ensures !Locked(c, later)
  {
  }

  /** The counter is about to lock, counting is about to begin anew, or it will not begin
      anew while the lock would last. */
  ghost predicate Strict(r: Rule, c: Counter, now: real)
    requires Windowed(r)
  {
    || c.count == r.limit - 1 || now - c.start > r.window.value || now + r.lock <= c.start + r.window.value
  }

  /** From now on, one guess more than the limit takes longer than the lock. */
  ghost predicate LimitHolds(r: Rule, c: Counter, now: real)
    requires Windowed(r)
  {
    forall ts :: |ts| == r.limit + 1 && ts[0] == now && Looked(r, c, ts, now) ==> ts[r.limit] > now + r.lock
  }

  /** When the limits of 25 wrong guesses for a user, and of 40 for a group, are what they
      are meant to be. */
  lemma LimitExactly(r: Rule, c: Counter, now: real)
    requires Windowed(r) && 0.0 <= now && !Locked(c, now) && c.count < r.limit
    ensures LimitHolds(r, c, now) <==> Strict(r, c, now)
  {
    hide Missed, Locked, Looked;
    if Strict(r, c, now) {
      forall ts | |ts| == r.limit + 1 && ts[0] == now && Looked(r, c, ts, now) ensures ts[r.limit] > now + r.lock {
        LimitFrom(r, c, ts, now);
      }
    } else {
      CrowdLooked(r, c, now);
      var ts := Crowd(r, c, now);
      assert ts[0] == now && ts[r.limit] == now + r.lock;
    }
  }

  lemma LimitFrom(r: Rule, c: Counter, ts: seq<real>, now: real)
    requires Windowed(r) && 0.0 <= now && !Locked(c, now) && c.count < r.limit && Strict(r, c, now)
    requires |ts| == r.limit + 1 && ts[0] == now && Looked(r, c, ts, now)
    ensures ts[r.limit] > now + r.lock
  {
    hide Missed, Locked;
    if ts[r.limit] <= now + r.lock {
      MissedIs(r, c, now);
      var m, rest := Missed(r, c, now), ts[1..];
      LookedLater(r, m, rest, now);
      if now - c.start > r.window.value {
        LimitInWindow(r, m, rest, now);
        assert false;
      } else if c.count == r.limit - 1 {
        LockedOut(m, rest[0], now + r.lock);
        assert false;
      } else {
        LimitInWindow(r, c, ts, now);
        assert false;
      }
    }
  }

  // ---- the same at the doors ------------------------------------------------------------

  /** The users have not guessed wrong so far. */
  ghost predicate Newcomers(g: Gate, gid: Gid, users: seq<Uid>)
    reads g
  {
    && (forall i :: 0 <= i < |users| ==> users[i] !in g.tallies && (users[i], gid) !in g.tries)
    && (forall i, j :: 0 <= i < j < |users| ==> users[i] != users[j])
  }

  /** The history has grown by guesses at these times. */
  ghost predicate Grew(h: seq<Miss>, h': seq<Miss>, ts: seq<real>)
  {
    h <= h' && |h'| == |h| + |ts| && forall i :: 0 <= i < |ts| ==> h'[|h| + i].at == ts[i]
  }

  ghost predicate Ordered(ts: seq<real>, from: real)
  {
    (ts != [] ==> from <= ts[0]) && forall i, j :: 0 <= i < j < |ts| ==> ts[i] <= ts[j]
  }

  /** The group's counter was open and has counted a wrong guess. */
  ghost predicate Counted(d: Door, d': Door, now: real)
  {
    !Locked(d.misses, now) && d'.misses == GroupMiss(d.misses, now)
  }

  /** One wrong guess; a newcomer's is looked at unless the group itself is locked. */
  method WrongGuess(g: Gate, gid: Gid, uid: Uid, pw: string, now: real) returns (ghost looked: bool)
    requires gid in g.doors && pw != g.doors[gid].password && g.clock <= now && g.Valid()
    modifies g
    ensures g.clock == now && gid in g.doors && g.doors[gid].password == old(g.doors[gid].password)
    ensures looked ==>
      Counted(old(g.doors[gid]), g.doors[gid], now) && Grew(Past(old(g.byGroup), gid), Past(g.byGroup, gid), [now])
    ensures !looked ==> g.doors == old(g.doors) && g.byGroup == old(g.byGroup)
    ensures old(Newcomers(g, gid, [uid])) && !Locked(old(g.doors[gid].misses), now) ==> looked
    ensures forall u :: u != uid ==>
      (u in g.tallies <==> u in old(g.tallies)) && ((u, gid) in g.tries <==> (u, gid) in old(g.tries))
    ensures g.Valid()
  {
    hide Gate.Valid, PairMiss, AnyMiss, GroupMiss, AnyFrom, GroupFrom;
    ClockRuns(g);
    looked := !g.Shut(uid, gid, now);
    if Newcomers(g, gid, [uid]) { assert [uid][0] == uid; }
    var _ := g.Verify(uid, gid, pw, now);
  }

  lemma ClockRuns(g: Gate)
    requires g.Valid()
    ensures 0.0 <= g.clock
  {
  }

  lemma {:induction false} LookedMore(r: Rule, c: Counter, ts: seq<real>, t: real, from: real)
    requires Windowed(r) && Looked(r, c, ts, from) && (if ts == [] then from else ts[|ts| - 1]) <= t
    requires !Locked(After(r, c, ts), t)
    ensures Looked(r, c, ts + [t], from) && After(r, c, ts + [t]) == Missed(r, After(r, c, ts), t)
    decreases |ts|
  {
    hide Missed, Locked;
    if ts == [] {
      assert [] + [t] == [t] && [t][1..] == [];
    } else {
      LookedMore(r, Missed(r, c, ts[0]), ts[1..], t, ts[0]);
      assert (ts + [t])[1..] == ts[1..] + [t];
    }
  }

  /** Wrong guesses for a group, whoever makes them and when: `seen` are the times of those
      that were looked at, and they are guesses as its counter lets them pass. If the users
      are new to it, the counter alone decides: everything it lets pass is looked at. */
  method WrongGuesses(g: Gate, gid: Gid, users: seq<Uid>, pws: seq<string>, ts: seq<real>) returns (ghost seen: seq<real>)
    requires g.Valid() && gid in g.doors && |users| == |pws| == |ts| && Ordered(ts, g.clock)
    requires forall i :: 0 <= i < |pws| ==> pws[i] != g.doors[gid].password
    modifies g
    ensures g.Valid() && gid in g.doors && Grew(Past(old(g.byGroup), gid), Past(g.byGroup, gid), seen)
    ensures Looked(GROUP, old(g.doors[gid].misses), seen, old(g.clock))
    ensures g.doors[gid].misses == After(GROUP, old(g.doors[gid].misses), seen)
    ensures old(Newcomers(g, gid, users) && Looked(GROUP, g.doors[gid].misses, ts, g.clock)) ==> seen == ts
  {
    hide Gate.Valid, Looked, After, Locked, GroupMiss, Past, Missed;
    ghost var from, c, h := g.clock, g.doors[gid].misses, Past(g.byGroup, gid);
    ghost var fresh_ := Newcomers(g, gid, users) && Looked(GROUP, c, ts, from);
    seen := [];
    NothingYet(GROUP, c, from);
    var k := 0;
    while k < |ts|
      invariant 0 <= k <= |ts| && g.Valid() && gid in g.doors && g.doors[gid].password == old(g.doors[gid].password)
      invariant g.clock == (if k == 0 then from else ts[k - 1])
      invariant Grew(h, Past(g.byGroup, gid), seen) && Looked(GROUP, c, seen, from)
      invariant (if seen == [] then from else seen[|seen| - 1]) <= g.clock
      invariant g.doors[gid].misses == After(GROUP, c, seen)
      invariant fresh_ ==> seen == ts[..k] && Newcomers(g, gid, users[k..]) && Looked(GROUP, g.doors[gid].misses, ts[k..], g.clock)
    {
      ghost var m := g.doors[gid].misses;
      if fresh_ { LookedFirst(GROUP, m, ts[k..], g.clock); }
      ghost var looked := WrongGuess(g, gid, users[k], pws[k], ts[k]);
      if looked {
        LookedMore(GROUP, c, seen, ts[k], from);
        seen := seen + [ts[k]];
        MissedGroup(m, ts[k]);
      }
      k := k + 1;
    }
    assert ts[..k] == ts;
  }

  lemma MissedGroup(c: Counter, t: real)
    ensures Missed(GROUP, c, t) == GroupMiss(c, t)
  {
  }

  lemma NothingYet(r: Rule, c: Counter, from: real)
    requires Windowed(r)
    ensures Looked(r, c, [], from) && After(r, c, []) == c
  {
  }

  lemma LookedFirst(r: Rule, c: Counter, ts: seq<real>, from: real)
    requires Windowed(r) && Looked(r, c, ts, from) && ts != []
    ensures !Locked(c, ts[0]) && Looked(r, Missed(r, c, ts[0]), ts[1..], ts[0])
  {
  }

  /** Where the counter of a group with an open lock falls short, 41 newcomers are all
      looked at within the time the lock is meant to last. */
  method MoreThanForty(g: Gate, gid: Gid, users: seq<Uid>, pw: string, now: real)
    requires gid in g.doors && pw != g.doors[gid].password && |users| == GROUP_TRIES + 1 && Newcomers(g, gid, users)
    requires g.clock <= now && !Locked(g.doors[gid].misses, now) && !Strict(GROUP, g.doors[gid].misses, now)
    requires g.Valid()
    modifies g
    ensures var n, h := |Past(old(g.byGroup), gid)|, Past(g.byGroup, gid);
      |h| == n + 41 && h[n + 40].at <= h[n].at + 1798.0
    ensures g.Valid()
  {
    hide Gate.Valid, Looked, Locked, Past;
    var c := g.doors[gid].misses;
    ClockRuns(g);
    CountBelow(g, gid);
    CrowdLooked(GROUP, c, now);
    var ts := Crowd(GROUP, c, now);
    LookedEarlier(GROUP, c, ts, now, g.clock);
    assert ts[0] == now && ts[40] == now + 1798.0;
    ghost var n := |Past(g.byGroup, gid)|;
    ghost var seen := WrongGuesses(g, gid, users, seq(|ts|, _ => pw), ts);
    assert Past(g.byGroup, gid)[n + 0].at == ts[0];
  }

  lemma CountBelow(g: Gate, gid: Gid)
    requires g.Valid() && gid in g.doors
    ensures g.doors[gid].misses.count < GROUP_TRIES
  {
    assert Tracks(Counters(g.doors)[gid], Past(g.byGroup, gid), GROUP, g.clock);
  }

  lemma LookedEarlier(r: Rule, c: Counter, ts: seq<real>, from: real, before: real)
    requires Windowed(r) && Looked(r, c, ts, from) && before <= from
    ensures Looked(r, c, ts, before)
  {
  }

  /** One wrong guess for a new group, 38 an hour later and 40 a second after those. */
  function Rush(t: real): (ts: seq<real>)
    ensures |ts| == 79
  {
    [t] + Times(t + 3600.0, 38) + Times(t + 3601.0, 40)
  }

  function Somebody(i: nat): (u: Uid)
    ensures |u| == i
  {
    seq(i, _ => 'a')
  }

  /** The limit for a group does not hold in every hour: all of these are looked at. */
  method NotRolling(t: nat) returns (g: Gate, ghost h: seq<Miss>)
    requires t >= 3601
    ensures fresh(g) && h == Past(g.byGroup, "g") && |h| == 79
    ensures h[0].at == t as real
    ensures forall i :: 1 <= i < 39 ==> h[i].at == t as real + 3600.0
    ensures forall i :: 39 <= i < 79 ==> h[i].at == t as real + 3601.0
    ensures g.Valid()
  {
    hide Gate.Valid, Looked, Locked, DoorOk, Rush;
    g := new Gate();
    SimpleDoor();
    g.Add("g", "group", "190283");
    var users := seq(79, i requires 0 <= i < 79 => Somebody(i));
    assert forall i :: 0 <= i < 79 ==> |users[i]| == i;
    RushLooked(t);
    ghost var seen := WrongGuesses(g, "g", users, seq(79, _ => "000000"), Rush(t as real));
    h := Past(g.byGroup, "g");
    GrewAll(h, seen);
    RushTimes(t as real);
  }

  lemma GrewAll(h: seq<Miss>, ts: seq<real>)
    requires Grew([], h, ts)
    ensures |h| == |ts| && forall i :: 0 <= i < |ts| ==> h[i].at == ts[i]
  {
    var none: seq<Miss> := [];
    assert forall i :: 0 <= i < |ts| ==> h[|none| + i].at == ts[i];
  }

  lemma SimpleDoor()
    ensures DoorOk(Door("group", "190283", Counter(0, 0.0, 0.0)))
  {
    var pw := "190283";
    assert pw[0] == '1' && pw[1] == '9' && pw[2] == '0' && pw[3] == '2' && pw[4] == '8' && pw[5] == '3';
    assert "123123"[1] == '2' && "121212"[1] == '2' && "112233"[1] == '1' && "012345"[0] == '0' && "654321"[0] == '6';
  }

  lemma RushTimes(t: real)
    ensures var ts := Rush(t);
      && ts[0] == t && (forall i :: 1 <= i < 39 ==> ts[i] == t + 3600.0) && (forall i :: 39 <= i < 79 ==> ts[i] == t + 3601.0)
    ensures t >= 0.0 ==> Ordered(Rush(t), 0.0)
  {
  }

  lemma RushLooked(t: nat)
    requires t >= 3601
    ensures Looked(GROUP, Counter(0, 0.0, 0.0), Rush(t as real), 0.0) && Ordered(Rush(t as real), 0.0)
  {
    hide Looked, Locked, Missed, After;
    var x, c := t as real, Counter(0, 0.0, 0.0);
    RushTimes(x);
    FirstMiss(t);
    var c1 := Counter(1, x, 0.0);
    LookedAtOnce(GROUP, c1, x + 3600.0, 38, x);
    StillOpen(After(GROUP, c1, Times(x + 3600.0, 38)), x + 3600.0, x + 3601.0);
    LookedAnew(GROUP, After(GROUP, c1, Times(x + 3600.0, 38)), x + 3601.0, 40, x + 3600.0);
    LookedJoin(GROUP, c1, Times(x + 3600.0, 38), Times(x + 3601.0, 40), x, x + 3600.0);
    LookedJoin(GROUP, c, [x], Times(x + 3600.0, 38) + Times(x + 3601.0, 40), 0.0, x);
    assert Rush(x) == [x] + (Times(x + 3600.0, 38) + Times(x + 3601.0, 40));
  }

  lemma FirstMiss(t: nat)
    requires t >= 3601
    ensures var x, c := t as real, Counter(0, 0.0, 0.0);
      Looked(GROUP, c, [x], 0.0) && After(GROUP, c, [x]) == Counter(1, x, 0.0)
      && !Locked(Counter(1, x, 0.0), x + 3600.0)
  {
    assert [t as real][1..] == [];
  }
}

/** The report log of the message relay: who reported whom and when, how often one
    may report, and which accounts the reports restrict. */
module RelayReports {
  import opened Common
  import opened RelayMail

  const REPORT_LIMIT := 5
  const REPORTS_PER_HOUR := 5
  const HOUR := 3600
  const DAY := 86400
  const WEEK := 7 * 86400

  datatype Complaint = Complaint(reporter: Uid, target: Uid, ts: int)

  /** The places of the reports `uid` has filed later than `since`. */
  ghost function Filings(log: seq<Complaint>, uid: Uid, since: int): (s: set<nat>)
  {
    set i: nat | i < |log| && log[i].reporter == uid && log[i].ts > since
  }

  /** `uid` has reported `target` later than `since`. */
  ghost predicate Repeated(log: seq<Complaint>, uid: Uid, target: Uid, since: int)
  {
    exists i :: 0 <= i < |log| && log[i].reporter == uid && log[i].target == target && log[i].ts > since
  }

  /** The users who have reported `target` later than `since`. */
  ghost function Reporters(log: seq<Complaint>, target: Uid, since: int): set<Uid>
  {
    set r | r in log && r.target == target && r.ts > since :: r.reporter
  }

  /** A report may be filed after `log`. */
  ghost predicate Admitted(log: seq<Complaint>, r: Complaint)
  {
    && r.target != r.reporter
    && |Filings(log, r.reporter, r.ts - HOUR)| < REPORTS_PER_HOUR
    && !Repeated(log, r.reporter, r.target, r.ts - DAY)
  }

  /** The last of the reports is the one that reaches the limit against `u`. */
  ghost predicate Tips(log: seq<Complaint>, u: Uid)
  {
    log != [] && log[|log| - 1].target == u && |Reporters(log, u, log[|log| - 1].ts - WEEK)| >= REPORT_LIMIT
  }

  /** Every report was admitted by those before it, in the order of time, and exactly the
      users are restricted whom some report brought to the limit. */
  ghost predicate LogOk(log: seq<Complaint>, restricted: set<Uid>, now: int)
  {
    && (forall i :: 0 <= i < |log| ==> log[i].ts <= now && Admitted(log[..i], log[i]))
    && (forall i, j :: 0 <= i < j < |log| ==> log[i].ts <= log[j].ts)
    && (forall u :: u in restricted <==> exists n :: 0 < n <= |log| && Tips(log[..n], u))
  }

  /** Filing an admitted report restricts its target when it tips the limit. */
  lemma FileOk(log: seq<Complaint>, restricted: set<Uid>, now: int, r: Complaint)
    requires LogOk(log, restricted, now) && Admitted(log, r) && r.ts == now
    ensures LogOk(log + [r], restricted + (if Tips(log + [r], r.target) then {r.target} else {}), now)
  {
    hide Admitted, Tips;
    var log' := log + [r];
    assert forall n :: 0 <= n <= |log| ==> log'[..n] == log[..n];
    assert log'[..|log'|] == log';
    forall u ensures u in restricted <==> exists n :: 0 < n <= |log| && Tips(log'[..n], u) {
      assert forall n :: 0 < n <= |log| ==> Tips(log'[..n], u) == Tips(log[..n], u);
    }
    TipsTarget(log', r);
  }

  lemma LogLater(log: seq<Complaint>, restricted: set<Uid>, now: int, later: int)
    requires LogOk(log, restricted, now) && now <= later
    ensures LogOk(log, restricted, later)
  {
    hide Admitted, Tips;
  }

  lemma TipsTarget(log: seq<Complaint>, r: Complaint)
    requires log != [] && log[|log| - 1] == r
    ensures forall u :: Tips(log, u) ==> u == r.target
  {
  }

  // ---- what that means ------------------------------------------------------------

  /** The places of the reports `uid` filed after `since` and up to `until`. */
  ghost function FiledWithin(log: seq<Complaint>, uid: Uid, since: int, until: int): (s: set<nat>)
  {
    set i: nat | i < |log| && log[i].reporter == uid && since < log[i].ts <= until
  }

  /** In no hour, wherever it starts, does anybody file more than five reports. */
  lemma HourlyLimit(log: seq<Complaint>, restricted: set<Uid>, now: int, uid: Uid, since: int)
    requires LogOk(log, restricted, now)
    ensures |FiledWithin(log, uid, since, since + 3600)| <= 5
  {
    HourlyPrefix(log, |log|, restricted, now, uid, since);
    assert log[..|log|] == log;
  }

  lemma {:induction false} HourlyPrefix(log: seq<Complaint>, n: nat, restricted: set<Uid>, now: int, uid: Uid, since: int)
    requires LogOk(log, restricted, now) && n <= |log|
    ensures |FiledWithin(log[..n], uid, since, since + HOUR)| <= REPORTS_PER_HOUR
  {
    if n > 0 {
      HourlyPrefix(log, n - 1, restricted, now, uid, since);
      assert Admitted(log[..n - 1], log[n - 1]);
      OneFiling(log, n, uid, since);
    }
  }

  lemma OneFiling(log: seq<Complaint>, n: nat, uid: Uid, since: int)
    requires 0 < n <= |log| && Admitted(log[..n - 1], log[n - 1])
    ensures var before, after := FiledWithin(log[..n - 1], uid, since, since + HOUR), FiledWithin(log[..n], uid, since, since + HOUR);
      |after| <= |before| || |after| <= REPORTS_PER_HOUR
  {
    hide Repeated;
    var last, before, after := log[n - 1], FiledWithin(log[..n - 1], uid, since, since + HOUR), FiledWithin(log[..n], uid, since, since + HOUR);
    if last.reporter == uid && since < last.ts <= since + HOUR {
      SubsetSize(before, Filings(log[..n - 1], uid, last.ts - HOUR));
      assert after == before + {n - 1};
    } else {
      assert after == before;
    }
  }

  /** Nobody reports the same user twice within a day. */
  lemma OncePerDay(log: seq<Complaint>, restricted: set<Uid>, now: int, i: nat, j: nat)
    requires LogOk(log, restricted, now) && i < j < |log|
    requires log[i].reporter == log[j].reporter && log[i].target == log[j].target
    ensures log[j].ts - log[i].ts >= 86400
  {
    assert Admitted(log[..j], log[j]);
    assert log[..j][i] == log[i];
  }

  /** `a` reported `u` in the week up to `end`. */
  ghost predicate Accuses(log: seq<Complaint>, a: Uid, u: Uid, end: int)
  {
    exists i :: 0 <= i < |log| && log[i].reporter == a && log[i].target == u && end - 7 * 86400 < log[i].ts <= end
  }

  /** Behind every restricted account are reports by five other users within a week. */
  lemma FiveAccusers(log: seq<Complaint>, restricted: set<Uid>, now: int, u: Uid) returns (accusers: set<Uid>, end: int)
    requires LogOk(log, restricted, now) && u in restricted
    ensures |accusers| >= 5 && u !in accusers
    ensures forall a :: a in accusers ==> Accuses(log, a, u, end)
  {
    hide Admitted, Reporters, Accuses;
    var n :| 0 < n <= |log| && Tips(log[..n], u);
    end := log[n - 1].ts;
    accusers := Reporters(log[..n], u, end - WEEK);
    forall a | a in accusers ensures a != u && Accuses(log, a, u, end) {
      Accuser(log, restricted, now, n, a, u);
    }
  }

  /** And five such users are enough, once one more report is filed. */
  lemma FiveRestrict(log: seq<Complaint>, restricted: set<Uid>, now: int, n: nat, u: Uid, accusers: set<Uid>)
    requires LogOk(log, restricted, now) && n < |log| && log[n].target == u && |accusers| >= 5
    requires forall a :: a in accusers ==> Accuses(log[..n + 1], a, u, log[n].ts)
    ensures u in restricted
  {
    hide Admitted;
    var upto, since := log[..n + 1], log[n].ts - WEEK;
    forall a | a in accusers ensures a in Reporters(upto, u, since) {
      var i :| 0 <= i < |upto| && upto[i].reporter == a && upto[i].target == u && since < upto[i].ts;
      assert upto[i] in upto;
    }
    SubsetSize(accusers, Reporters(upto, u, since));
    assert Tips(log[..n + 1], u);
  }

  lemma Accuser(log: seq<Complaint>, restricted: set<Uid>, now: int, n: nat, a: Uid, u: Uid)
    requires LogOk(log, restricted, now) && 0 < n <= |log| && a in Reporters(log[..n], u, log[n - 1].ts - WEEK)
    ensures a != u && Accuses(log, a, u, log[n - 1].ts)
  {
    hide Admitted, Tips;
    var since := log[n - 1].ts - WEEK;
    var r :| r in log[..n] && r.target == u && r.ts > since && r.reporter == a;
    var i :| 0 <= i < n && log[..n][i] == r;
    assert log[i] == r;
    NotOneself(log, restricted, now, i);
  }

  lemma NotOneself(log: seq<Complaint>, restricted: set<Uid>, now: int, i: nat)
    requires LogOk(log, restricted, now) && i < |log|
    ensures log[i].reporter != log[i].target
  {
    assert Admitted(log[..i], log[i]);
  }
}

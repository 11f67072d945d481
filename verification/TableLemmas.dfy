/** Each service call keeps the tables consistent. */
module TableLemmas {
  import opened Wrappers
  import opened Categories
  import States = CaseStates
  import opened Cases
  import opened Clustering
  import opened Tables

  // ---- the rows of a cluster under updates ----

  lemma {:induction false} MembersSame(rs: seq<Report>, ts: seq<Report>, c: nat)
    requires |rs| == |ts|
    requires forall i :: 0 <= i < |rs| ==> Counts(rs[i], c) == Counts(ts[i], c)
    requires forall i :: 0 <= i < |rs| && Counts(rs[i], c) ==> RowOf(rs[i]) == RowOf(ts[i])
    ensures Members(rs, c) == Members(ts, c)
  {
    if rs != [] {
      var n := |rs| - 1;
      MembersSame(rs[..n], ts[..n], c);
    }
  }

  lemma {:induction false} MembersHas(rs: seq<Report>, c: nat, row: Row)
    ensures row in Members(rs, c) <==> exists i :: 0 <= i < |rs| && Counts(rs[i], c) && RowOf(rs[i]) == row
  {
    if rs != [] {
      var n := |rs| - 1;
      MembersHas(rs[..n], c, row);
      assert rs == rs[..n] + [rs[n]];
      assert forall i :: 0 <= i < n ==> rs[..n][i] == rs[i];
    }
  }

  /** When one report stops counting, exactly its row goes. */
  lemma {:induction false} MembersWithout(rs: seq<Report>, i: nat, t: Report, c: nat) returns (a: seq<Row>, b: seq<Row>)
    requires i < |rs| && Counts(rs[i], c) && !Counts(t, c)
    ensures Members(rs, c) == a + [RowOf(rs[i])] + b
    ensures Members(rs[i := t], c) == a + b
  {
    var n := |rs| - 1;
    if i == n {
      a, b := Members(rs[..n], c), [];
      assert rs[i := t][..n] == rs[..n];
    } else {
      a, b := MembersWithout(rs[..n], i, t, c);
      assert rs[i := t][..n] == rs[..n][i := t];
      var tail := if Counts(rs[n], c) then [RowOf(rs[n])] else [];
      assert a + [RowOf(rs[i])] + b + tail == a + [RowOf(rs[i])] + (b + tail);
      assert a + b + tail == a + (b + tail);
      b := b + tail;
    }
  }

  lemma {:induction false} NoMembers(rs: seq<Report>, c: nat)
    requires forall r <- rs :: !Counts(r, c)
    ensures Members(rs, c) == []
  {
    if rs != [] {
      var n := |rs| - 1;
      assert rs[n] in rs;
      forall r | r in rs[..n] ensures !Counts(r, c) {
        assert r in rs;
      }
      NoMembers(rs[..n], c);
    }
  }

  lemma {:induction false} LoggedReceived(rs: seq<Report>, c: nat)
    ensures var ids := Logged(ReceivedEvents(rs, c));
      NoRepeats(ids) && forall i: nat :: i in ids <==> i < |rs| && Counts(rs[i], c)
  {
    if rs != [] {
      var n := |rs| - 1;
      LoggedReceived(rs[..n], c);
      var es := ReceivedEvents(rs[..n], c);
      var ids, old' := Logged(ReceivedEvents(rs, c)), Logged(es);
      if Counts(rs[n], c) {
        AppendEvent(es, CaseEvent(ReportReceived(n), None, None, true, rs[n].at));
        assert ids == old' + [n] && n !in old';
      } else {
        assert es + [] == es;
      }
      forall i: nat ensures i in ids <==> i < |rs| && Counts(rs[i], c) {
        assert i in old' <==> i < n && Counts(rs[..n][i], c);
      }
    }
  }

  lemma {:induction false} OneMoreReceived(es: seq<CaseEvent>, e: CaseEvent)
    requires Unbroken(es) && History(es) == [States.PendingReview]
    requires e.kind.ReportReceived? && e.from == None && e.to == None
    ensures Unbroken(es + [e]) && History(es + [e]) == [States.PendingReview]
  {
    AppendEvent(es, e);
    assert (es + [e])[..|es|] == es;
    assert [States.PendingReview] + [] == [States.PendingReview];
  }

  /** Each of them is public and has the time of its report. */
  lemma {:induction false} ReceivedKinds(rs: seq<Report>, c: nat)
    ensures forall e <- ReceivedEvents(rs, c) ::
      && e.kind.ReportReceived? && e.kind.report < |rs|
      && e == CaseEvent(e.kind, None, None, true, rs[e.kind.report].at)
  {
    if rs != [] {
      var n := |rs| - 1;
      ReceivedKinds(rs[..n], c);
      assert forall i :: 0 <= i < n ==> rs[..n][i] == rs[i];
    }
  }

  lemma {:induction false} ReceivedUnbroken(rs: seq<Report>, c: nat)
    ensures var es := ReceivedEvents(rs, c);
      && Unbroken(es) && History(es) == [States.PendingReview]
      && forall e <- es :: !e.kind.ThresholdReached? && !e.kind.StatusChanged?
  {
    ReceivedKinds(rs, c);
    if rs != [] {
      var n := |rs| - 1;
      ReceivedUnbroken(rs[..n], c);
      var es := ReceivedEvents(rs[..n], c);
      if Counts(rs[n], c) {
        OneMoreReceived(es, CaseEvent(ReportReceived(n), None, None, true, rs[n].at));
      } else {
        assert es + [] == es;
      }
    }
  }

  // ---- rows that a step leaves alone ----

  lemma {:induction false} SoundFrame(s: Tables, t: Tables, k: nat, p: Policy)
    requires k < |s.cases| && k < |t.cases| && CaseSound(s, k, p)
    requires t.cases[k] == s.cases[k].(reportCount := t.cases[k].reportCount, uniqueCount := t.cases[k].uniqueCount)
    ensures CaseSound(t, k, p)
  {
  }

  lemma {:induction false} LoggedFrame(s: Tables, t: Tables, k: nat)
    requires k < |s.cases| && k < |t.cases| && CaseLogged(s, k)
    requires Logged(t.cases[k].events) == Logged(s.cases[k].events)
    requires |t.reports| == |s.reports|
    requires forall i :: 0 <= i < |s.reports| ==> (t.reports[i].caseId == Some(k) <==> s.reports[i].caseId == Some(k))
    ensures CaseLogged(t, k)
  {
  }

  lemma {:induction false} CountedFrame(s: Tables, t: Tables, c: nat, p: Policy)
    requires c < |s.clusters| && c < |t.clusters| && Counted(s, c, p)
    requires Members(t.reports, c) == Members(s.reports, c)
    requires t.clusters[c] == s.clusters[c].(status := t.clusters[c].status, caseId := t.clusters[c].caseId)
    ensures Counted(t, c, p)
  {
  }

  // ---- opening a cluster and joining it ----

  lemma {:induction false} BaseLinks(s: Tables, p: Policy)
    requires Base(s, p)
    ensures LinksInRange(s)
  {
    forall r | r in s.reports ensures r.cluster.Some? ==> r.cluster.value < |s.clusters| {
      var i :| 0 <= i < |s.reports| && s.reports[i] == r;
      assert ReportOk(s, i);
    }
    forall cl | cl in s.clusters ensures cl.caseId.Some? ==> cl.caseId.value < |s.cases| {
      var c :| 0 <= c < |s.clusters| && s.clusters[c] == cl;
      assert ClusterLinked(s, c);
    }
    forall d | d in s.cases ensures d.cluster < |s.clusters| {
      var k :| 0 <= k < |s.cases| && s.cases[k] == d;
      assert CaseLinked(s, k);
    }
  }

  lemma {:induction false} NewClusterOk(s: Tables, r: Report, p: Policy)
    requires Base(s, p) && r.pos.Some?
    ensures Base(s.(clusters := s.clusters + [NewCluster(r)]), p)
  {
    var n := |s.clusters|;
    var t := s.(clusters := s.clusters + [NewCluster(r)]);
    forall i: nat | i < |t.reports| ensures ReportOk(t, i) {
      assert ReportOk(s, i);
    }
    forall x | x in s.reports ensures !Counts(x, n) {
      var i :| 0 <= i < |s.reports| && s.reports[i] == x;
      assert ReportOk(s, i);
    }
    NoMembers(s.reports, n);
    assert Keys([]) == [] && People([]) == {};
    CountIsHeadcount([], p.countAnonymous);
    forall c: nat | c < |t.clusters| ensures Counted(t, c, p) {
      if c < n {
        assert Counted(s, c, p);
      }
    }
    forall c: nat | c < |t.clusters| ensures ClusterLinked(t, c) {
      if c < n {
        assert ClusterLinked(s, c);
      }
    }
    forall k: nat | k < |t.cases| ensures CaseSound(t, k, p) && CaseLogged(t, k) {
      assert CaseSound(s, k, p) && CaseLogged(s, k);
    }
    forall k: nat | k < |t.cases| ensures CaseLinked(t, k) && CaseAgrees(t, k) {
      assert CaseLinked(s, k) && CaseAgrees(s, k);
    }
  }

  lemma {:induction false} JoinedCounts(s: Tables, id: nat, c: nat, p: Policy)
    requires Base(s, p)
    requires id < |s.reports| && s.reports[id].status == ReportStatus.Received
    requires c < |s.clusters|
    ensures var t := Joined(s, id, c, p);
      && (forall d: nat :: d < |t.clusters| && d != c ==> Members(t.reports, d) == Members(s.reports, d))
      && (forall d: nat :: d < |t.clusters| ==> Counted(t, d, p))
  {
    var t := Joined(s, id, c, p);
    assert ReportOk(s, id);
    forall d: nat | d < |t.clusters| && d != c ensures Members(t.reports, d) == Members(s.reports, d) {
      MembersSame(s.reports, t.reports, d);
    }
    RecountIsAccurate(Members(t.reports, c), s.clusters[c], p);
    forall d: nat | d < |t.clusters| ensures Counted(t, d, p) {
      assert Counted(s, d, p);
    }
  }

  lemma {:induction false} JoinedLogs(s: Tables, id: nat, c: nat, p: Policy)
    requires Base(s, p)
    requires id < |s.reports| && c < |s.clusters|
    ensures var t := Joined(s, id, c, p);
      forall k: nat :: k < |t.cases| ==> CaseSound(t, k, p) && CaseLogged(t, k) && CaseLinked(t, k)
  {
    var t := Joined(s, id, c, p);
    forall k: nat | k < |t.cases| ensures CaseSound(t, k, p) && CaseLogged(t, k) && CaseLinked(t, k) {
      assert CaseSound(s, k, p) && CaseLinked(s, k);
      assert CaseLogged(s, k);
      LoggedFrame(s, t, k);
    }
  }

  /** After the recount everything is in order except, where the cluster already has a case,
      the link of the new report to it and the summary on it. */
  lemma {:induction false} JoinedOk(s: Tables, id: nat, c: nat, p: Policy)
    requires Base(s, p)
    requires id < |s.reports| && s.reports[id].status == ReportStatus.Received
    requires c < |s.clusters|
    ensures var t := Joined(s, id, c, p);
      && (t.clusters[c].caseId.None? ==> Base(t, p))
      && (t.clusters[c].caseId.Some? ==> BaseBut(t, p, id, t.clusters[c].caseId.value))
  {
    var t := Joined(s, id, c, p);
    var has := t.clusters[c].caseId.Some?;
    assert ReportOk(s, id) && ClusterLinked(s, c);
    forall i: nat | i < |t.reports| && !(has && i == id) ensures ReportOk(t, i) {
      assert ReportOk(s, i);
    }
    JoinedCounts(s, id, c, p);
    JoinedLogs(s, id, c, p);
    forall d: nat | d < |t.clusters| ensures ClusterLinked(t, d) {
      assert ClusterLinked(s, d);
    }
    forall k: nat | k < |t.cases| && !(has && k == t.clusters[c].caseId.value) ensures CaseAgrees(t, k) {
      assert CaseLinked(s, k) && CaseAgrees(s, k);
    }
  }

  lemma {:induction false} AttachedCase(s: Tables, id: nat, k: nat, p: Policy)
    requires id < |s.reports| && k < |s.cases| && CaseSound(s, k, p) && s.cases[k].cluster < |s.clusters|
    ensures var t := Attached(s, id, k);
      CaseSound(t, k, p) && Logged(t.cases[k].events) == Logged(s.cases[k].events) + [id]
  {
    var t := Attached(s, id, k);
    var c := s.cases[k].(reportCount := t.cases[k].reportCount, uniqueCount := t.cases[k].uniqueCount,
                         severity := t.cases[k].severity);
    assert CaseOk(c, p.required);
    WithEventOk(c, ReportReceived(id), true, s.reports[id].at, p.required);
    AppendEvent(c.events, CaseEvent(ReportReceived(id), None, None, true, s.reports[id].at));
  }

  lemma {:induction false} AttachedLogs(s: Tables, id: nat, k: nat, p: Policy)
    requires BaseBut(s, p, id, k)
    requires id < |s.reports| && s.reports[id].caseId == None
    requires k < |s.cases| && s.cases[k].cluster < |s.clusters|
    ensures var t := Attached(s, id, k);
      forall j: nat :: j < |t.cases| ==> CaseSound(t, j, p) && CaseLogged(t, j)
  {
    var t := Attached(s, id, k);
    assert CaseSound(s, k, p) && CaseLogged(s, k);
    AttachedCase(s, id, k, p);
    OneMoreLogged(s, t, id, k);
    forall j: nat | j < |t.cases| && j != k ensures CaseSound(t, j, p) && CaseLogged(t, j) {
      assert CaseSound(s, j, p) && CaseLogged(s, j);
      LoggedFrame(s, t, j);
    }
  }

  lemma {:induction false} OneMoreLogged(s: Tables, t: Tables, id: nat, k: nat)
    requires k < |s.cases| && k < |t.cases| && CaseLogged(s, k)
    requires id < |s.reports| == |t.reports| && s.reports[id].caseId == None && t.reports[id].caseId == Some(k)
    requires forall i :: 0 <= i < |s.reports| && i != id ==> t.reports[i].caseId == s.reports[i].caseId
    requires Logged(t.cases[k].events) == Logged(s.cases[k].events) + [id]
    ensures CaseLogged(t, k)
  {
    assert id !in Logged(s.cases[k].events);
  }

  lemma {:induction false} AttachedOk(s: Tables, id: nat, k: nat, p: Policy)
    requires BaseBut(s, p, id, k)
    requires id < |s.reports| && k < |s.cases|
    requires s.reports[id].status == ReportStatus.Clustered && s.reports[id].caseId == None
    requires s.reports[id].cluster == Some(s.cases[k].cluster)
    requires forall row <- Members(s.reports, s.cases[k].cluster) ::
      row == RowOf(s.reports[id]) || Rank(row.severity) <= Rank(s.cases[k].severity)
    ensures s.cases[k].cluster < |s.clusters|
    ensures Base(Attached(s, id, k), p)
  {
    assert CaseLinked(s, k);
    var t := Attached(s, id, k);
    AttachedLogs(s, id, k, p);
    forall d: nat ensures Members(t.reports, d) == Members(s.reports, d) {
      MembersSame(s.reports, t.reports, d);
    }
    forall i: nat | i < |t.reports| ensures ReportOk(t, i) {
      if i != id {
        assert ReportOk(s, i);
      }
    }
    forall d: nat | d < |t.clusters| ensures Counted(t, d, p) {
      assert Counted(s, d, p);
    }
    forall d: nat | d < |t.clusters| ensures ClusterLinked(t, d) {
      assert ClusterLinked(s, d);
    }
    forall j: nat | j < |t.cases| ensures CaseLinked(t, j) && CaseAgrees(t, j) {
      assert CaseLinked(s, j);
      if j != k {
        assert CaseAgrees(s, j);
      }
    }
  }

  // ---- creating a case ----

  /** An event that is neither a move nor an arrival closes the log of a new case. */
  lemma {:induction false} OneMoreCreation(es: seq<CaseEvent>, e: CaseEvent)
    requires Unbroken(es) && History(es) == [States.PendingReview] && Unbroken([e]) && !e.kind.StatusChanged?
    ensures Unbroken(es + [e]) && History(es + [e]) == [States.PendingReview]
  {
    AppendEvent(es, e);
    assert (es + [e])[..|es|] == es;
    assert [States.PendingReview] + [] == [States.PendingReview];
  }

  lemma {:induction false} CreationKinds(es: seq<CaseEvent>, cs: seq<CaseEvent>, required: int)
    requires forall e <- es :: !e.kind.ThresholdReached? && !e.kind.StatusChanged?
    requires forall e <- cs :: !e.kind.StatusChanged?
    ensures forall e <- es + cs :: !e.kind.StatusChanged?
    ensures ThresholdsMet(es + cs, required) <==> ThresholdsMet(cs, required)
    ensures HasThreshold(es + cs) <==> HasThreshold(cs)
  {
    assert forall e <- cs :: e in es + cs;
  }

  lemma {:induction false} CreationLog(es: seq<CaseEvent>, trigger: Trigger, unique: nat, lastAt: int, createdAt: int,
                                       required: int)
    requires Unbroken(es) && History(es) == [States.PendingReview]
    requires forall e <- es :: !e.kind.ThresholdReached? && !e.kind.StatusChanged?
    requires trigger == Threshold ==> JustReached(unique, required)
    ensures var fs := es + CreationEvents(trigger, unique, lastAt, createdAt);
      && Unbroken(fs) && History(fs) == [States.PendingReview]
      && ThresholdsMet(fs, required) && (HasThreshold(fs) <==> trigger == Threshold)
      && forall e <- fs :: !e.kind.StatusChanged?
  {
    var cs := CreationEvents(trigger, unique, lastAt, createdAt);
    CreationKinds(es, cs, required);
    OneMoreCreation(es, cs[0]);
    if trigger == Threshold {
      OneMoreCreation(es + [cs[0]], cs[1]);
      assert es + cs == es + [cs[0]] + [cs[1]];
      assert cs[0] in cs;
    } else {
      assert es + cs == es + [cs[0]];
    }
  }

  lemma {:induction false} NewCaseOk(s: Tables, c: nat, trigger: Trigger, now: int, p: Policy)
    requires c < |s.clusters|
    requires trigger == Threshold ==> JustReached(s.clusters[c].uniqueCount, p.required)
    ensures CaseOk(NewCase(s, c, trigger, now), p.required)
  {
    var rows := Members(s.reports, c);
    var lastAt := if rows != [] then Latest(rows) else now;
    ReceivedUnbroken(s.reports, c);
    CreationLog(ReceivedEvents(s.reports, c), trigger, s.clusters[c].uniqueCount, lastAt,
                if trigger == Threshold then lastAt else now, p.required);
    FreshCaseOk(NewCase(s, c, trigger, now), p.required);
  }

  lemma {:induction false} FreshCaseOk(c: Case, required: int)
    requires Unbroken(c.events) && History(c.events) == [States.PendingReview]
    requires ThresholdsMet(c.events, required) && (c.thresholdAt.Some? <==> HasThreshold(c.events))
    requires forall e <- c.events :: !e.kind.StatusChanged?
    requires c.status == States.PendingReview && c.track == None && c.reviewedAt == None && c.emicReportedAt == None
    requires c.emicChannel == None && c.communitySubmittedAt == None && c.closedAt == None && c.resolvedAt == None
    ensures CaseOk(c, required)
  {
    assert States.LastTrack([States.PendingReview]) == None;
    NoMoves(c.events, None);
    NoMoves(c.events, Some(States.ReportedEmic));
    NoMoves(c.events, Some(States.CommunitySubmitted));
    NoMoves(c.events, Some(States.Closed));
  }

  lemma {:induction false} NewCaseLog(s: Tables, c: nat, trigger: Trigger, now: int)
    requires c < |s.clusters|
    ensures Logged(NewCase(s, c, trigger, now).events) == Logged(ReceivedEvents(s.reports, c))
  {
    var es, fs := ReceivedEvents(s.reports, c), NewCase(s, c, trigger, now).events;
    if trigger == Threshold {
      AppendEvent(es, fs[|es|]);
      AppendEvent(es + [fs[|es|]], fs[|es| + 1]);
      assert fs == es + [fs[|es|]] + [fs[|es| + 1]];
    } else {
      AppendEvent(es, fs[|es|]);
      assert fs == es + [fs[|es|]];
    }
  }

  /** The time of the latest live report of the cluster, or `now` when it has none. */
  ghost predicate IsLastArrival(rs: seq<Report>, c: nat, now: int, at: int) {
    && (forall i :: 0 <= i < |rs| && rs[i].cluster == Some(c) && rs[i].status != ReportStatus.Rejected ==>
         rs[i].at <= at)
    && ((exists i ::
           0 <= i < |rs| && rs[i].cluster == Some(c) && rs[i].status != ReportStatus.Rejected && rs[i].at == at)
        || (at == now
            && forall i :: 0 <= i < |rs| && rs[i].cluster == Some(c) ==> rs[i].status == ReportStatus.Rejected))
  }

  /** `d` is a fresh case of cluster `c`: it starts with the summary of the cluster, a case opened by the threshold is
      as old as the latest live report, and its log ends with the creation, a threshold a second part earlier. */
  ghost predicate IsNewCase(s: Tables, c: nat, trigger: Trigger, now: int, d: Case)
    requires c < |s.clusters|
  {
    var cl, n := s.clusters[c], |d.events|;
    && d.cluster == c && d.category == cl.category && d.severity == cl.severity
    && d.lat == cl.centroid.lat && d.lon == cl.centroid.lon
    && d.reportCount == cl.reportCount && d.uniqueCount == cl.uniqueCount
    && d.status == States.PendingReview && d.track == None && d.reviewedAt == None && d.closedAt == None
    && match trigger
       case Manual =>
         && d.createdAt == now && d.thresholdAt == None && n >= 1
         && d.events[n - 1] == CaseEvent(CaseCreated(Manual), None, Some(States.PendingReview), true, now)
       case Threshold =>
         && IsLastArrival(s.reports, c, now, d.createdAt) && d.thresholdAt == Some(d.createdAt) && n >= 2
         && d.events[n - 2] == CaseEvent(ThresholdReached(cl.uniqueCount), None, None, true, d.createdAt + 1_000)
         && d.events[n - 1]
            == CaseEvent(CaseCreated(Threshold), None, Some(States.PendingReview), true, d.createdAt + 2_000)
  }

  /** A new case is appended, the cluster points to it, and exactly the live reports of the cluster join it. */
  ghost predicate OpensCase(s: Tables, c: nat, trigger: Trigger, now: int, t: Tables)
    requires c < |s.clusters|
  {
    var k := |s.cases|;
    && |t.cases| == k + 1 && s.cases <= t.cases && IsNewCase(s, c, trigger, now, t.cases[k])
    && t.clusters == s.clusters[c := s.clusters[c].(caseId := Some(k), status := ClusterStatus.Promoted)]
    && |t.reports| == |s.reports|
    && forall i :: 0 <= i < |s.reports| ==>
         if s.reports[i].cluster == Some(c) && s.reports[i].status != ReportStatus.Rejected
         then t.reports[i] == s.reports[i].(caseId := Some(k), status := ReportStatus.Promoted)
         else t.reports[i] == s.reports[i]
  }

  lemma {:induction false} LatestIsLastArrival(rs: seq<Report>, c: nat, now: int)
    ensures IsLastArrival(rs, c, now, if Members(rs, c) != [] then Latest(Members(rs, c)) else now)
  {
    var rows := Members(rs, c);
    forall i | 0 <= i < |rs| && Counts(rs[i], c) ensures RowOf(rs[i]) in rows {
      MembersHas(rs, c, RowOf(rs[i]));
    }
    if rows != [] {
      var at := Latest(rows);
      var row :| row in rows && row.at == at;
      MembersHas(rs, c, row);
    }
  }

  /** What opening a case makes of the tables, in terms of the cluster and its live reports. */
  lemma {:induction false} CaseOpenedMeans(s: Tables, c: nat, trigger: Trigger, now: int)
    requires c < |s.clusters|
    ensures OpensCase(s, c, trigger, now, CaseOpened(s, c, trigger, now))
  {
    LatestIsLastArrival(s.reports, c, now);
  }

  lemma {:induction false} CaseOpenedReports(s: Tables, c: nat, trigger: Trigger, now: int, p: Policy)
    requires Base(s, p)
    requires c < |s.clusters| && s.clusters[c].caseId == None
    ensures var t := CaseOpened(s, c, trigger, now);
      forall i: nat :: i < |t.reports| ==>
        && ReportOk(t, i)
        && (s.reports[i].caseId.Some? ==> t.reports[i] == s.reports[i])
        && (t.reports[i].caseId == Some(|s.cases|) <==> Counts(s.reports[i], c))
        && (t.reports[i].caseId != Some(|s.cases|) ==> t.reports[i].caseId == s.reports[i].caseId)
  {
    var t := CaseOpened(s, c, trigger, now);
    assert ClusterLinked(s, c);
    forall i: nat | i < |t.reports|
      ensures
        && ReportOk(t, i)
        && (s.reports[i].caseId.Some? ==> t.reports[i] == s.reports[i])
        && (t.reports[i].caseId == Some(|s.cases|) <==> Counts(s.reports[i], c))
        && (t.reports[i].caseId != Some(|s.cases|) ==> t.reports[i].caseId == s.reports[i].caseId)
    {
      assert ReportOk(s, i);
      if s.reports[i].cluster.Some? {
        assert ClusterLinked(s, s.reports[i].cluster.value);
      }
    }
  }

  lemma {:induction false} CaseOpenedSound(s: Tables, c: nat, trigger: Trigger, now: int, p: Policy)
    requires forall k: nat :: k < |s.cases| ==> CaseSound(s, k, p)
    requires c < |s.clusters|
    requires trigger == Threshold ==> JustReached(s.clusters[c].uniqueCount, p.required)
    ensures var t := CaseOpened(s, c, trigger, now);
      forall j: nat :: j < |t.cases| ==> CaseSound(t, j, p)
  {
    var t := CaseOpened(s, c, trigger, now);
    NewCaseOk(s, c, trigger, now, p);
    forall j: nat | j < |t.cases| ensures CaseSound(t, j, p) {
      if j < |s.cases| {
        assert CaseSound(s, j, p);
      }
    }
  }

  lemma {:induction false} CaseOpenedNewLog(s: Tables, c: nat, trigger: Trigger, now: int, p: Policy)
    requires Base(s, p)
    requires c < |s.clusters| && s.clusters[c].caseId == None
    ensures CaseLogged(CaseOpened(s, c, trigger, now), |s.cases|)
  {
    NewCaseLog(s, c, trigger, now);
    LoggedReceived(s.reports, c);
    CaseOpenedReports(s, c, trigger, now, p);
    NewLogged(s, CaseOpened(s, c, trigger, now), c);
  }

  lemma {:induction false} CaseOpenedLogs(s: Tables, c: nat, trigger: Trigger, now: int, p: Policy)
    requires Base(s, p)
    requires c < |s.clusters| && s.clusters[c].caseId == None
    ensures var t := CaseOpened(s, c, trigger, now);
      forall j: nat :: j < |t.cases| ==> CaseLogged(t, j)
  {
    var t := CaseOpened(s, c, trigger, now);
    CaseOpenedNewLog(s, c, trigger, now, p);
    CaseOpenedReports(s, c, trigger, now, p);
    OldLogged(s, t, p);
    assert |t.cases| == |s.cases| + 1;
  }

  lemma {:induction false} OldLogged(s: Tables, t: Tables, p: Policy)
    requires forall k: nat :: k < |s.cases| ==> CaseLogged(s, k)
    requires s.cases <= t.cases && |t.reports| == |s.reports|
    requires forall i :: 0 <= i < |s.reports| ==>
      (t.reports[i].caseId != Some(|s.cases|) ==> t.reports[i].caseId == s.reports[i].caseId)
      && (s.reports[i].caseId.Some? ==> t.reports[i].caseId == s.reports[i].caseId)
    ensures forall j: nat :: j < |s.cases| ==> CaseLogged(t, j)
  {
    forall j: nat | j < |s.cases| ensures CaseLogged(t, j) {
      assert CaseLogged(s, j);
      LoggedFrame(s, t, j);
    }
  }

  lemma {:induction false} NewLogged(s: Tables, t: Tables, c: nat)
    requires |t.cases| == |s.cases| + 1 && |t.reports| == |s.reports|
    requires var ids := Logged(t.cases[|s.cases|].events);
      NoRepeats(ids) && forall i: nat :: i in ids <==> i < |s.reports| && Counts(s.reports[i], c)
    requires forall i :: 0 <= i < |s.reports| ==>
      (t.reports[i].caseId == Some(|s.cases|) <==> Counts(s.reports[i], c))
    ensures CaseLogged(t, |s.cases|)
  {
  }

  lemma {:induction false} CaseOpenedClusters(s: Tables, c: nat, trigger: Trigger, now: int, p: Policy)
    requires Base(s, p)
    requires c < |s.clusters| && s.clusters[c].caseId == None
    ensures var t := CaseOpened(s, c, trigger, now);
      && (forall d: nat :: Members(t.reports, d) == Members(s.reports, d))
      && (forall d: nat :: d < |t.clusters| ==> Counted(t, d, p) && ClusterLinked(t, d))
      && (forall j: nat :: j < |t.cases| ==> CaseLinked(t, j))
  {
    var t := CaseOpened(s, c, trigger, now);
    forall d: nat ensures Members(t.reports, d) == Members(s.reports, d) {
      MembersSame(s.reports, t.reports, d);
    }
    forall d: nat | d < |t.clusters| ensures Counted(t, d, p) {
      assert Counted(s, d, p);
    }
    forall d: nat | d < |t.clusters| ensures ClusterLinked(t, d) {
      assert ClusterLinked(s, d);
    }
    forall j: nat | j < |t.cases| ensures CaseLinked(t, j) {
      if j < |s.cases| {
        assert CaseLinked(s, j);
      }
    }
  }

  lemma {:induction false} CaseOpenedOk(s: Tables, c: nat, trigger: Trigger, now: int, p: Policy)
    requires Base(s, p)
    requires c < |s.clusters| && s.clusters[c].caseId == None
    requires trigger == Threshold ==> JustReached(s.clusters[c].uniqueCount, p.required)
    ensures Base(CaseOpened(s, c, trigger, now), p)
  {
    var t := CaseOpened(s, c, trigger, now);
    CaseOpenedReports(s, c, trigger, now, p);
    CaseOpenedSound(s, c, trigger, now, p);
    CaseOpenedLogs(s, c, trigger, now, p);
    CaseOpenedClusters(s, c, trigger, now, p);
    assert ClusterLinked(s, c) && Counted(s, c, p);
    forall j: nat | j < |t.cases| ensures CaseAgrees(t, j) {
      if j < |s.cases| {
        assert CaseLinked(s, j) && CaseAgrees(s, j);
      }
    }
  }

  // ---- process_report ----

  /** Every severity among the members of a cluster with a case, old or new, is accounted for. */
  lemma {:induction false} JoinedSeverity(s: Tables, id: nat, c: nat, p: Policy, row: Row)
    requires Base(s, p)
    requires id < |s.reports| && s.reports[id].status == ReportStatus.Received
    requires c < |s.clusters| && s.clusters[c].caseId.Some?
    requires row in Members(Joined(s, id, c, p).reports, c)
    ensures s.clusters[c].caseId.value < |s.cases|
    ensures row == RowOf(s.reports[id]) || Rank(row.severity) <= Rank(s.cases[s.clusters[c].caseId.value].severity)
  {
    var t := Joined(s, id, c, p);
    assert ClusterLinked(s, c);
    assert CaseAgrees(s, s.clusters[c].caseId.value);
    MembersHas(t.reports, c, row);
    var i :| 0 <= i < |t.reports| && Counts(t.reports[i], c) && RowOf(t.reports[i]) == row;
    if i != id {
      MembersHas(s.reports, c, row);
    }
  }

  lemma {:induction false} JoinedAttached(s: Tables, id: nat, c: nat, p: Policy)
    requires Base(s, p)
    requires id < |s.reports| && s.reports[id].status == ReportStatus.Received
    requires c < |s.clusters| && s.clusters[c].caseId.Some?
    ensures var k := s.clusters[c].caseId.value;
      k < |s.cases| && s.cases[k].cluster == c && Base(Attached(Joined(s, id, c, p), id, k), p)
  {
    var t := Joined(s, id, c, p);
    var k := s.clusters[c].caseId.value;
    assert ClusterLinked(s, c) && ReportOk(s, id);
    JoinedOk(s, id, c, p);
    forall row | row in Members(t.reports, c)
      ensures row == RowOf(t.reports[id]) || Rank(row.severity) <= Rank(t.cases[k].severity)
    {
      JoinedSeverity(s, id, c, p, row);
    }
    AttachedOk(t, id, k, p);
  }

  lemma {:induction false} ChosenBase(s: Tables, id: nat, choice: Option<nat>, p: Policy)
    requires Base(s, p) && id < |s.reports| && s.reports[id].pos.Some?
    ensures Base(Chosen(s, id, choice).0, p)
  {
    if choice.None? {
      NewClusterOk(s, s.reports[id], p);
    }
  }

  /** A cluster that waits for more people, if it has no case. */
  predicate Waits(cl: Cluster, p: Policy) {
    cl.caseId.None? ==> p.required < 1 || cl.uniqueCount < p.required
  }

  lemma {:induction false} ChosenWaits(s: Tables, id: nat, choice: Option<nat>, p: Policy)
    requires Below(s, p) && id < |s.reports| && s.reports[id].pos.Some?
    requires choice.Some? ==> choice.value < |s.clusters|
    ensures var (s0, c) := Chosen(s, id, choice);
      Waits(s0.clusters[c], p)
  {
    if choice.Some? {
      assert BelowAt(s, p, choice.value);
    }
  }

  /** A live report of the cluster carries this key. */
  ghost predicate Carried(rs: seq<Report>, c: nat, key: Option<string>) {
    exists i :: 0 <= i < |rs| && rs[i].cluster == Some(c) && rs[i].status != ReportStatus.Rejected && rs[i].key == key
  }

  /** How many people a report with this key adds to those behind the live reports of the cluster. */
  ghost function NewPeople(rs: seq<Report>, c: nat, key: Option<string>, p: Policy): nat {
    if key == None || key == Some("") then (if p.countAnonymous then 1 else 0)
    else if Carried(rs, c, key) then 0
    else 1
  }

  lemma {:induction false} KeyOfMember(rs: seq<Report>, c: nat, key: Option<string>)
    ensures key in Keys(Members(rs, c)) <==> Carried(rs, c, key)
  {
    var rows := Members(rs, c);
    if key in Keys(rows) {
      var i :| 0 <= i < |rows| && rows[i].key == key;
      MembersHas(rs, c, rows[i]);
    }
    if Carried(rs, c, key) {
      var i :| 0 <= i < |rs| && Counts(rs[i], c) && rs[i].key == key;
      MembersHas(rs, c, RowOf(rs[i]));
      var j :| 0 <= j < |rows| && rows[j] == RowOf(rs[i]);
      assert Keys(rows)[j] == key;
    }
  }

  /** The people behind the live reports of a cluster, with and without one of these. */
  lemma {:induction false} PeopleWithout(rs: seq<Report>, i: nat, t: Report, c: nat, p: Policy)
    requires i < |rs| && Counts(rs[i], c) && !Counts(t, c)
    ensures |Members(rs, c)| == |Members(rs[i := t], c)| + 1
    ensures CountUnique(Keys(Members(rs, c)), p.countAnonymous)
         == CountUnique(Keys(Members(rs[i := t], c)), p.countAnonymous) + NewPeople(rs[i := t], c, rs[i].key, p)
  {
    var a, b := MembersWithout(rs, i, t, c);
    KeysSplit(a, RowOf(rs[i]), b);
    OneMoreReport(Keys(a), rs[i].key, Keys(b), p.countAnonymous);
    KeyOfMember(rs[i := t], c, rs[i].key);
  }

  /** A report that joins brings one more person, or none when a live report of the cluster carries its key. */
  lemma {:induction false} JoinedGrows(s: Tables, id: nat, c: nat, p: Policy)
    requires Base(s, p)
    requires id < |s.reports| && s.reports[id].status == ReportStatus.Received
    requires c < |s.clusters|
    ensures Joined(s, id, c, p).clusters[c].reportCount == s.clusters[c].reportCount + 1
    ensures Joined(s, id, c, p).clusters[c].uniqueCount
         == s.clusters[c].uniqueCount + NewPeople(s.reports, c, s.reports[id].key, p)
  {
    assert ReportOk(s, id) && Counted(s, c, p);
    CountIsHeadcount(Keys(Members(s.reports, c)), p.countAnonymous);
    var r := s.reports[id];
    var j := r.(cluster := Some(c), status := ReportStatus.Clustered);
    var rs := s.reports[id := j];
    assert rs[id := r] == s.reports;
    PeopleWithout(rs, id, r, c, p);
  }

  lemma {:induction false} JoinedCompleted(s: Tables, id: nat, c: nat, p: Policy)
    requires Base(s, p)
    requires id < |s.reports| && s.reports[id].status == ReportStatus.Received
    requires c < |s.clusters| && LinksInRange(Joined(s, id, c, p)) && Waits(s.clusters[c], p)
    ensures Base(Completed(Joined(s, id, c, p), id, c, p), p)
  {
    var t := Joined(s, id, c, p);
    if t.clusters[c].caseId.Some? {
      JoinedAttached(s, id, c, p);
    } else {
      JoinedOk(s, id, c, p);
      if t.clusters[c].uniqueCount >= p.required {
        JoinedGrows(s, id, c, p);
        CaseOpenedOk(t, c, Threshold, t.reports[id].at, p);
      }
    }
  }

  lemma {:induction false} ProcessedBase(s: Tables, id: nat, choice: Option<nat>, p: Policy)
    requires Base(s, p) && Below(s, p)
    requires id < |s.reports| && s.reports[id].status == ReportStatus.Received
    requires choice.Some? ==> choice.value < |s.clusters|
    ensures LinksInRange(s) && Base(Processed(s, id, choice, p), p)
  {
    BaseLinks(s, p);
    if s.reports[id].pos.Some? {
      var (s0, c) := Chosen(s, id, choice);
      ChosenBase(s, id, choice, p);
      ChosenWaits(s, id, choice, p);
      ChosenLinks(s, id, choice);
      JoinedLinks(s0, id, c, p);
      JoinedCompleted(s0, id, c, p);
    }
  }

  lemma {:induction false} CompletedBelow(s: Tables, id: nat, c: nat, p: Policy)
    requires LinksInRange(s) && id < |s.reports| && c < |s.clusters|
    requires forall d: nat :: d < |s.clusters| && d != c ==> BelowAt(s, p, d)
    ensures Below(Completed(s, id, c, p), p)
  {
    var t := Completed(s, id, c, p);
    forall d: nat | d < |t.clusters| ensures BelowAt(t, p, d) {
      if d != c {
        assert BelowAt(s, p, d);
      }
    }
  }

  lemma {:induction false} ProcessedBelow(s: Tables, id: nat, choice: Option<nat>, p: Policy)
    requires Below(s, p) && LinksInRange(s)
    requires id < |s.reports|
    requires choice.Some? ==> choice.value < |s.clusters|
    ensures Below(Processed(s, id, choice, p), p)
  {
    if s.reports[id].pos.Some? {
      var (s0, c) := Chosen(s, id, choice);
      ChosenLinks(s, id, choice);
      JoinedLinks(s0, id, c, p);
      var s1 := Joined(s0, id, c, p);
      forall d: nat | d < |s1.clusters| && d != c ensures BelowAt(s1, p, d) {
        assert BelowAt(s, p, d);
      }
      CompletedBelow(s1, id, c, p);
    }
  }

  /** Nothing changes on the reports but their status and their case, and none is rejected. */
  ghost predicate SamePlaces(rs: seq<Report>, ts: seq<Report>) {
    && |rs| == |ts|
    && forall i :: 0 <= i < |rs| ==>
         && ts[i] == rs[i].(status := ts[i].status, caseId := ts[i].caseId)
         && (ts[i].status == ReportStatus.Rejected ==> rs[i].status == ReportStatus.Rejected)
  }

  lemma {:induction false} CompletedPlaces(s: Tables, id: nat, c: nat, p: Policy)
    requires LinksInRange(s) && id < |s.reports| && c < |s.clusters|
    ensures SamePlaces(s.reports, Completed(s, id, c, p).reports)
  {
    var t := Completed(s, id, c, p);
    forall i | 0 <= i < |s.reports|
      ensures t.reports[i] == s.reports[i].(status := t.reports[i].status, caseId := t.reports[i].caseId)
      ensures t.reports[i].status == ReportStatus.Rejected ==> s.reports[i].status == ReportStatus.Rejected
    {
      var r := InCase(s.reports[i], c, |s.cases|);
      assert r == s.reports[i].(status := r.status, caseId := r.caseId);
    }
  }

  /** Processing places the report it is called for, in the chosen cluster, and moves no other. */
  lemma {:induction false} ProcessedPlaces(s: Tables, id: nat, choice: Option<nat>, p: Policy)
    requires LinksInRange(s)
    requires id < |s.reports| && s.reports[id].cluster.None?
    requires choice.Some? ==> choice.value < |s.clusters|
    ensures var t := Processed(s, id, choice, p);
      && |t.reports| == |s.reports| && Placed(t.reports[id])
      && (s.reports[id].pos.Some? ==> t.reports[id].cluster == Some(Chosen(s, id, choice).1))
      && t.reports[id] == s.reports[id].(cluster := t.reports[id].cluster, status := t.reports[id].status,
                                         caseId := t.reports[id].caseId)
      && (t.reports[id].status == ReportStatus.Rejected ==> s.reports[id].status == ReportStatus.Rejected)
      && forall i :: 0 <= i < |s.reports| && i != id ==>
           t.reports[i].cluster == s.reports[i].cluster && t.reports[i].pos == s.reports[i].pos
  {
    if s.reports[id].pos.Some? {
      var (s0, c) := Chosen(s, id, choice);
      ChosenLinks(s, id, choice);
      JoinedLinks(s0, id, c, p);
      CompletedPlaces(Joined(s0, id, c, p), id, c, p);
      assert SamePlaces(Joined(s0, id, c, p).reports, Processed(s, id, choice, p).reports);
    }
  }

  /** A stored report is taken in: the invariant holds again. */
  lemma {:induction false} ProcessedInv(s: Tables, id: nat, choice: Option<nat>, p: Policy)
    requires Base(s, p) && Below(s, p)
    requires id < |s.reports| && s.reports[id].status == ReportStatus.Received
    requires choice.Some? ==> choice.value < |s.clusters|
    requires forall i :: 0 <= i < |s.reports| && i != id ==> Placed(s.reports[i])
    ensures LinksInRange(s) && Inv(Processed(s, id, choice, p), p)
  {
    BaseLinks(s, p);
    assert ReportOk(s, id);
    ProcessedBase(s, id, choice, p);
    ProcessedBelow(s, id, choice, p);
    ProcessedPlaces(s, id, choice, p);
  }

  // ---- reject_report, promote_cluster, the case calls ----

  lemma {:induction false} StruckKeepsCases(s: Tables, id: nat, p: Policy)
    requires Base(s, p) && id < |s.reports|
    ensures forall k: nat :: k < |s.cases| ==> CaseLinked(Struck(s, id), k)
    ensures forall k: nat :: k < |s.cases| ==> CaseAgrees(Struck(s, id), k)
  {
    var t := Struck(s, id);
    forall k: nat | k < |s.cases| ensures CaseLinked(t, k) {
      assert CaseLinked(s, k);
    }
    forall k: nat | k < |s.cases| ensures CaseAgrees(t, k) {
      assert CaseAgrees(s, k);
      FewerMembers(s.reports, id, s.cases[k].cluster);
    }
  }

  lemma {:induction false} RefusedAgrees(s: Tables, id: nat, p: Policy)
    requires Base(s, p) && id < |s.reports| && LinksInRange(s)
    ensures var t := Refused(s, id, p);
      forall k: nat :: k < |t.cases| ==> CaseAgrees(t, k)
  {
    StruckKeepsCases(s, id, p);
    if s.reports[id].cluster.Some? {
      var c := s.reports[id].cluster.value;
      assert ReportOk(s, id) && ClusterLinked(s, c);
      StruckAgrees(Struck(s, id), c, Recounted(Members(Struck(s, id).reports, c), s.clusters[c], p));
    }
  }

  lemma {:induction false} StruckAgrees(s: Tables, c: nat, cl: Cluster)
    requires c < |s.clusters| && ClusterLinked(s, c) && cl.caseId == s.clusters[c].caseId
    requires forall k: nat :: k < |s.cases| ==> CaseLinked(s, k)
    requires forall k: nat :: k < |s.cases| ==> CaseAgrees(s, k)
    ensures forall k: nat :: k < |s.cases| ==> CaseAgrees(Resummarised(s, c, cl), k)
  {
    var t := Resummarised(s, c, cl);
    forall k: nat | k < |t.cases| ensures CaseAgrees(t, k) {
      assert CaseLinked(s, k) && CaseAgrees(s, k);
    }
  }

  lemma {:induction false} RefusedOk(s: Tables, id: nat, p: Policy)
    requires Base(s, p) && id < |s.reports|
    ensures LinksInRange(s)
    ensures Base(Refused(s, id, p), p)
  {
    BaseLinks(s, p);
    var t := Refused(s, id, p);
    RefusedOnlySummaries(s, id, p);
    SummaryReports(s, t, p);
    SummaryLinks(s, t, p);
    SummaryCases(s, t, p);
    RefusedCounts(s, id, p);
    RefusedAgrees(s, id, p);
  }

  lemma {:induction false} RefusedCounts(s: Tables, id: nat, p: Policy)
    requires Base(s, p) && id < |s.reports| && LinksInRange(s)
    ensures var t := Refused(s, id, p);
      |t.clusters| == |s.clusters| && forall d: nat :: d < |t.clusters| ==> Counted(t, d, p)
  {
    var t := Refused(s, id, p);
    forall d: nat | d < |t.clusters| ensures Counted(t, d, p) {
      if s.reports[id].cluster == Some(d) {
        RecountIsAccurate(Members(t.reports, d), s.clusters[d], p);
      } else {
        MembersSame(s.reports, t.reports, d);
        assert Counted(s, d, p);
        CountedFrame(s, t, d, p);
      }
    }
  }

  /** Nothing changes on clusters and cases but their summaries. */
  ghost predicate OnlySummaries(s: Tables, t: Tables) {
    && |t.clusters| == |s.clusters| && |t.cases| == |s.cases| && |t.reports| == |s.reports|
    && (forall c :: 0 <= c < |s.clusters| ==>
         && t.clusters[c].caseId == s.clusters[c].caseId && t.clusters[c].status == s.clusters[c].status
         && t.clusters[c].category == s.clusters[c].category)
    && (forall k :: 0 <= k < |s.cases| ==>
         t.cases[k] == s.cases[k].(reportCount := t.cases[k].reportCount, uniqueCount := t.cases[k].uniqueCount))
    && (forall i :: 0 <= i < |s.reports| ==>
         t.reports[i] == s.reports[i] || t.reports[i] == s.reports[i].(status := ReportStatus.Rejected))
  }

  lemma {:induction false} ResummarisedOnly(s: Tables, c: nat, cl: Cluster)
    requires c < |s.clusters| && (cl.caseId.Some? ==> cl.caseId.value < |s.cases|)
    requires cl.caseId == s.clusters[c].caseId && cl.status == s.clusters[c].status
    requires cl.category == s.clusters[c].category
    ensures OnlySummaries(s, Resummarised(s, c, cl))
  {
  }

  lemma {:induction false} RefusedOnlySummaries(s: Tables, id: nat, p: Policy)
    requires id < |s.reports| && LinksInRange(s)
    ensures OnlySummaries(s, Refused(s, id, p))
  {
    var t := Struck(s, id);
    if s.reports[id].cluster.Some? {
      var c := s.reports[id].cluster.value;
      ResummarisedOnly(t, c, Recounted(Members(t.reports, c), t.clusters[c], p));
    }
  }

  lemma {:induction false} SummaryLinks(s: Tables, t: Tables, p: Policy)
    requires Base(s, p) && OnlySummaries(s, t)
    ensures forall d: nat :: d < |t.clusters| ==> ClusterLinked(t, d)
    ensures forall k: nat :: k < |t.cases| ==> CaseLinked(t, k)
  {
    forall d: nat | d < |t.clusters| ensures ClusterLinked(t, d) {
      assert ClusterLinked(s, d);
    }
    forall k: nat | k < |t.cases| ensures CaseLinked(t, k) {
      assert CaseLinked(s, k);
    }
  }

  lemma {:induction false} SummaryCases(s: Tables, t: Tables, p: Policy)
    requires Base(s, p) && OnlySummaries(s, t)
    ensures forall k: nat :: k < |t.cases| ==> CaseSound(t, k, p)
    ensures forall k: nat :: k < |t.cases| ==> CaseLogged(t, k)
  {
    forall k: nat | k < |t.cases| ensures CaseSound(t, k, p) {
      assert CaseSound(s, k, p);
      SoundFrame(s, t, k, p);
    }
    forall k: nat | k < |t.cases| ensures CaseLogged(t, k) {
      assert CaseLogged(s, k);
      LoggedFrame(s, t, k);
    }
  }

  lemma {:induction false} SummaryReports(s: Tables, t: Tables, p: Policy)
    requires Base(s, p) && OnlySummaries(s, t)
    ensures forall i: nat :: i < |t.reports| ==> ReportOk(t, i)
  {
    forall i: nat | i < |t.reports| ensures ReportOk(t, i) {
      assert ReportOk(s, i);
    }
  }

  lemma {:induction false} FewerMembers(rs: seq<Report>, id: nat, c: nat)
    requires id < |rs|
    ensures forall row <- Members(rs[id := rs[id].(status := ReportStatus.Rejected)], c) :: row in Members(rs, c)
  {
    var ts := rs[id := rs[id].(status := ReportStatus.Rejected)];
    forall row | row in Members(ts, c) ensures row in Members(rs, c) {
      MembersHas(ts, c, row);
      var i :| 0 <= i < |ts| && Counts(ts[i], c) && RowOf(ts[i]) == row;
      assert rs[i] == ts[i];
      MembersHas(rs, c, row);
    }
  }

  /** A rejection takes away the person who is behind no other live report of the cluster, and nobody else. */
  lemma {:induction false} RefusedPeople(s: Tables, id: nat, c: nat, p: Policy)
    requires Base(s, p) && id < |s.reports| && c < |s.clusters|
    ensures LinksInRange(s)
    ensures var t := Refused(s, id, p);
      && |t.clusters| == |s.clusters|
      && s.clusters[c].reportCount == t.clusters[c].reportCount + (if Counts(s.reports[id], c) then 1 else 0)
      && s.clusters[c].uniqueCount
         == t.clusters[c].uniqueCount
            + if Counts(s.reports[id], c) then NewPeople(t.reports, c, s.reports[id].key, p) else 0
  {
    BaseLinks(s, p);
    var t := Refused(s, id, p);
    var r := s.reports[id];
    assert t.reports == s.reports[id := t.reports[id]];
    assert Counted(s, c, p);
    CountIsHeadcount(Keys(Members(s.reports, c)), p.countAnonymous);
    if Counts(r, c) {
      PeopleWithout(s.reports, id, t.reports[id], c, p);
    } else {
      MembersSame(s.reports, t.reports, c);
    }
  }

  lemma {:induction false} RefusedBelow(s: Tables, id: nat, p: Policy)
    requires Base(s, p) && Below(s, p) && id < |s.reports|
    ensures LinksInRange(s)
    ensures Below(Refused(s, id, p), p)
  {
    BaseLinks(s, p);
    var t := Refused(s, id, p);
    forall d: nat | d < |t.clusters| ensures BelowAt(t, p, d) {
      assert BelowAt(s, p, d);
      RefusedPeople(s, id, d, p);
    }
  }

  lemma {:induction false} SettledLinks(s: Tables, k: nat, d: Case, p: Policy)
    requires Base(s, p) && k < |s.cases| && s.cases[k].cluster < |s.clusters|
    requires d.cluster == s.cases[k].cluster
    requires d.status == s.cases[k].status || States.CanTransition(s.cases[k].status, d.status)
    ensures var t := Settled(s, k, d);
      && (forall i: nat :: i < |t.reports| ==> ReportOk(t, i))
      && (forall e: nat :: e < |t.clusters| ==> ClusterLinked(t, e))
      && (forall j: nat :: j < |t.cases| ==> CaseLinked(t, j))
  {
    var t := Settled(s, k, d);
    assert CaseLinked(s, k) && ClusterLinked(s, s.cases[k].cluster);
    forall i: nat | i < |t.reports| ensures ReportOk(t, i) {
      assert ReportOk(s, i);
    }
    forall e: nat | e < |t.clusters| ensures ClusterLinked(t, e) {
      assert ClusterLinked(s, e);
    }
    forall j: nat | j < |t.cases| ensures CaseLinked(t, j) {
      assert CaseLinked(s, j);
    }
  }

  lemma {:induction false} SettledRows(s: Tables, k: nat, d: Case, p: Policy)
    requires Base(s, p) && k < |s.cases| && s.cases[k].cluster < |s.clusters|
    requires CaseOk(d, p.required) && SameIntake(s.cases[k], d)
    ensures var t := Settled(s, k, d);
      && (forall e: nat :: e < |t.clusters| ==> Counted(t, e, p))
      && (forall j: nat :: j < |t.cases| ==> CaseSound(t, j, p) && CaseLogged(t, j) && CaseAgrees(t, j))
  {
    var t := Settled(s, k, d);
    forall e: nat | e < |t.clusters| ensures Counted(t, e, p) {
      assert Counted(s, e, p);
      CountedFrame(s, t, e, p);
    }
    forall j: nat | j < |t.cases| ensures CaseSound(t, j, p) {
      assert CaseSound(s, j, p);
    }
    forall j: nat | j < |t.cases| ensures CaseLogged(t, j) {
      assert CaseLogged(s, j);
      LoggedFrame(s, t, j);
    }
    forall j: nat | j < |t.cases| ensures CaseAgrees(t, j) {
      assert CaseAgrees(s, j);
    }
  }

  lemma {:induction false} SettledBelow(s: Tables, k: nat, d: Case, p: Policy)
    requires k < |s.cases| && s.cases[k].cluster < |s.clusters| && Below(s, p)
    ensures Below(Settled(s, k, d), p)
  {
    var t := Settled(s, k, d);
    forall e: nat | e < |t.clusters| ensures BelowAt(t, p, e) {
      assert BelowAt(s, p, e);
    }
  }

  lemma {:induction false} SettledOk(s: Tables, k: nat, d: Case, p: Policy)
    requires Base(s, p) && k < |s.cases|
    requires CaseOk(d, p.required) && SameIntake(s.cases[k], d)
    requires d.status == s.cases[k].status || States.CanTransition(s.cases[k].status, d.status)
    ensures s.cases[k].cluster < |s.clusters|
    ensures Base(Settled(s, k, d), p)
  {
    assert CaseLinked(s, k);
    SettledLinks(s, k, d, p);
    SettledRows(s, k, d, p);
  }
}

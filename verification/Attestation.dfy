/**
 No cluster and no case is ever more severe than its reports: whatever severity they carry is one that some
 report of the cluster came with (apps/api/app/services/cluster_service.py and case_service.py).
 */
module Attestation {
  import opened Wrappers
  import opened Categories
  import opened Cases
  import opened Clustering
  import opened Tables
  import opened TableLemmas
  import opened LedgerRuns

  /** Some report of the cluster, live or rejected, came with this severity. */
  ghost predicate Reported(rs: seq<Report>, c: nat, v: Severity) {
    exists i :: 0 <= i < |rs| && rs[i].cluster == Some(c) && rs[i].severity == v
  }

  ghost predicate CaseAttested(s: Tables, k: nat)
    requires k < |s.cases|
  {
    Reported(s.reports, s.cases[k].cluster, s.cases[k].severity)
  }

  /** All clusters but `skip`, and all cases. */
  ghost predicate AttestedBut(s: Tables, skip: int) {
    && (forall c: nat :: c < |s.clusters| && c != skip ==> Reported(s.reports, c, s.clusters[c].severity))
    && (forall k: nat :: k < |s.cases| ==> CaseAttested(s, k))
  }

  ghost predicate Attested(s: Tables) {
    AttestedBut(s, -1)
  }

  /** Reports keep cluster and severity, and none leaves. */
  ghost predicate ReportsStay(rs: seq<Report>, ts: seq<Report>) {
    && |rs| <= |ts|
    && forall i :: 0 <= i < |rs| && rs[i].cluster.Some? ==>
         ts[i].cluster == rs[i].cluster && ts[i].severity == rs[i].severity
  }

  lemma {:induction false} StillReported(rs: seq<Report>, ts: seq<Report>, c: nat, v: Severity)
    requires ReportsStay(rs, ts) && Reported(rs, c, v)
    ensures Reported(ts, c, v)
  {
    var i :| 0 <= i < |rs| && rs[i].cluster == Some(c) && rs[i].severity == v;
    assert ts[i].cluster == Some(c) && ts[i].severity == v;
  }

  /** The recounted severity is that of a live report, or the one before. */
  lemma {:induction false} RecountIsReported(rs: seq<Report>, c: nat, cl: Cluster, p: Policy)
    ensures Members(rs, c) != [] ==> Reported(rs, c, Recounted(Members(rs, c), cl, p).severity)
    ensures Members(rs, c) == [] ==> Recounted(Members(rs, c), cl, p).severity == cl.severity
  {
    var rows := Members(rs, c);
    RecountIsAccurate(rows, cl, p);
    if rows != [] {
      var v := Recounted(rows, cl, p).severity;
      var row :| row in rows && row.severity == v;
      MembersHas(rs, c, row);
    }
  }

  lemma {:induction false} JoinedAttested(s: Tables, id: nat, c: nat, p: Policy)
    requires AttestedBut(s, c) && id < |s.reports| && s.reports[id].cluster.None? && c < |s.clusters|
    ensures Attested(Joined(s, id, c, p))
  {
    var t := Joined(s, id, c, p);
    assert ReportsStay(s.reports, t.reports);
    MembersHas(t.reports, c, RowOf(t.reports[id]));
    RecountIsReported(t.reports, c, s.clusters[c], p);
    forall d: nat | d < |t.clusters| ensures Reported(t.reports, d, t.clusters[d].severity) {
      if d != c {
        StillReported(s.reports, t.reports, d, s.clusters[d].severity);
      }
    }
    forall k: nat | k < |t.cases| ensures CaseAttested(t, k) {
      assert CaseAttested(s, k);
      StillReported(s.reports, t.reports, s.cases[k].cluster, s.cases[k].severity);
    }
  }

  /** Clusters and cases may change in everything but their severity and the cluster of a case. */
  lemma {:induction false} SameSeverities(s: Tables, t: Tables)
    requires Attested(s) && ReportsStay(s.reports, t.reports)
    requires |t.clusters| == |s.clusters| && |t.cases| == |s.cases|
    requires forall c :: 0 <= c < |s.clusters| ==> t.clusters[c].severity == s.clusters[c].severity
    requires forall k :: 0 <= k < |s.cases| ==>
      t.cases[k].severity == s.cases[k].severity && t.cases[k].cluster == s.cases[k].cluster
    ensures Attested(t)
  {
    forall c: nat | c < |t.clusters| ensures Reported(t.reports, c, t.clusters[c].severity) {
      StillReported(s.reports, t.reports, c, s.clusters[c].severity);
    }
    forall k: nat | k < |t.cases| ensures CaseAttested(t, k) {
      assert CaseAttested(s, k);
      StillReported(s.reports, t.reports, s.cases[k].cluster, s.cases[k].severity);
    }
  }

  lemma {:induction false} AttachedAttested(s: Tables, id: nat, k: nat)
    requires Attested(s) && id < |s.reports| && k < |s.cases| && s.cases[k].cluster < |s.clusters|
    requires s.reports[id].cluster == Some(s.cases[k].cluster)
    ensures Attested(Attached(s, id, k))
  {
    var t := Attached(s, id, k);
    var u := s.(reports := t.reports, cases := s.cases[k := t.cases[k].(severity := s.cases[k].severity)]);
    SameSeverities(s, u);
    forall j: nat | j < |t.cases| ensures CaseAttested(t, j) {
      assert CaseAttested(u, j);
      assert t.reports[id].cluster == Some(s.cases[k].cluster) && t.reports[id].severity == s.reports[id].severity;
    }
  }

  lemma {:induction false} CaseOpenedAttested(s: Tables, c: nat, trigger: Trigger, now: int)
    requires Attested(s) && c < |s.clusters|
    ensures Attested(CaseOpened(s, c, trigger, now))
  {
    var t := CaseOpened(s, c, trigger, now);
    CaseOpenedMeans(s, c, trigger, now);
    var u := t.(cases := s.cases);
    SameSeverities(s, u);
    forall k: nat | k < |t.cases| ensures CaseAttested(t, k) {
      if k < |s.cases| {
        assert CaseAttested(u, k);
      } else {
        assert Reported(u.reports, c, u.clusters[c].severity);
      }
    }
  }

  lemma {:induction false} CompletedAttested(s: Tables, id: nat, c: nat, p: Policy)
    requires Attested(s) && LinksInRange(s) && id < |s.reports| && c < |s.clusters|
    requires s.reports[id].cluster == Some(c)
    requires s.clusters[c].caseId.Some? ==>
      s.clusters[c].caseId.value < |s.cases| && s.cases[s.clusters[c].caseId.value].cluster == c
    ensures Attested(Completed(s, id, c, p))
  {
    if s.clusters[c].caseId.Some? {
      AttachedAttested(s, id, s.clusters[c].caseId.value);
    } else if s.clusters[c].uniqueCount >= p.required {
      CaseOpenedAttested(s, c, Threshold, s.reports[id].at);
    }
  }

  lemma {:induction false} ProcessedAttested(s: Tables, id: nat, choice: Option<nat>, p: Policy)
    requires Attested(s) && Base(s, p) && LinksInRange(s)
    requires id < |s.reports| && s.reports[id].status == ReportStatus.Received && s.reports[id].pos.Some?
    requires choice.Some? ==> choice.value < |s.clusters|
    ensures Attested(Processed(s, id, choice, p))
  {
    var (s0, c) := Chosen(s, id, choice);
    ChosenLinks(s, id, choice);
    JoinedLinks(s0, id, c, p);
    assert ReportOk(s, id);
    assert c < |s.clusters| ==> ClusterLinked(s, c);
    assert AttestedBut(s0, c) by {
      assert forall k: nat :: k < |s.cases| ==> (CaseAttested(s0, k) <==> CaseAttested(s, k));
    }
    JoinedAttested(s0, id, c, p);
    CompletedAttested(Joined(s0, id, c, p), id, c, p);
  }

  lemma {:induction false} ArrivedAttested(s: Tables, n: Submission)
    requires Attested(s)
    ensures Attested(Arrived(s, n))
  {
    SameSeverities(s, Arrived(s, n));
  }

  lemma {:induction false} RefusedAttested(s: Tables, id: nat, p: Policy)
    requires Attested(s) && LinksInRange(s) && id < |s.reports|
    ensures Attested(Refused(s, id, p))
  {
    var t := Struck(s, id);
    SameSeverities(s, t);
    if s.reports[id].cluster.Some? {
      var c := s.reports[id].cluster.value;
      var cl := Recounted(Members(t.reports, c), t.clusters[c], p);
      assert s.reports[id] in s.reports && s.clusters[c] in s.clusters;
      RecountIsReported(t.reports, c, t.clusters[c], p);
      ResummarisedAttested(t, c, cl);
    }
  }

  lemma {:induction false} ResummarisedAttested(s: Tables, c: nat, cl: Cluster)
    requires Attested(s) && c < |s.clusters| && Reported(s.reports, c, cl.severity)
    requires cl.caseId.Some? ==> cl.caseId.value < |s.cases|
    ensures Attested(Resummarised(s, c, cl))
  {
    var t := Resummarised(s, c, cl);
    forall k: nat | k < |t.cases| ensures CaseAttested(t, k) {
      assert CaseAttested(s, k);
    }
  }

  lemma {:induction false} CallAttested(s: Tables, k: nat, cmd: Command, x: Context, p: Policy)
    requires Attested(s) && k < |s.cases| && CaseSound(s, k, p) && s.cases[k].cluster < |s.clusters|
    ensures Attested(Committed(s, k, Execute(s.cases[k], cmd, x)))
  {
    if Execute(s.cases[k], cmd, x).Ok? {
      ExecuteOk(s.cases[k], cmd, x, p.required);
      SameSeverities(s, Settled(s, k, Execute(s.cases[k], cmd, x).value));
    }
  }

  lemma {:induction false} SubmitAttested(s: Tables, a: Action, p: Policy, g: Geo)
    requires Attested(s) && Inv(s, p) && a.Submit? && Enabled(s, a, p, g)
    ensures Attested(Step(s, a, p, g))
  {
    var t, id := Arrived(s, a.report), |s.reports|;
    ArrivedAttested(s, a.report);
    if a.report.pos.Some? {
      ArrivedBase(s, a.report, p);
      BaseLinks(t, p);
      ChoiceIsOpen(s.clusters, t.reports[id], a.order, p, g);
      ProcessedAttested(t, id, Choice(s.clusters, t.reports[id], a.order, p, g), p);
    }
  }

  lemma {:induction false} StepAttested(s: Tables, a: Action, p: Policy, g: Geo)
    requires Attested(s) && Inv(s, p)
    ensures Attested(Step(s, a, p, g))
  {
    if Enabled(s, a, p, g) {
      match a
      case Submit(_, _) => SubmitAttested(s, a, p, g);
      case Reject(id) => RefusedAttested(s, id, p);
      case Promote(c, now) =>
        if s.clusters[c].caseId.None? {
          CaseOpenedAttested(s, c, Manual, now);
        }
      case Call(k, cmd, x) =>
        assert s.cases[k] in s.cases;
        CallAttested(s, k, cmd, x, p);
    }
  }

  /** In every reachable state each cluster and each case has the severity of some report of the cluster. */
  lemma {:induction false} SeverityIsReported(trace: seq<Tables>, acts: seq<Action>, p: Policy, g: Geo, i: nat)
    requires IsRun(trace, acts, p, g) && i < |trace|
    ensures Attested(trace[i])
  {
    if i > 0 {
      SeverityIsReported(trace, acts, p, g, i - 1);
      ReachableInv(trace, acts, p, g, i - 1);
      StepAttested(trace[i - 1], acts[i - 1], p, g);
    }
  }
}

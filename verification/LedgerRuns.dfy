/** Whole runs of the intake ledger: any sequence of service calls, in any order, at any times. */
module LedgerRuns {
  import opened Wrappers
  import opened Categories
  import States = CaseStates
  import opened Cases
  import opened Clustering
  import opened Tables
  import opened TableLemmas

  /** What a citizen submits, after triage. */
  datatype Submission = Submission(
    category: string, severity: Severity, pos: Option<Pos>, key: Option<string>, at: int)

  function Arrived(s: Tables, n: Submission): Tables {
    s.(reports := s.reports + [Report(n.category, n.severity, n.pos, n.key, n.at, ReportStatus.Received, None, None)])
  }

  // ---- the choice of a cluster ----

  /** Whatever the row order, the chosen cluster is an open or promoted one. */
  lemma {:induction false} ChoiceIsOpen(clusters: seq<Cluster>, r: Report, order: seq<nat>, p: Policy, g: Geo)
    requires r.pos.Some? && RowOrder(clusters, QueryOf(r), p, g, order)
    ensures forall i :: 0 <= i < |order| ==> order[i] < |clusters|
    ensures var choice := Choice(clusters, r, order, p, g);
      choice.Some? ==> choice.value < |clusters| && OpenFor(clusters[choice.value], QueryOf(r), p, g)
  {
    assert forall i :: 0 <= i < |order| ==> order[i] in order;
    var cs := Candidates(clusters, order);
    PickIsFirstNearest(cs, QueryOf(r), p, g);
    var best := Pick(cs, QueryOf(r), p, g);
    if best.Some? {
      var i: nat :| i < |cs| && cs[i] == best.value && IsNearest(cs, i, QueryOf(r), p, g);
      assert order[i] in order;
    }
  }

  /** The cluster takes reports, lies in the box around the report, and suits it. */
  ghost predicate Eligible(clusters: seq<Cluster>, c: nat, q: Query, p: Policy, g: Geo)
    requires c < |clusters|
  {
    var cl := clusters[c];
    && (cl.status == ClusterStatus.Open || cl.status == ClusterStatus.Promoted)
    && g.inBox(q.pos, cl.centroid, p.radius)
    && Suits(cl.category, cl.centroid, cl.last, q, p, g)
  }

  /** Cluster `c` is eligible and every other eligible one is farther, or as far and no more recent; or no cluster
      of the whole table is eligible and `c` is a new one. */
  ghost predicate JoinsNearest(clusters: seq<Cluster>, q: Query, p: Policy, g: Geo, c: nat) {
    if c < |clusters| then
      && Eligible(clusters, c, q, p, g)
      && forall d: nat :: d < |clusters| && d != c && Eligible(clusters, d, q, p, g) ==>
           || g.distance(q.pos, clusters[c].centroid) < g.distance(q.pos, clusters[d].centroid)
           || (g.distance(q.pos, clusters[c].centroid) == g.distance(q.pos, clusters[d].centroid)
               && clusters[c].last >= clusters[d].last)
    else
      c == |clusters| && forall d: nat :: d < |clusters| ==> !Eligible(clusters, d, q, p, g)
  }

  /** An eligible cluster is among the listed candidates. */
  lemma {:induction false} EligibleIsListed(
      clusters: seq<Cluster>, q: Query, order: seq<nat>, p: Policy, g: Geo, c: nat) returns (i: nat)
    requires RowOrder(clusters, q, p, g, order) && c < |clusters| && Eligible(clusters, c, q, p, g)
    requires forall i :: 0 <= i < |order| ==> order[i] < |clusters|
    ensures i < |order| && order[i] == c && Candidates(clusters, order)[i] == CandidateOf(clusters, c)
    ensures CandidateOf(clusters, c) in Candidates(clusters, order)
  {
    assert OpenFor(clusters[c], q, p, g);
    i :| i < |order| && order[i] == c;
  }

  /** Whatever the row order, a report opens a new cluster exactly when no cluster of the whole table is
      eligible; otherwise it joins an eligible one than which none is nearer, or as near and more recent. */
  lemma {:induction false} ChoiceIsNearest(clusters: seq<Cluster>, r: Report, order: seq<nat>, p: Policy, g: Geo)
    requires r.pos.Some? && RowOrder(clusters, QueryOf(r), p, g, order)
    ensures forall i :: 0 <= i < |order| ==> order[i] < |clusters|
    ensures var choice := Choice(clusters, r, order, p, g);
      && (choice.Some? ==> choice.value < |clusters|)
      && JoinsNearest(clusters, QueryOf(r), p, g, if choice.Some? then choice.value else |clusters|)
  {
    ChoiceIsOpen(clusters, r, order, p, g);
    var q, cs := QueryOf(r), Candidates(clusters, order);
    var best := Pick(cs, q, p, g);
    PickIsFirstNearest(cs, q, p, g);
    if best.None? {
      forall c: nat | c < |clusters| ensures !Eligible(clusters, c, q, p, g) {
        if Eligible(clusters, c, q, p, g) {
          var i := EligibleIsListed(clusters, q, order, p, g, c);
        }
      }
    } else {
      var i: nat :| i < |cs| && cs[i] == best.value && IsNearest(cs, i, q, p, g);
      assert cs[i] == CandidateOf(clusters, order[i]) && best.value.id == order[i];
      forall d: nat | d < |clusters| && d != order[i] && Eligible(clusters, d, q, p, g)
        ensures || g.distance(q.pos, clusters[order[i]].centroid) < g.distance(q.pos, clusters[d].centroid)
                || (g.distance(q.pos, clusters[order[i]].centroid) == g.distance(q.pos, clusters[d].centroid)
                    && clusters[order[i]].last >= clusters[d].last)
      {
        var j := EligibleIsListed(clusters, q, order, p, g, d);
        assert Suits(cs[j].category, cs[j].at, cs[j].last, q, p, g);
      }
    }
  }

  datatype Action =
    | Submit(report: Submission, order: seq<nat>)
    | Reject(id: nat)
    | Promote(cluster: nat, now: int)
    | Call(caseId: nat, command: Command, context: Context)

  /** A submission comes with the order in which the database happened to list the open clusters;
      the other calls name an existing row. */
  ghost predicate Enabled(s: Tables, a: Action, p: Policy, g: Geo) {
    && LinksInRange(s)
    && match a
       case Submit(n, order) =>
         n.pos.Some? ==> RowOrder(s.clusters, Query(n.pos.value, n.category, n.at), p, g, order)
       case Reject(id) => id < |s.reports|
       case Promote(c, _) => c < |s.clusters|
       case Call(k, _, _) => k < |s.cases|
  }

  /** One committed call; a call that names no row changes nothing. */
  ghost function Step(s: Tables, a: Action, p: Policy, g: Geo): Tables {
    if !Enabled(s, a, p, g) then s
    else match a
      case Submit(n, order) =>
        var t := Arrived(s, n);
        if n.pos.None? then t
        else
          ChoiceIsOpen(s.clusters, t.reports[|s.reports|], order, p, g);
          Processed(t, |s.reports|, Choice(s.clusters, t.reports[|s.reports|], order, p, g), p)
      case Reject(id) => Refused(s, id, p)
      case Promote(c, now) => PromotedByHand(s, c, now)
      case Call(k, cmd, x) => Committed(s, k, Execute(s.cases[k], cmd, x))
  }

  /** `t` is `s` after report `id` was processed, the open clusters having been listed in this order. */
  ghost predicate ProcessedAs(s: Tables, id: nat, order: seq<nat>, p: Policy, g: Geo, t: Tables, cluster: Option<nat>) {
    && LinksInRange(s) && id < |s.reports|
    && if s.reports[id].pos.None? then t == s && cluster == None
       else
         && RowOrder(s.clusters, QueryOf(s.reports[id]), p, g, order)
         && (forall i :: 0 <= i < |order| ==> order[i] < |s.clusters|)
         && var choice := Choice(s.clusters, s.reports[id], order, p, g);
         && (choice.Some? ==> choice.value < |s.clusters|)
         && t == Processed(s, id, choice, p)
         && cluster == Some(if choice.Some? then choice.value else |s.clusters|)
  }

  /** `t` is what submitting `n` makes of `s`, for some order of the open clusters. */
  ghost predicate SubmittedAs(s: Tables, n: Submission, p: Policy, g: Geo, t: Tables) {
    exists order :: Enabled(s, Submit(n, order), p, g) && t == Step(s, Submit(n, order), p, g)
  }

  lemma {:induction false} ProcessedJoins(
      s: Tables, id: nat, order: seq<nat>, p: Policy, g: Geo, t: Tables, cluster: Option<nat>)
    requires ProcessedAs(s, id, order, p, g, t, cluster)
    ensures cluster.Some? <==> s.reports[id].pos.Some?
    ensures cluster.Some? ==> JoinsNearest(s.clusters, QueryOf(s.reports[id]), p, g, cluster.value)
  {
    if s.reports[id].pos.Some? {
      ChoiceIsNearest(s.clusters, s.reports[id], order, p, g);
    }
  }

  lemma {:induction false} SubmitIsProcessing(
      s: Tables, n: Submission, order: seq<nat>, p: Policy, g: Geo, t: Tables, cluster: Option<nat>)
    requires LinksInRange(s) && ProcessedAs(Arrived(s, n), |s.reports|, order, p, g, t, cluster)
    ensures Enabled(s, Submit(n, order), p, g) && t == Step(s, Submit(n, order), p, g)
    ensures SubmittedAs(s, n, p, g, t)
  {
  }

  ghost predicate IsRun(trace: seq<Tables>, acts: seq<Action>, p: Policy, g: Geo) {
    && |trace| == |acts| + 1
    && trace[0] == EMPTY
    && forall i :: 0 <= i < |acts| ==> trace[i + 1] == Step(trace[i], acts[i], p, g)
  }

  // ---- every call keeps the invariant ----

  lemma {:induction false} ArrivedBase(s: Tables, n: Submission, p: Policy)
    requires Base(s, p) && Below(s, p)
    ensures Base(Arrived(s, n), p) && Below(Arrived(s, n), p)
  {
    var t := Arrived(s, n);
    forall i: nat | i < |t.reports| ensures ReportOk(t, i) {
      if i < |s.reports| {
        assert ReportOk(s, i);
      }
    }
    forall d: nat ensures Members(t.reports, d) == Members(s.reports, d) {
      assert t.reports[..|s.reports|] == s.reports;
    }
    forall d: nat | d < |t.clusters| ensures Counted(t, d, p) {
      assert Counted(s, d, p);
    }
    forall d: nat | d < |t.clusters| ensures ClusterLinked(t, d) && BelowAt(t, p, d) {
      assert ClusterLinked(s, d) && BelowAt(s, p, d);
    }
    forall k: nat | k < |t.cases| ensures CaseSound(t, k, p) && CaseLogged(t, k) {
      assert CaseSound(s, k, p) && CaseLogged(s, k);
    }
    forall k: nat | k < |t.cases| ensures CaseLinked(t, k) && CaseAgrees(t, k) {
      assert CaseLinked(s, k) && CaseAgrees(s, k);
    }
  }

  lemma {:induction false} SubmitKeepsInv(s: Tables, a: Action, p: Policy, g: Geo)
    requires Inv(s, p) && a.Submit? && Enabled(s, a, p, g)
    ensures Inv(Step(s, a, p, g), p)
  {
    var t := Arrived(s, a.report);
    ArrivedBase(s, a.report, p);
    var id := |s.reports|;
    assert forall i :: 0 <= i < id ==> t.reports[i] == s.reports[i] && s.reports[i] in s.reports;
    if a.report.pos.Some? {
      var r := t.reports[id];
      ChoiceIsOpen(s.clusters, r, a.order, p, g);
      var choice := Choice(s.clusters, r, a.order, p, g);
      ProcessedInv(t, id, choice, p);
    }
  }

  lemma {:induction false} StepKeepsInv(s: Tables, a: Action, p: Policy, g: Geo)
    requires Inv(s, p)
    ensures Inv(Step(s, a, p, g), p)
  {
    if Enabled(s, a, p, g) {
      var t := Step(s, a, p, g);
      match a
      case Submit(n, order) => SubmitKeepsInv(s, a, p, g);
      case Reject(id) =>
        RefusedOk(s, id, p);
        RefusedBelow(s, id, p);
        assert forall i :: 0 <= i < |s.reports| ==> s.reports[i] in s.reports;
      case Promote(c, now) =>
        if s.clusters[c].caseId.None? {
          CaseOpenedOk(s, c, Manual, now, p);
          HandPromotionRest(s, c, now, p);
        }
      case Call(k, cmd, x) =>
        var r := Execute(s.cases[k], cmd, x);
        if r.Ok? {
          assert CaseSound(s, k, p);
          ExecuteOk(s.cases[k], cmd, x, p.required);
          SettledOk(s, k, r.value, p);
          SettledBelow(s, k, r.value, p);
        }
    }
  }

  lemma {:induction false} HandPromotionRest(s: Tables, c: nat, now: int, p: Policy)
    requires Below(s, p) && c < |s.clusters|
    requires forall r <- s.reports :: Placed(r)
    ensures var t := CaseOpened(s, c, Manual, now);
      Below(t, p) && forall r <- t.reports :: Placed(r)
  {
    var t := CaseOpened(s, c, Manual, now);
    forall d: nat | d < |t.clusters| ensures BelowAt(t, p, d) {
      assert BelowAt(s, p, d);
    }
    forall r | r in t.reports ensures Placed(r) {
      var i :| 0 <= i < |t.reports| && t.reports[i] == r;
      assert s.reports[i] in s.reports;
    }
  }

  /** The stored report has been processed: the transaction is complete and the invariant holds again. */
  lemma {:induction false} SubmitCompletes(
      s: Tables, n: Submission, order: seq<nat>, p: Policy, g: Geo, t: Tables, cluster: Option<nat>)
    requires Inv(s, p) && ProcessedAs(Arrived(s, n), |s.reports|, order, p, g, t, cluster)
    ensures Inv(t, p) && SubmittedAs(s, n, p, g, t)
  {
    BaseLinks(s, p);
    SubmitIsProcessing(s, n, order, p, g, t, cluster);
    StepKeepsInv(s, Submit(n, order), p, g);
  }

  /** The submission went to this cluster and made case `k` of it, the only new one, for exactly as many
      people as required. */
  ghost predicate CreatedFor(s: Tables, cluster: Option<nat>, k: nat, t: Tables, p: Policy) {
    && k == |s.cases| && cluster.Some? && |t.reports| == |s.reports| + 1
    && Opened(t, |s.reports|, cluster.value, k)
    && JustReached(t.cases[k].uniqueCount, p.required)
  }

  /** The report holds what was submitted and is not rejected. */
  ghost predicate StoredAs(n: Submission, r: Report) {
    && r.category == n.category && r.severity == n.severity && r.pos == n.pos && r.key == n.key && r.at == n.at
    && r.status != ReportStatus.Rejected
  }

  /** Cluster `c` takes a report with this key: it has one person more, or as many when one of its live reports carries
      the key already; a case is made exactly when the cluster had none and now has as many people as required. */
  ghost predicate Gains(s: Tables, key: Option<string>, c: nat, t: Tables, p: Policy) {
    && c < |t.clusters|
    && t.clusters[c].reportCount == (if c < |s.clusters| then s.clusters[c].reportCount else 0) + 1
    && t.clusters[c].uniqueCount
       == (if c < |s.clusters| then s.clusters[c].uniqueCount else 0) + NewPeople(s.reports, c, key, p)
    && |s.cases| <= |t.cases|
    && (|t.cases| > |s.cases| <==>
         (c < |s.clusters| ==> s.clusters[c].caseId == None) && t.clusters[c].uniqueCount >= p.required)
    && (|t.cases| == |s.cases| && t.clusters[c].caseId.Some? ==>
         c < |s.clusters| && s.clusters[c].caseId == t.clusters[c].caseId)
  }

  /** Nobody new is counted for cluster `c`, and it gets no case that it did not have. */
  ghost predicate AddsNobody(s: Tables, c: nat, t: Tables) {
    && c < |s.clusters| && c < |t.clusters|
    && t.clusters[c].uniqueCount == s.clusters[c].uniqueCount
    && t.clusters[c].caseId == s.clusters[c].caseId
    && (s.clusters[c].caseId == None ==> |t.cases| == |s.cases|)
  }

  lemma {:induction false} SubmittedKept(s: Tables, n: Submission, t: Tables, p: Policy, g: Geo)
    requires Inv(s, p) && SubmittedAs(s, n, p, g, t)
    ensures Kept(s, t) && LinksInRange(s)
  {
    var order :| Enabled(s, Submit(n, order), p, g) && t == Step(s, Submit(n, order), p, g);
    StepKept(s, Submit(n, order), p, g);
  }

  /** Whoever reports again to the same cluster is not counted again, and that report alone opens no case. */
  lemma {:induction false} SamePersonAddsNobody(s: Tables, n: Submission, c: nat, t: Tables, p: Policy)
    requires LinksInRange(s) && Below(s, p) && Kept(s, t) && Gains(s, n.key, c, t, p)
    requires n.key != None && n.key != Some("") && Carried(s.reports, c, n.key)
    ensures AddsNobody(s, c, t)
  {
    var i :| 0 <= i < |s.reports| && s.reports[i].cluster == Some(c) && s.reports[i].key == n.key;
    assert s.reports[i] in s.reports && c < |s.clusters|;
    assert BelowAt(s, p, c) && ClusterKept(s.clusters[c], t.clusters[c]);
  }

  /** As a property of an answer. */
  ghost predicate CountsPeopleOnce(s: Tables, n: Submission, c: nat, t: Tables) {
    n.key != None && n.key != Some("") && Carried(s.reports, c, n.key) ==> AddsNobody(s, c, t)
  }

  lemma {:induction false} SubmitCountsPeopleOnce(s: Tables, n: Submission, c: nat, t: Tables, p: Policy, g: Geo)
    requires Inv(s, p) && SubmittedAs(s, n, p, g, t) && Gains(s, n.key, c, t, p)
    ensures CountsPeopleOnce(s, n, c, t)
  {
    SubmittedKept(s, n, t, p, g);
    if n.key != None && n.key != Some("") && Carried(s.reports, c, n.key) {
      SamePersonAddsNobody(s, n, c, t, p);
    }
  }

  /** What a rejection of report `id` takes from cluster `c`: the report and the person who is behind no other live
      report of the cluster, if it was live there. */
  ghost predicate Loses(s: Tables, id: nat, c: nat, t: Tables, p: Policy)
    requires id < |s.reports| && c < |s.clusters|
  {
    var live := s.reports[id].cluster == Some(c) && s.reports[id].status != ReportStatus.Rejected;
    && c < |t.clusters|
    && s.clusters[c].reportCount == t.clusters[c].reportCount + (if live then 1 else 0)
    && s.clusters[c].uniqueCount
       == t.clusters[c].uniqueCount + if live then NewPeople(t.reports, c, s.reports[id].key, p) else 0
  }

  /** A report that is stored but in no cluster yet makes no difference to this. */
  lemma {:induction false} ArrivedGains(s: Tables, n: Submission, c: nat, t: Tables, p: Policy)
    requires Gains(Arrived(s, n), n.key, c, t, p)
    ensures Gains(s, n.key, c, t, p)
  {
    SameCarried(s, n, c);
    assert NewPeople(Arrived(s, n).reports, c, n.key, p) == NewPeople(s.reports, c, n.key, p);
  }

  lemma {:induction false} SubmitJoins(
      s: Tables, n: Submission, order: seq<nat>, p: Policy, g: Geo, t: Tables, c: nat)
    requires Inv(s, p) && n.pos.Some? && ProcessedAs(Arrived(s, n), |s.reports|, order, p, g, t, Some(c))
    ensures Gains(s, n.key, c, t, p) && TouchesOnly(s.clusters, n.category, c, t.clusters)
    ensures JoinsNearest(s.clusters, Query(n.pos.value, n.category, n.at), p, g, c)
  {
    var a, id := Arrived(s, n), |s.reports|;
    ArrivedBase(s, n, p);
    var choice := Choice(a.clusters, a.reports[id], order, p, g);
    ChoiceIsNearest(a.clusters, a.reports[id], order, p, g);
    ProcessedGains(a, id, choice, p);
    ProcessedTouches(a, id, choice, p);
    ArrivedGains(s, n, c, t, p);
  }

  /** What the answer to a submission says is true of the tables. */
  lemma {:induction false} SubmitAnswers(
      s: Tables, n: Submission, order: seq<nat>, p: Policy, g: Geo, t: Tables, cluster: Option<nat>)
    requires Inv(s, p) && ProcessedAs(Arrived(s, n), |s.reports|, order, p, g, t, cluster)
    ensures |t.reports| == |s.reports| + 1 && StoredAs(n, t.reports[|s.reports|])
    ensures cluster == t.reports[|s.reports|].cluster && (cluster.Some? <==> n.pos.Some?)
    ensures |t.cases| > |s.cases| ==> CreatedFor(s, cluster, |s.cases|, t, p)
    ensures cluster.Some? ==>
      Gains(s, n.key, cluster.value, t, p) && TouchesOnly(s.clusters, n.category, cluster.value, t.clusters)
    ensures cluster.Some? ==> JoinsNearest(s.clusters, Query(n.pos.value, n.category, n.at), p, g, cluster.value)
  {
    var a, id := Arrived(s, n), |s.reports|;
    ArrivedBase(s, n, p);
    if n.pos.Some? {
      var choice := Choice(a.clusters, a.reports[id], order, p, g);
      ProcessedPlaces(a, id, choice, p);
      SubmitJoins(s, n, order, p, g, t, cluster.value);
      if |t.cases| > |s.cases| {
        ProcessedCreates(a, id, choice, p);
      }
    }
  }

  /** Case `k` is new, belongs to cluster `c` and has its summary; report `id` is part of it. */
  ghost predicate Opened(t: Tables, id: nat, c: nat, k: nat) {
    && |t.cases| == k + 1 && c < |t.clusters| && t.clusters[c].caseId == Some(k)
    && id < |t.reports| && t.reports[id].caseId == Some(k)
    && var d, cl := t.cases[k], t.clusters[c];
    && d.cluster == c && d.status == States.PendingReview && d.thresholdAt == Some(d.createdAt)
    && d.category == cl.category && d.severity == cl.severity
    && d.lat == cl.centroid.lat && d.lon == cl.centroid.lon
    && d.reportCount == cl.reportCount && d.uniqueCount == cl.uniqueCount
  }

  lemma {:induction false} CompletedCreates(s: Tables, id: nat, c: nat, p: Policy)
    requires LinksInRange(s) && id < |s.reports| && c < |s.clusters| && Counts(s.reports[id], c)
    requires |Completed(s, id, c, p).cases| > |s.cases|
    ensures Opened(Completed(s, id, c, p), id, c, |s.cases|)
    ensures s.clusters[c].caseId == None
    ensures Completed(s, id, c, p).cases[|s.cases|].uniqueCount == s.clusters[c].uniqueCount
  {
  }

  lemma {:induction false} ProcessedCreates(s: Tables, id: nat, choice: Option<nat>, p: Policy)
    requires Base(s, p) && Below(s, p) && LinksInRange(s)
    requires id < |s.reports| && s.reports[id].status == ReportStatus.Received && s.reports[id].pos.Some?
    requires choice.Some? ==> choice.value < |s.clusters|
    requires |Processed(s, id, choice, p).cases| > |s.cases|
    ensures var t := Processed(s, id, choice, p);
      && Opened(t, id, Chosen(s, id, choice).1, |s.cases|)
      && JustReached(t.cases[|s.cases|].uniqueCount, p.required)
  {
    var (s0, c) := Chosen(s, id, choice);
    ChosenBase(s, id, choice, p);
    ChosenWaits(s, id, choice, p);
    ChosenLinks(s, id, choice);
    JoinedLinks(s0, id, c, p);
    JoinedGrows(s0, id, c, p);
    CompletedCreates(Joined(s0, id, c, p), id, c, p);
  }

  /** A stored report that is in no cluster yet carries no key for one. */
  lemma {:induction false} SameCarried(s: Tables, n: Submission, c: nat)
    ensures Carried(Arrived(s, n).reports, c, n.key) <==> Carried(s.reports, c, n.key)
  {
    var rs := Arrived(s, n).reports;
    assert forall i :: 0 <= i < |s.reports| ==> rs[i] == s.reports[i];
  }

  /** No other cluster changes; a new one comes last and has the category of the report, a known one keeps its own. */
  ghost predicate TouchesOnly(before: seq<Cluster>, category: string, c: nat, after: seq<Cluster>) {
    && c <= |before| && |after| == (if c < |before| then |before| else c + 1)
    && after[c].category == (if c < |before| then before[c].category else category)
    && forall d :: 0 <= d < |before| && d != c ==> after[d] == before[d]
  }

  lemma {:induction false} ProcessedTouches(s: Tables, id: nat, choice: Option<nat>, p: Policy)
    requires LinksInRange(s) && id < |s.reports| && s.reports[id].pos.Some?
    requires choice.Some? ==> choice.value < |s.clusters|
    ensures TouchesOnly(
      s.clusters, s.reports[id].category, Chosen(s, id, choice).1, Processed(s, id, choice, p).clusters)
  {
    var (s0, c) := Chosen(s, id, choice);
    ChosenLinks(s, id, choice);
    JoinedLinks(s0, id, c, p);
    CompletedTouches(Joined(s0, id, c, p), id, c, p);
  }

  lemma {:induction false} CompletedTouches(s: Tables, id: nat, c: nat, p: Policy)
    requires LinksInRange(s) && id < |s.reports| && c < |s.clusters|
    ensures TouchesOnly(s.clusters, s.clusters[c].category, c, Completed(s, id, c, p).clusters)
  {
  }

  lemma {:induction false} CompletedGains(s: Tables, id: nat, c: nat, p: Policy)
    requires LinksInRange(s) && id < |s.reports| && c < |s.clusters|
    ensures var t := Completed(s, id, c, p);
      && c < |t.clusters|
      && t.clusters[c].reportCount == s.clusters[c].reportCount
      && t.clusters[c].uniqueCount == s.clusters[c].uniqueCount
      && |s.cases| <= |t.cases|
      && (|t.cases| > |s.cases| <==> s.clusters[c].caseId == None && s.clusters[c].uniqueCount >= p.required)
      && (|t.cases| == |s.cases| ==> t.clusters[c].caseId == s.clusters[c].caseId)
  {
  }

  lemma {:induction false} ProcessedGains(s: Tables, id: nat, choice: Option<nat>, p: Policy)
    requires Base(s, p) && LinksInRange(s)
    requires id < |s.reports| && s.reports[id].status == ReportStatus.Received && s.reports[id].pos.Some?
    requires choice.Some? ==> choice.value < |s.clusters|
    ensures Gains(s, s.reports[id].key, Chosen(s, id, choice).1, Processed(s, id, choice, p), p)
  {
    var (s0, c) := Chosen(s, id, choice);
    ChosenBase(s, id, choice, p);
    ChosenLinks(s, id, choice);
    JoinedLinks(s0, id, c, p);
    JoinedGrows(s0, id, c, p);
    CompletedGains(Joined(s0, id, c, p), id, c, p);
  }

  lemma {:induction false} ArrivedLinks(s: Tables, n: Submission, p: Policy)
    requires Inv(s, p)
    ensures LinksInRange(Arrived(s, n))
  {
    ArrivedBase(s, n, p);
    BaseLinks(Arrived(s, n), p);
  }

  // ---- what no call undoes ----

  ghost predicate ReportKept(r: Report, t: Report) {
    && t.category == r.category && t.severity == r.severity && t.pos == r.pos && t.key == r.key && t.at == r.at
    && t.cluster == r.cluster
    && (r.status == ReportStatus.Rejected ==> t.status == ReportStatus.Rejected)
    && (r.caseId.Some? ==> t.caseId == r.caseId)
  }

  ghost predicate ClusterKept(c: Cluster, d: Cluster) {
    && d.category == c.category
    && (c.caseId.Some? ==> d.caseId == c.caseId)
    && (c.status == ClusterStatus.Closed || c.status == ClusterStatus.Dismissed ==> d.status == c.status)
  }

  /** A report that carries a finished case in `t` already carried it in `s`. */
  ghost predicate NoLateArrival(s: Tables, t: Tables, k: nat)
    requires k < |s.cases|
  {
    States.Finished(s.cases[k].status) ==>
      forall i :: 0 <= i < |t.reports| && t.reports[i].caseId == Some(k) ==>
        i < |s.reports| && s.reports[i].caseId == Some(k)
  }

  /** Nothing that a later state may not undo was undone; only the first `n` reports are compared. */
  ghost predicate KeptUpTo(s: Tables, t: Tables, n: nat) {
    && n <= |s.reports| <= |t.reports| && |s.clusters| <= |t.clusters| && |s.cases| <= |t.cases|
    && (forall i :: 0 <= i < n ==> ReportKept(s.reports[i], t.reports[i]))
    && (forall c :: 0 <= c < |s.clusters| ==> ClusterKept(s.clusters[c], t.clusters[c]))
    && (forall k :: 0 <= k < |s.cases| ==> CaseKept(s.cases[k], t.cases[k]))
    && (forall k: nat :: k < |s.cases| ==> NoLateArrival(s, t, k))
  }

  ghost predicate Kept(s: Tables, t: Tables) {
    KeptUpTo(s, t, |s.reports|)
  }

  lemma {:induction false} KeptCompose(s: Tables, t: Tables, u: Tables, n: nat)
    requires KeptUpTo(s, t, n) && KeptUpTo(t, u, n)
    ensures KeptUpTo(s, u, n)
  {
    forall i | 0 <= i < n ensures ReportKept(s.reports[i], u.reports[i]) {
      assert ReportKept(s.reports[i], t.reports[i]) && ReportKept(t.reports[i], u.reports[i]);
    }
    forall c | 0 <= c < |s.clusters| ensures ClusterKept(s.clusters[c], u.clusters[c]) {
      assert ClusterKept(s.clusters[c], t.clusters[c]) && ClusterKept(t.clusters[c], u.clusters[c]);
    }
    forall k | 0 <= k < |s.cases| ensures CaseKept(s.cases[k], u.cases[k]) {
      KeptTransitive(s.cases[k], t.cases[k], u.cases[k]);
    }
    forall k: nat | k < |s.cases| ensures NoLateArrival(s, u, k) {
      assert NoLateArrival(s, t, k) && NoLateArrival(t, u, k);
      assert CaseKept(s.cases[k], t.cases[k]);
    }
  }

  lemma {:induction false} JoinedKept(s: Tables, id: nat, c: nat, p: Policy)
    requires id < |s.reports| && c < |s.clusters|
    ensures KeptUpTo(s, Joined(s, id, c, p), id)
  {
  }

  lemma {:induction false} AttachedKept(s: Tables, id: nat, k: nat)
    requires id < |s.reports| && k < |s.cases| && s.cases[k].cluster < |s.clusters|
    requires !States.Finished(s.cases[k].status)
    ensures KeptUpTo(s, Attached(s, id, k), id)
  {
  }

  lemma {:induction false} CaseOpenedKept(s: Tables, c: nat, trigger: Trigger, now: int, p: Policy)
    requires Base(s, p) && c < |s.clusters| && s.clusters[c].caseId == None
    ensures Kept(s, CaseOpened(s, c, trigger, now))
  {
    var t := CaseOpened(s, c, trigger, now);
    CaseOpenedReports(s, c, trigger, now, p);
    assert ClusterLinked(s, c);
    forall i | 0 <= i < |s.reports| ensures ReportKept(s.reports[i], t.reports[i]) {
      assert t.reports[i] == InCase(s.reports[i], c, |s.cases|);
    }
  }

  lemma {:induction false} SubmitKept(s: Tables, a: Action, p: Policy, g: Geo)
    requires Inv(s, p) && a.Submit? && Enabled(s, a, p, g)
    ensures Kept(s, Step(s, a, p, g))
  {
    var n := |s.reports|;
    var t := Arrived(s, a.report);
    assert forall k: nat :: k < |s.cases| ==> CaseLogged(s, k);
    assert KeptUpTo(s, t, n);
    if a.report.pos.Some? {
      var r := t.reports[n];
      ChoiceIsOpen(s.clusters, r, a.order, p, g);
      var choice := Choice(s.clusters, r, a.order, p, g);
      ArrivedBase(s, a.report, p);
      var (s0, c) := Chosen(t, n, choice);
      assert KeptUpTo(t, s0, n);
      KeptCompose(s, t, s0, n);
      ProcessedKept(t, n, choice, p);
      KeptCompose(s, s0, Step(s, a, p, g), n);
    }
  }

  lemma {:induction false} CompletedKept(s: Tables, id: nat, c: nat, p: Policy)
    requires LinksInRange(s) && id < |s.reports| && c < |s.clusters|
    requires s.clusters[c].caseId.None? ==> Base(s, p)
    requires s.clusters[c].caseId.Some? ==>
      s.clusters[c].caseId.value < |s.cases| && !States.Finished(s.cases[s.clusters[c].caseId.value].status)
    ensures KeptUpTo(s, Completed(s, id, c, p), id)
  {
    if s.clusters[c].caseId.Some? {
      AttachedKept(s, id, s.clusters[c].caseId.value);
    } else if s.clusters[c].uniqueCount >= p.required {
      CaseOpenedKept(s, c, Threshold, s.reports[id].at, p);
    }
  }

  lemma {:induction false} ProcessedKept(s: Tables, id: nat, choice: Option<nat>, p: Policy)
    requires Base(s, p) && id < |s.reports| && s.reports[id].status == ReportStatus.Received && s.reports[id].pos.Some?
    requires choice.Some? ==> choice.value < |s.clusters|
    requires choice.Some? ==>
      s.clusters[choice.value].status == ClusterStatus.Open || s.clusters[choice.value].status == ClusterStatus.Promoted
    ensures LinksInRange(s)
    ensures KeptUpTo(Chosen(s, id, choice).0, Processed(s, id, choice, p), id)
  {
    BaseLinks(s, p);
    var (s0, c) := Chosen(s, id, choice);
    ChosenBase(s, id, choice, p);
    ChosenLinks(s, id, choice);
    JoinedLinks(s0, id, c, p);
    JoinedKept(s0, id, c, p);
    JoinedOk(s0, id, c, p);
    assert ClusterLinked(s0, c);
    CompletedKept(Joined(s0, id, c, p), id, c, p);
    KeptCompose(s0, Joined(s0, id, c, p), Processed(s, id, choice, p), id);
  }

  lemma {:induction false} SummaryKept(s: Tables, t: Tables)
    requires OnlySummaries(s, t)
    ensures Kept(s, t)
  {
    forall k | 0 <= k < |s.cases| ensures CaseKept(s.cases[k], t.cases[k]) {
      assert t.cases[k].events == s.cases[k].events;
    }
  }

  lemma {:induction false} RefusedKept(s: Tables, id: nat, p: Policy)
    requires LinksInRange(s) && id < |s.reports|
    ensures Kept(s, Refused(s, id, p))
  {
    RefusedOnlySummaries(s, id, p);
    SummaryKept(s, Refused(s, id, p));
  }

  lemma {:induction false} SettledKept(s: Tables, k: nat, d: Case)
    requires k < |s.cases| && s.cases[k].cluster < |s.clusters|
    requires CaseKept(s.cases[k], d)
    requires s.clusters[s.cases[k].cluster].status == StatusFor(s.cases[k].status)
    ensures Kept(s, Settled(s, k, d))
  {
    var t := Settled(s, k, d);
    forall j | 0 <= j < |s.cases| && j != k ensures CaseKept(s.cases[j], t.cases[j]) {
      assert t.cases[j] == s.cases[j];
    }
  }

  lemma {:induction false} CallKept(s: Tables, k: nat, cmd: Command, x: Context, p: Policy)
    requires Base(s, p) && k < |s.cases| && Execute(s.cases[k], cmd, x).Ok?
    ensures s.cases[k].cluster < |s.clusters|
    ensures Kept(s, Settled(s, k, Execute(s.cases[k], cmd, x).value))
  {
    assert CaseSound(s, k, p) && CaseLinked(s, k);
    assert ClusterLinked(s, s.cases[k].cluster);
    ExecuteOk(s.cases[k], cmd, x, p.required);
    SettledKept(s, k, Execute(s.cases[k], cmd, x).value);
  }

  lemma {:induction false} StepKept(s: Tables, a: Action, p: Policy, g: Geo)
    requires Inv(s, p)
    ensures Kept(s, Step(s, a, p, g))
  {
    if Enabled(s, a, p, g) {
      match a
      case Submit(n, order) => SubmitKept(s, a, p, g);
      case Reject(id) => RefusedKept(s, id, p);
      case Promote(c, now) =>
        if s.clusters[c].caseId.None? {
          CaseOpenedKept(s, c, Manual, now, p);
        }
      case Call(k, cmd, x) =>
        if Execute(s.cases[k], cmd, x).Ok? {
          CallKept(s, k, cmd, x, p);
        }
    }
  }

  // ---- a cluster whose reports were all rejected ----

  lemma {:induction false} CompletedProfiles(s: Tables, id: nat, c: nat, p: Policy, d: nat)
    requires LinksInRange(s) && id < |s.reports| && Counts(s.reports[id], c) && c < |s.clusters| && d < |s.clusters|
    ensures var t := Completed(s, id, c, p);
      && |t.clusters| == |s.clusters| && SameProfile(s.clusters[d], t.clusters[d])
      && Members(t.reports, d) == Members(s.reports, d)
  {
    MembersSame(s.reports, Completed(s, id, c, p).reports, d);
  }

  /** The cluster that takes the report has a member; the others keep what they carry. */
  lemma {:induction false} ProcessedProfiles(s: Tables, id: nat, choice: Option<nat>, p: Policy, d: nat)
    requires LinksInRange(s) && id < |s.reports| && s.reports[id].pos.Some?
    requires choice.Some? ==> choice.value < |s.clusters|
    requires d < |Processed(s, id, choice, p).clusters| && Members(Processed(s, id, choice, p).reports, d) == []
    ensures d < |s.clusters| && SameProfile(s.clusters[d], Processed(s, id, choice, p).clusters[d])
  {
    var (s0, c) := Chosen(s, id, choice);
    ChosenLinks(s, id, choice);
    JoinedLinks(s0, id, c, p);
    var s1 := Joined(s0, id, c, p);
    MembersHas(s1.reports, c, RowOf(s1.reports[id]));
    CompletedProfiles(s1, id, c, p, c);
    CompletedProfiles(s1, id, c, p, d);
    assert d != c;
  }

  lemma {:induction false} SubmitKeepsProfile(s: Tables, a: Action, p: Policy, g: Geo, c: nat)
    requires Inv(s, p) && a.Submit? && Enabled(s, a, p, g)
    requires c < |Step(s, a, p, g).clusters| && Members(Step(s, a, p, g).reports, c) == []
    ensures c < |s.clusters| && SameProfile(s.clusters[c], Step(s, a, p, g).clusters[c])
  {
    if a.report.pos.Some? {
      var t, n := Arrived(s, a.report), |s.reports|;
      ArrivedLinks(s, a.report, p);
      ChoiceIsOpen(s.clusters, t.reports[n], a.order, p, g);
      ProcessedProfiles(t, n, Choice(s.clusters, t.reports[n], a.order, p, g), p, c);
    }
  }

  lemma {:induction false} RefusedKeepsProfile(s: Tables, id: nat, p: Policy, c: nat)
    requires LinksInRange(s) && id < |s.reports|
    requires c < |Refused(s, id, p).clusters| && Members(Refused(s, id, p).reports, c) == []
    ensures c < |s.clusters| && SameProfile(s.clusters[c], Refused(s, id, p).clusters[c])
  {
  }

  lemma {:induction false} CallKeepsProfile(s: Tables, k: nat, r: Result<Case, CaseError>, c: nat)
    requires k < |s.cases| && s.cases[k].cluster < |s.clusters| && c < |Committed(s, k, r).clusters|
    ensures c < |s.clusters| && SameProfile(s.clusters[c], Committed(s, k, r).clusters[c])
  {
  }

  /** A call after which a cluster has no live report leaves its severity, times and position alone. */
  lemma {:induction false} StepKeepsProfile(s: Tables, a: Action, p: Policy, g: Geo, c: nat)
    requires Inv(s, p)
    requires c < |Step(s, a, p, g).clusters| && Members(Step(s, a, p, g).reports, c) == []
    ensures c < |s.clusters| && SameProfile(s.clusters[c], Step(s, a, p, g).clusters[c])
  {
    if Enabled(s, a, p, g) {
      match a
      case Submit(_, _) => SubmitKeepsProfile(s, a, p, g, c);
      case Reject(id) => RefusedKeepsProfile(s, id, p, c);
      case Promote(_, _) =>
      case Call(k, cmd, x) => CallKeepsProfile(s, k, Execute(s.cases[k], cmd, x), c);
    }
  }

  // ---- runs ----

  lemma {:induction false} EmptyInv(p: Policy)
    ensures Inv(EMPTY, p)
  {
  }

  /** Every reachable state satisfies the invariant. */
  lemma {:induction false} ReachableInv(trace: seq<Tables>, acts: seq<Action>, p: Policy, g: Geo, i: nat)
    requires IsRun(trace, acts, p, g) && i < |trace|
    ensures Inv(trace[i], p)
  {
    if i == 0 {
      EmptyInv(p);
    } else {
      var k := i - 1;
      ReachableInv(trace, acts, p, g, k);
      StepKeepsInv(trace[k], acts[k], p, g);
    }
  }

  /** Over any stretch of any run: a report never changes cluster or leaves its case, a rejection is
      permanent, a cluster keeps its case, a case keeps its log and the stamps of its review, its report to
      EMIC and its closing and never becomes less severe, finished stays finished, and no report joins a
      finished case. */
  lemma {:induction false} NothingIsUndone(trace: seq<Tables>, acts: seq<Action>, p: Policy, g: Geo, i: nat, j: nat)
    requires IsRun(trace, acts, p, g) && i <= j < |trace|
    ensures Kept(trace[i], trace[j])
    decreases j
  {
    if i < j {
      NothingIsUndone(trace, acts, p, g, i, j - 1);
      RunStepKept(trace, acts, p, g, j - 1);
      ShorterKept(trace[j - 1], trace[j], |trace[i].reports|);
      KeptCompose(trace[i], trace[j - 1], trace[j], |trace[i].reports|);
    }
  }

  lemma {:induction false} RunStepKeepsProfile(
      trace: seq<Tables>, acts: seq<Action>, p: Policy, g: Geo, i: nat, c: nat)
    requires IsRun(trace, acts, p, g) && i < |acts|
    requires c < |trace[i + 1].clusters| && Members(trace[i + 1].reports, c) == []
    ensures c < |trace[i].clusters| && SameProfile(trace[i].clusters[c], trace[i + 1].clusters[c])
  {
    ReachableInv(trace, acts, p, g, i);
    StepKeepsProfile(trace[i], acts[i], p, g, c);
  }

  lemma {:induction false} ReachableCounted(trace: seq<Tables>, acts: seq<Action>, p: Policy, g: Geo, i: nat, c: nat)
    requires IsRun(trace, acts, p, g) && i < |trace| && c < |trace[i].clusters|
    ensures Counted(trace[i], c, p)
  {
    ReachableInv(trace, acts, p, g, i);
  }

  lemma {:induction false} NotFirst(trace: seq<Tables>, acts: seq<Action>, p: Policy, g: Geo, j: nat, c: nat)
    requires IsRun(trace, acts, p, g) && j < |trace| && c < |trace[j].clusters|
    ensures j > 0
  {
  }

  /** A cluster without live reports carries the severity, times and position that it had in the last state in
      which it had one, and these were a recount of what it had then. */
  lemma {:induction false} EmptiedKeepsLast(trace: seq<Tables>, acts: seq<Action>, p: Policy, g: Geo, j: nat, c: nat)
    returns (i: nat)
    requires IsRun(trace, acts, p, g) && j < |trace| && c < |trace[j].clusters|
    ensures i <= j && c < |trace[i].clusters|
    ensures Members(trace[i].reports, c) != [] && Counted(trace[i], c, p)
    ensures forall m :: i < m <= j ==> Members(trace[m].reports, c) == []
    ensures SameProfile(trace[i].clusters[c], trace[j].clusters[c])
    decreases j
  {
    if Members(trace[j].reports, c) != [] {
      i := j;
      ReachableCounted(trace, acts, p, g, j, c);
    } else {
      NotFirst(trace, acts, p, g, j, c);
      var k := j - 1;
      RunStepKeepsProfile(trace, acts, p, g, k, c);
      i := EmptiedKeepsLast(trace, acts, p, g, k, c);
    }
  }

  lemma {:induction false} RunStepKept(trace: seq<Tables>, acts: seq<Action>, p: Policy, g: Geo, i: nat)
    requires IsRun(trace, acts, p, g) && i + 1 < |trace|
    ensures Kept(trace[i], trace[i + 1])
  {
    ReachableInv(trace, acts, p, g, i);
    StepKept(trace[i], acts[i], p, g);
  }

  lemma {:induction false} ShorterKept(s: Tables, t: Tables, n: nat)
    requires Kept(s, t) && n <= |s.reports|
    ensures KeptUpTo(s, t, n)
  {
  }
}

/**
 The report, cluster and case tables of one platform, what each service call makes of them,
 and what holds of them in every reachable state
 (apps/api/app/services/cluster_service.py, case_service.py and report_service.py).

 A row is identified by its position; rows are only ever added.
 */
module Tables {
  import opened Wrappers
  import opened Categories
  import States = CaseStates
  import opened Cases
  import opened Clustering

  datatype ReportStatus = Received | Clustered | Promoted | Rejected

  datatype Report = Report(
    category: string,
    severity: Severity,
    pos: Option<Pos>,
    key: Option<string>,
    at: int,
    status: ReportStatus,
    cluster: Option<nat>,
    caseId: Option<nat>)

  datatype Tables = Tables(reports: seq<Report>, clusters: seq<Cluster>, cases: seq<Case>)

  const EMPTY := Tables([], [], [])

  // ---- the rows of a cluster ----

  predicate Counts(r: Report, c: nat) {
    r.cluster == Some(c) && r.status != ReportStatus.Rejected
  }

  function RowOf(r: Report): Row {
    Row(r.key, r.pos, r.severity, r.at)
  }

  /** The non-rejected reports of a cluster. */
  function Members(rs: seq<Report>, c: nat): seq<Row> {
    if rs == [] then []
    else
      var n := |rs| - 1;
      Members(rs[..n], c) + (if Counts(rs[n], c) then [RowOf(rs[n])] else [])
  }

  // ---- process_report ----

  predicate OpenFor(cl: Cluster, q: Query, p: Policy, g: Geo) {
    && (cl.status == ClusterStatus.Open || cl.status == ClusterStatus.Promoted)
    && g.inBox(q.pos, cl.centroid, p.radius)
    && cl.last >= q.at - Window(p)
  }

  /** `_open_candidates` returns exactly the open rows, once each, in an order the query leaves open. */
  ghost predicate RowOrder(clusters: seq<Cluster>, q: Query, p: Policy, g: Geo, order: seq<nat>) {
    && (forall i, j :: 0 <= i < j < |order| ==> order[i] != order[j])
    && (forall c: nat :: c in order <==> c < |clusters| && OpenFor(clusters[c], q, p, g))
  }

  function CandidateOf(clusters: seq<Cluster>, c: nat): Candidate
    requires c < |clusters|
  {
    Candidate(c, clusters[c].category, clusters[c].centroid, clusters[c].last)
  }

  function Candidates(clusters: seq<Cluster>, order: seq<nat>): seq<Candidate>
    requires forall i :: 0 <= i < |order| ==> order[i] < |clusters|
  {
    seq(|order|, i requires 0 <= i < |order| => CandidateOf(clusters, order[i]))
  }

  function QueryOf(r: Report): Query
    requires r.pos.Some?
  {
    Query(r.pos.value, r.category, r.at)
  }

  /** The cluster that a report joins, or `None` for a new one. */
  function Choice(clusters: seq<Cluster>, r: Report, order: seq<nat>, p: Policy, g: Geo): Option<nat>
    requires r.pos.Some?
    requires forall i :: 0 <= i < |order| ==> order[i] < |clusters|
  {
    var best := Pick(Candidates(clusters, order), QueryOf(r), p, g);
    if best.Some? then Some(best.value.id) else None
  }

  function NewCluster(r: Report): Cluster
    requires r.pos.Some?
  {
    Cluster(r.category, r.severity, r.pos.value, 0, 0, ClusterStatus.Open, None, r.at, r.at)
  }

  /** The report becomes a member of cluster `c`, which is recounted. */
  function Joined(s: Tables, id: nat, c: nat, p: Policy): Tables
    requires id < |s.reports| && c < |s.clusters|
  {
    var rs := s.reports[id := s.reports[id].(cluster := Some(c), status := ReportStatus.Clustered)];
    s.(reports := rs, clusters := s.clusters[c := Recounted(Members(rs, c), s.clusters[c], p)])
  }

  /** `attach_report_to_case`. */
  function Attached(s: Tables, id: nat, k: nat): Tables
    requires id < |s.reports| && k < |s.cases| && s.cases[k].cluster < |s.clusters|
  {
    var r, c, cl := s.reports[id], s.cases[k], s.clusters[s.cases[k].cluster];
    var severity := if Rank(r.severity) > Rank(c.severity) then r.severity else c.severity;
    s.(reports := s.reports[id := r.(caseId := Some(k), status := ReportStatus.Promoted)],
       cases := s.cases[k := WithEvent(
         c.(reportCount := cl.reportCount, uniqueCount := cl.uniqueCount, severity := severity),
         ReportReceived(id), true, r.at)])
  }

  function InCase(r: Report, c: nat, k: nat): Report {
    if Counts(r, c) then r.(caseId := Some(k), status := ReportStatus.Promoted) else r
  }

  function ReceivedEvents(rs: seq<Report>, c: nat): seq<CaseEvent> {
    if rs == [] then []
    else
      var n := |rs| - 1;
      ReceivedEvents(rs[..n], c)
      + (if Counts(rs[n], c) then [CaseEvent(ReportReceived(n), None, None, true, rs[n].at)] else [])
  }

  /** The events that close the creation of a case. */
  function CreationEvents(trigger: Trigger, unique: nat, lastAt: int, createdAt: int): seq<CaseEvent> {
    var created := Some(States.PendingReview);
    match trigger
    case Threshold =>
      [CaseEvent(ThresholdReached(unique), None, None, true, lastAt + 1_000),
       CaseEvent(CaseCreated(Threshold), None, created, true, lastAt + 2_000)]
    case Manual => [CaseEvent(CaseCreated(Manual), None, created, true, createdAt)]
  }

  function NewCase(s: Tables, c: nat, trigger: Trigger, now: int): Case
    requires c < |s.clusters|
  {
    var cl, rows := s.clusters[c], Members(s.reports, c);
    var lastAt := if rows != [] then Latest(rows) else now;
    var createdAt := if trigger == Threshold then lastAt else now;
    Case(
      cluster := c, category := cl.category, severity := cl.severity,
      status := States.PendingReview, track := None,
      lat := cl.centroid.lat, lon := cl.centroid.lon,
      reportCount := cl.reportCount, uniqueCount := cl.uniqueCount,
      thresholdAt := if trigger == Threshold then Some(lastAt) else None, createdAt := createdAt,
      reviewedAt := None, reviewedBy := None,
      emicCaseNo := None, emicStatus := None, assignedUnit := None, emicChannel := None,
      emicReportedAt := None, emicSyncedAt := None,
      communitySubmittedAt := None, closedAt := None, resolvedAt := None,
      events := ReceivedEvents(s.reports, c) + CreationEvents(trigger, cl.uniqueCount, lastAt, createdAt))
  }

  /** `create_case_from_cluster`. */
  function CaseOpened(s: Tables, c: nat, trigger: Trigger, now: int): Tables
    requires c < |s.clusters|
  {
    var k := |s.cases|;
    Tables(
      seq(|s.reports|, i requires 0 <= i < |s.reports| => InCase(s.reports[i], c, k)),
      s.clusters[c := s.clusters[c].(caseId := Some(k), status := ClusterStatus.Promoted)],
      s.cases + [NewCase(s, c, trigger, now)])
  }

  /** The end of `process_report`: the report joins the case of its cluster, or the cluster becomes one. */
  function Completed(s: Tables, id: nat, c: nat, p: Policy): Tables
    requires id < |s.reports| && c < |s.clusters| && LinksInRange(s)
  {
    assert s.clusters[c] in s.clusters;
    if s.clusters[c].caseId.Some? then Attached(s, id, s.clusters[c].caseId.value)
    else if s.clusters[c].uniqueCount >= p.required then CaseOpened(s, c, Threshold, s.reports[id].at)
    else s
  }

  /** The tables with the chosen cluster in place, and its position. */
  function Chosen(s: Tables, id: nat, choice: Option<nat>): (Tables, nat)
    requires id < |s.reports| && s.reports[id].pos.Some?
  {
    if choice.Some? then (s, choice.value)
    else (s.(clusters := s.clusters + [NewCluster(s.reports[id])]), |s.clusters|)
  }

  lemma {:induction false} ChosenLinks(s: Tables, id: nat, choice: Option<nat>)
    requires LinksInRange(s) && id < |s.reports| && s.reports[id].pos.Some?
    ensures LinksInRange(Chosen(s, id, choice).0)
  {
    assert forall cl <- Chosen(s, id, choice).0.clusters :: cl in s.clusters || cl == NewCluster(s.reports[id]);
  }

  lemma {:induction false} JoinedLinks(s: Tables, id: nat, c: nat, p: Policy)
    requires LinksInRange(s) && id < |s.reports| && c < |s.clusters|
    ensures LinksInRange(Joined(s, id, c, p))
  {
    var t := Joined(s, id, c, p);
    forall cl | cl in t.clusters ensures cl.caseId.Some? ==> cl.caseId.value < |t.cases| {
      var d :| 0 <= d < |t.clusters| && t.clusters[d] == cl;
      assert s.clusters[d] in s.clusters;
    }
  }

  /** `process_report` once the cluster is chosen. */
  function Processed(s: Tables, id: nat, choice: Option<nat>, p: Policy): Tables
    requires id < |s.reports|
    requires choice.Some? ==> choice.value < |s.clusters|
    requires LinksInRange(s)
  {
    if s.reports[id].pos.None? then s
    else
      var (s0, c) := Chosen(s, id, choice);
      ChosenLinks(s, id, choice);
      JoinedLinks(s0, id, c, p);
      Completed(Joined(s0, id, c, p), id, c, p)
  }

  predicate LinksInRange(s: Tables) {
    && (forall r <- s.reports :: r.cluster.Some? ==> r.cluster.value < |s.clusters|)
    && (forall cl <- s.clusters :: cl.caseId.Some? ==> cl.caseId.value < |s.cases|)
    && (forall c <- s.cases :: c.cluster < |s.clusters|)
  }

  // ---- reject_report, promote_cluster and the case calls ----

  /** Cluster `c` gets a new summary, and its case, if any, the counts of that summary. */
  function Resummarised(s: Tables, c: nat, cl: Cluster): Tables
    requires c < |s.clusters|
    requires cl.caseId.Some? ==> cl.caseId.value < |s.cases|
  {
    var cases := if cl.caseId.None? then s.cases
      else
        var k := cl.caseId.value;
        s.cases[k := s.cases[k].(reportCount := cl.reportCount, uniqueCount := cl.uniqueCount)];
    s.(clusters := s.clusters[c := cl], cases := cases)
  }

  /** Report `id` is marked as rejected; nothing is recounted yet. */
  function Struck(s: Tables, id: nat): Tables
    requires id < |s.reports|
  {
    s.(reports := s.reports[id := s.reports[id].(status := ReportStatus.Rejected)])
  }

  /** `reject_report`. */
  function Refused(s: Tables, id: nat, p: Policy): Tables
    requires id < |s.reports| && LinksInRange(s)
  {
    var t := Struck(s, id);
    if s.reports[id].cluster.None? then t
    else
      var c := s.reports[id].cluster.value;
      Resummarised(t, c, Recounted(Members(t.reports, c), t.clusters[c], p))
  }

  function PromotedByHand(s: Tables, c: nat, now: int): Tables
    requires c < |s.clusters|
  {
    if s.clusters[c].caseId.Some? then s else CaseOpened(s, c, Manual, now)
  }

  function StatusFor(st: States.CaseStatus): ClusterStatus {
    if st == States.Closed then ClusterStatus.Closed
    else if st == States.Dismissed then ClusterStatus.Dismissed
    else ClusterStatus.Promoted
  }

  /** Case `k` becomes `d`; a case that has just been finished takes its cluster along. */
  function Settled(s: Tables, k: nat, d: Case): Tables
    requires k < |s.cases| && s.cases[k].cluster < |s.clusters|
  {
    var c := s.cases[k];
    s.(cases := s.cases[k := d],
       clusters := if d.status != c.status && States.Finished(d.status)
                   then s.clusters[c.cluster := s.clusters[c.cluster].(status := StatusFor(d.status))]
                   else s.clusters)
  }

  /** A call on a case commits, or fails and changes nothing. */
  function Committed(s: Tables, k: nat, r: Result<Case, CaseError>): Tables
    requires k < |s.cases| && s.cases[k].cluster < |s.clusters|
  {
    if r.Ok? then Settled(s, k, r.value) else s
  }

  // ---- what holds in every reachable state ----

  ghost predicate ReportOk(s: Tables, i: nat)
    requires i < |s.reports|
  {
    var r := s.reports[i];
    && (r.cluster.Some? ==> r.cluster.value < |s.clusters|)
    && match r.status
       case Received => r.cluster == None && r.caseId == None
       case Clustered => r.cluster.Some? && r.caseId == None && s.clusters[r.cluster.value].caseId == None
       case Promoted => r.cluster.Some? && r.caseId.Some? && s.clusters[r.cluster.value].caseId == r.caseId
       case Rejected => r.caseId.Some? ==> r.cluster.Some? && s.clusters[r.cluster.value].caseId == r.caseId
  }

  /** The summary on the cluster is a recount of its live reports. */
  ghost predicate Counted(s: Tables, c: nat, p: Policy)
    requires c < |s.clusters|
  {
    Accurate(Members(s.reports, c), s.clusters[c], p)
  }

  ghost predicate ClusterLinked(s: Tables, c: nat)
    requires c < |s.clusters|
  {
    var cl := s.clusters[c];
    && (cl.caseId.None? <==> cl.status == ClusterStatus.Open)
    && (cl.caseId.Some? ==>
         && cl.caseId.value < |s.cases|
         && s.cases[cl.caseId.value].cluster == c
         && cl.status == StatusFor(s.cases[cl.caseId.value].status))
  }

  ghost predicate CaseSound(s: Tables, k: nat, p: Policy)
    requires k < |s.cases|
  {
    CaseOk(s.cases[k], p.required)
  }

  ghost predicate CaseLinked(s: Tables, k: nat)
    requires k < |s.cases|
  {
    var c := s.cases[k].cluster;
    c < |s.clusters| && s.clusters[c].caseId == Some(k)
  }

  /** The summary on the case is that of its cluster, and no member is more severe than the case. */
  ghost predicate CaseAgrees(s: Tables, k: nat)
    requires k < |s.cases|
  {
    var c := s.cases[k];
    && c.cluster < |s.clusters|
    && var cl := s.clusters[c.cluster];
    && c.reportCount == cl.reportCount && c.uniqueCount == cl.uniqueCount
    && forall r <- Members(s.reports, c.cluster) :: Rank(r.severity) <= Rank(c.severity)
  }

  ghost predicate NoRepeats(ids: seq<nat>) {
    forall i, j :: 0 <= i < j < |ids| ==> ids[i] != ids[j]
  }

  /** The log of a case records the arrival of each report it ever carried exactly once. */
  ghost predicate CaseLogged(s: Tables, k: nat)
    requires k < |s.cases|
  {
    var ids := Logged(s.cases[k].events);
    && NoRepeats(ids)
    && (forall i: nat :: i in ids <==> i < |s.reports| && s.reports[i].caseId == Some(k))
  }

  /** All of the above, except for report `skip` and for the summary on case `stale`. */
  ghost predicate BaseBut(s: Tables, p: Policy, skip: int, stale: int) {
    && (forall i: nat :: i < |s.reports| && i != skip ==> ReportOk(s, i))
    && (forall c: nat :: c < |s.clusters| ==> Counted(s, c, p))
    && (forall c: nat :: c < |s.clusters| ==> ClusterLinked(s, c))
    && (forall k: nat :: k < |s.cases| ==> CaseSound(s, k, p))
    && (forall k: nat :: k < |s.cases| ==> CaseLinked(s, k))
    && (forall k: nat :: k < |s.cases| ==> CaseLogged(s, k))
    && (forall k: nat :: k < |s.cases| && k != stale ==> CaseAgrees(s, k))
  }

  ghost predicate Base(s: Tables, p: Policy) {
    BaseBut(s, p, -1, -1)
  }

  /** Without a case, a cluster has fewer distinct reporters than the policy requires. */
  ghost predicate Below(s: Tables, p: Policy) {
    forall c: nat :: c < |s.clusters| ==> BelowAt(s, p, c)
  }

  ghost predicate BelowAt(s: Tables, p: Policy, c: nat)
    requires c < |s.clusters|
  {
    s.clusters[c].caseId.None? ==> s.clusters[c].uniqueCount < p.required
  }

  /** A report is in a cluster exactly when it came with a position. */
  ghost predicate Placed(r: Report) {
    r.cluster.Some? <==> r.pos.Some?
  }

  ghost predicate Inv(s: Tables, p: Policy) {
    Base(s, p) && Below(s, p) && forall r <- s.reports :: Placed(r)
  }
}

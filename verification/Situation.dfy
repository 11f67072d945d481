/**
 What the read-models say about reachable tables
 (apps/api/app/services/situation_service.py), and the headline facts of the intake ledger.
 */
module Situation {
  import opened Wrappers
  import opened Categories
  import States = CaseStates
  import opened Cases
  import opened Clustering
  import opened Tables
  import opened TableLemmas
  import opened LedgerRuns

  // ---- conservation of reports ----

  function ClusteredTotal(clusters: seq<Cluster>): nat {
    if clusters == [] then 0
    else ClusteredTotal(clusters[..|clusters| - 1]) + clusters[|clusters| - 1].reportCount
  }

  /** The console's count of reports that are neither rejected nor in a cluster. */
  function Unclustered(rs: seq<Report>): nat {
    if rs == [] then 0
    else
      var r := rs[|rs| - 1];
      Unclustered(rs[..|rs| - 1]) + (if r.cluster.None? && r.status != ReportStatus.Rejected then 1 else 0)
  }

  /** The console's count of reports that are not rejected. */
  function Live(rs: seq<Report>): nat {
    if rs == [] then 0
    else Live(rs[..|rs| - 1]) + (if rs[|rs| - 1].status != ReportStatus.Rejected then 1 else 0)
  }

  function MemberTotal(rs: seq<Report>, n: nat): nat {
    if n == 0 then 0 else MemberTotal(rs, n - 1) + |Members(rs, n - 1)|
  }

  lemma {:induction false} MemberTotalStep(rs: seq<Report>, n: nat)
    requires rs != []
    ensures var r := rs[|rs| - 1];
      MemberTotal(rs, n) == MemberTotal(rs[..|rs| - 1], n)
        + (if r.cluster.Some? && r.cluster.value < n && r.status != ReportStatus.Rejected then 1 else 0)
  {
    if n > 0 {
      MemberTotalStep(rs, n - 1);
    }
  }

  lemma {:induction false} NobodyTwice(rs: seq<Report>, n: nat)
    requires forall r <- rs :: r.cluster.Some? ==> r.cluster.value < n
    ensures MemberTotal(rs, n) + Unclustered(rs) == Live(rs)
  {
    if rs == [] {
      NoMemberTotal(n);
    } else {
      assert rs[|rs| - 1] in rs;
      forall r | r in rs[..|rs| - 1] ensures r in rs {
      }
      NobodyTwice(rs[..|rs| - 1], n);
      MemberTotalStep(rs, n);
    }
  }

  lemma {:induction false} NoMemberTotal(n: nat)
    ensures MemberTotal([], n) == 0
  {
    if n > 0 {
      NoMemberTotal(n - 1);
    }
  }

  lemma {:induction false} CountsAreMembers(s: Tables, n: nat, p: Policy)
    requires Base(s, p) && n <= |s.clusters|
    ensures ClusteredTotal(s.clusters[..n]) == MemberTotal(s.reports, n)
  {
    if n > 0 {
      CountsAreMembers(s, n - 1, p);
      TotalStep(s.clusters, n);
      CountIsSize(s, n - 1, p);
    }
  }

  lemma {:induction false} TotalStep(clusters: seq<Cluster>, n: nat)
    requires 0 < n <= |clusters|
    ensures ClusteredTotal(clusters[..n]) == ClusteredTotal(clusters[..n - 1]) + clusters[n - 1].reportCount
  {
    assert clusters[..n][..n - 1] == clusters[..n - 1];
  }

  lemma {:induction false} CountIsSize(s: Tables, c: nat, p: Policy)
    requires Base(s, p) && c < |s.clusters|
    ensures s.clusters[c].reportCount == |Members(s.reports, c)|
  {
    assert Counted(s, c, p);
  }

  /** The counts on the clusters and the unclustered reports add up to all live reports:
      no report is counted twice or lost. */
  lemma {:induction false} ReportsAreConserved(s: Tables, p: Policy)
    requires Inv(s, p)
    ensures ClusteredTotal(s.clusters) + Unclustered(s.reports) == Live(s.reports)
  {
    BaseLinks(s, p);
    CountsAreMembers(s, |s.clusters|, p);
    assert s.clusters[..|s.clusters|] == s.clusters;
    NobodyTwice(s.reports, |s.clusters|);
  }

  // ---- promotion ----

  ghost predicate StatusShared(s: Tables, k: nat)
    requires k < |s.cases|
  {
    var c := s.cases[k];
    && c.cluster < |s.clusters|
    && var st := s.clusters[c.cluster].status;
    && (st == ClusterStatus.Closed <==> c.status == States.Closed)
    && (st == ClusterStatus.Dismissed <==> c.status == States.Dismissed)
    && st != ClusterStatus.Open
  }

  /** A cluster waits exactly while it has no case, and then fewer people than required have reported; it has at
      most one case, is closed or dismissed exactly when that is, and a case opened by the threshold records exactly
      as many people as required. */
  lemma {:induction false} PromotedExactlyOnce(s: Tables, p: Policy)
    requires Inv(s, p)
    ensures forall c :: 0 <= c < |s.clusters| ==>
      && (s.clusters[c].status == ClusterStatus.Open <==> s.clusters[c].caseId == None)
      && (s.clusters[c].caseId == None ==>
           forall n: nat :: IsHeadcount(Keys(Members(s.reports, c)), p.countAnonymous, n) ==> n < p.required)
    ensures forall k :: 0 <= k < |s.cases| ==> StatusShared(s, k)
    ensures forall j, k :: 0 <= j < k < |s.cases| ==> s.cases[j].cluster != s.cases[k].cluster
    ensures forall k :: 0 <= k < |s.cases| ==>
      && ThresholdsMet(s.cases[k].events, p.required)
      && (s.cases[k].thresholdAt.Some? <==> HasThreshold(s.cases[k].events))
  {
    forall c: nat | c < |s.clusters|
      ensures (s.clusters[c].status == ClusterStatus.Open <==> s.clusters[c].caseId == None)
      ensures s.clusters[c].caseId == None ==>
        forall n: nat :: IsHeadcount(Keys(Members(s.reports, c)), p.countAnonymous, n) ==> n < p.required
    {
      assert ClusterLinked(s, c) && Counted(s, c, p) && BelowAt(s, p, c);
      CountIsHeadcount(Keys(Members(s.reports, c)), p.countAnonymous);
    }
    forall k: nat | k < |s.cases| ensures StatusShared(s, k) {
      assert CaseLinked(s, k);
      assert ClusterLinked(s, s.cases[k].cluster);
    }
    forall j: nat, k: nat | j < k < |s.cases| ensures s.cases[j].cluster != s.cases[k].cluster {
      assert CaseLinked(s, j) && CaseLinked(s, k);
    }
    forall k: nat | k < |s.cases|
      ensures ThresholdsMet(s.cases[k].events, p.required)
      ensures s.cases[k].thresholdAt.Some? <==> HasThreshold(s.cases[k].events)
    {
      assert CaseSound(s, k, p);
    }
  }

  /** However often, and however much later, a cluster with a case is promoted by hand,
      the same case comes back and nothing changes. */
  lemma {:induction false} PromotionIsStable(
      trace: seq<Tables>, acts: seq<Action>, p: Policy, g: Geo, i: nat, j: nat, c: nat, now: int)
    requires IsRun(trace, acts, p, g) && i <= j < |trace|
    requires c < |trace[i].clusters| && trace[i].clusters[c].caseId.Some?
    ensures c < |trace[j].clusters| && trace[j].clusters[c].caseId == trace[i].clusters[c].caseId
    ensures PromotedByHand(trace[j], c, now) == trace[j]
  {
    NothingIsUndone(trace, acts, p, g, i, j);
    assert ClusterKept(trace[i].clusters[c], trace[j].clusters[c]);
  }

  /** The summary on a case is a recount of the live reports of its cluster, and the case is at least
      as severe as each of them. */
  lemma {:induction false} CaseSummary(s: Tables, p: Policy, k: nat)
    requires Inv(s, p) && k < |s.cases|
    ensures var c, rows := s.cases[k], Members(s.reports, s.cases[k].cluster);
      && c.reportCount == |rows|
      && IsHeadcount(Keys(rows), p.countAnonymous, c.uniqueCount)
      && forall r <- rows :: Rank(r.severity) <= Rank(c.severity)
  {
    assert CaseLinked(s, k) && CaseAgrees(s, k);
    assert Counted(s, s.cases[k].cluster, p);
  }

  // ---- the map ----

  predicate Since(at: int, since: Option<int>) {
    since.None? || at >= since.value
  }

  datatype Feature = CaseFeature(caseId: nat) | ClusterFeature(cluster: nat) | ReportFeature(report: nat)

  /** What the conditions of the three queries of `map_collection` let through. */
  predicate OnMap(s: Tables, f: Feature, public: bool, since: Option<int>) {
    match f
    case CaseFeature(k) =>
      && k < |s.cases|
      && (public ==> !States.Finished(s.cases[k].status))
      && Since(s.cases[k].createdAt, since)
    case ClusterFeature(c) =>
      c < |s.clusters| && s.clusters[c].status == ClusterStatus.Open && Since(s.clusters[c].last, since)
    case ReportFeature(i) =>
      && i < |s.reports|
      && var r := s.reports[i];
      && r.pos.Some? && r.status != ReportStatus.Rejected
      && (public ==>
           r.caseId.None? || !(r.caseId.value < |s.cases| && States.Finished(s.cases[r.caseId.value].status)))
      && Since(r.at, since)
  }

  const MAX_AREAS := 2000
  const MAX_REPORTS := 5000

  datatype Layer = CaseLayer | ClusterLayer | ReportLayer

  function LayerOf(f: Feature): Layer {
    match f
    case CaseFeature(_) => CaseLayer
    case ClusterFeature(_) => ClusterLayer
    case ReportFeature(_) => ReportLayer
  }

  /** The time that a query of the map sorts by. */
  function TimeOf(s: Tables, f: Feature): int {
    match f
    case CaseFeature(k) => if k < |s.cases| then s.cases[k].createdAt else 0
    case ClusterFeature(c) => if c < |s.clusters| then s.clusters[c].last else 0
    case ReportFeature(i) => if i < |s.reports| then s.reports[i].at else 0
  }

  ghost predicate NewestFirst(s: Tables, fs: seq<Feature>) {
    forall i, j :: 0 <= i < j < |fs| ==> TimeOf(s, fs[i]) >= TimeOf(s, fs[j]) && fs[i] != fs[j]
  }

  /** Of two features of one layer the first is no older: by creation, by the latest report, by arrival. */
  ghost predicate NoOlder(s: Tables, f: Feature, g: Feature) {
    match (f, g)
    case (CaseFeature(j), CaseFeature(k)) =>
      j < |s.cases| && k < |s.cases| && s.cases[j].createdAt >= s.cases[k].createdAt
    case (ClusterFeature(c), ClusterFeature(d)) =>
      c < |s.clusters| && d < |s.clusters| && s.clusters[c].last >= s.clusters[d].last
    case (ReportFeature(i), ReportFeature(j)) =>
      i < |s.reports| && j < |s.reports| && s.reports[i].at >= s.reports[j].at
    case _ => false
  }

  /** `fs` are the newest features of a layer, no more than `cap`: each once, newest first, and whatever is
      left out is no newer than any of them and only left out because they are that many. */
  ghost predicate IsNewest(s: Tables, layer: Layer, public: bool, since: Option<int>, cap: nat, fs: seq<Feature>) {
    && (forall i, j :: 0 <= i < j < |fs| ==> NoOlder(s, fs[i], fs[j]) && fs[i] != fs[j]) && |fs| <= cap
    && (forall f <- fs :: LayerOf(f) == layer && OnMap(s, f, public, since))
    && forall f :: LayerOf(f) == layer && OnMap(s, f, public, since) && f !in fs ==>
         |fs| == cap && forall g <- fs :: NoOlder(s, g, f)
  }

  ghost predicate IsCollection(
      s: Tables, public: bool, since: Option<int>, includeReports: bool,
      cs: seq<Feature>, ls: seq<Feature>, rs: seq<Feature>)
  {
    && IsNewest(s, CaseLayer, public, since, 2000, cs)
    && IsNewest(s, ClusterLayer, public, since, 2000, ls)
    && if includeReports then IsNewest(s, ReportLayer, public, since, 5000, rs) else rs == []
  }

  method MapCollection(s: Tables, public: bool, since: Option<int>, includeReports: bool) returns (feats: seq<Feature>)
    ensures exists cs, ls, rs :: IsCollection(s, public, since, includeReports, cs, ls, rs) && feats == cs + ls + rs
    ensures forall f <- feats :: OnMap(s, f, public, since)
  {
    var cs := SelectNewest(s, CaseLayer, |s.cases|, public, since, MAX_AREAS);
    var ls := SelectNewest(s, ClusterLayer, |s.clusters|, public, since, MAX_AREAS);
    var rs := [];
    if includeReports {
      rs := SelectNewest(s, ReportLayer, |s.reports|, public, since, MAX_REPORTS);
    }
    feats := cs + ls + rs;
    assert IsCollection(s, public, since, includeReports, cs, ls, rs);
  }

  function RowFeature(layer: Layer, i: nat): Feature {
    match layer
    case CaseLayer => CaseFeature(i)
    case ClusterLayer => ClusterFeature(i)
    case ReportLayer => ReportFeature(i)
  }

  function RowNumber(f: Feature): nat {
    match f
    case CaseFeature(k) => k
    case ClusterFeature(c) => c
    case ReportFeature(i) => i
  }

  lemma {:induction false} TimeIsAge(s: Tables, layer: Layer, f: Feature, g: Feature, public: bool, since: Option<int>)
    requires LayerOf(f) == layer == LayerOf(g) && OnMap(s, f, public, since) && OnMap(s, g, public, since)
    ensures NoOlder(s, f, g) <==> TimeOf(s, f) >= TimeOf(s, g)
  {
  }

  /** One query: the rows that meet its conditions, newest first, up to its limit. */
  method SelectNewest(s: Tables, layer: Layer, rows: nat, public: bool, since: Option<int>, cap: nat)
    returns (fs: seq<Feature>)
    requires forall f :: LayerOf(f) == layer && OnMap(s, f, public, since) ==> RowNumber(f) < rows
    ensures IsNewest(s, layer, public, since, cap, fs)
  {
    fs := [];
    for i := 0 to rows
      invariant NewestFirst(s, fs)
      invariant forall f :: f in fs <==> LayerOf(f) == layer && OnMap(s, f, public, since) && RowNumber(f) < i
    {
      var f := RowFeature(layer, i);
      if OnMap(s, f, public, since) {
        InsertedNewest(s, f, fs);
        fs := Inserted(s, f, fs);
      }
    }
    ghost var all := fs;
    if |fs| > cap {
      fs := fs[..cap];
    }
    assert forall f <- fs :: f in all;
    forall i, j | 0 <= i < j < |fs| ensures NoOlder(s, fs[i], fs[j]) && fs[i] != fs[j] {
      TimeIsAge(s, layer, fs[i], fs[j], public, since);
    }
    forall f, g | LayerOf(f) == layer && OnMap(s, f, public, since) && f !in fs && g in fs
      ensures NoOlder(s, g, f)
    {
      var i :| 0 <= i < |fs| && fs[i] == g;
      var j :| 0 <= j < |all| && all[j] == f;
      TimeIsAge(s, layer, g, f, public, since);
    }
  }

  function Inserted(s: Tables, f: Feature, fs: seq<Feature>): seq<Feature> {
    if fs == [] || TimeOf(s, f) >= TimeOf(s, fs[0]) then [f] + fs else [fs[0]] + Inserted(s, f, fs[1..])
  }

  lemma {:induction false} InsertedMembers(s: Tables, f: Feature, fs: seq<Feature>)
    ensures forall g :: g in Inserted(s, f, fs) <==> g == f || g in fs
  {
    if fs != [] && TimeOf(s, f) < TimeOf(s, fs[0]) {
      InsertedMembers(s, f, fs[1..]);
      assert fs == [fs[0]] + fs[1..];
    }
  }

  lemma {:induction false} NewestInFront(s: Tables, f: Feature, fs: seq<Feature>)
    requires NewestFirst(s, fs) && forall g <- fs :: TimeOf(s, f) >= TimeOf(s, g) && g != f
    ensures NewestFirst(s, [f] + fs)
  {
    var out := [f] + fs;
    forall i, j | 0 <= i < j < |out| ensures TimeOf(s, out[i]) >= TimeOf(s, out[j]) && out[i] != out[j] {
      assert out[j] == fs[j - 1] && fs[j - 1] in fs;
    }
  }

  lemma {:induction false} InsertedNewest(s: Tables, f: Feature, fs: seq<Feature>)
    requires NewestFirst(s, fs) && f !in fs
    ensures NewestFirst(s, Inserted(s, f, fs))
    ensures forall g :: g in Inserted(s, f, fs) <==> g == f || g in fs
  {
    InsertedMembers(s, f, fs);
    if fs != [] && TimeOf(s, f) < TimeOf(s, fs[0]) {
      var rest := fs[1..];
      assert forall i :: 0 <= i < |rest| ==> rest[i] == fs[i + 1];
      assert forall g <- rest :: g in fs;
      InsertedNewest(s, f, rest);
      NewestInFront(s, fs[0], Inserted(s, f, rest));
    } else {
      NewestInFront(s, f, fs);
    }
  }

  /** The case that a report belongs to through its cluster. */
  function CaseOfReport(s: Tables, i: nat): Option<nat>
    requires i < |s.reports|
    requires s.reports[i].cluster.Some? ==> s.reports[i].cluster.value < |s.clusters|
  {
    if s.reports[i].cluster.None? then None else s.clusters[s.reports[i].cluster.value].caseId
  }

  /** The public map shows a live report exactly when the case its cluster was promoted to, if any, is
      unfinished; it shows a cluster exactly while no case was made of it, and a case exactly while it is unfinished;
      each only if it is not older than `since`. The map of the console shows finished incidents as well. */
  lemma {:induction false} MapShowsOnlyLiveIncidents(s: Tables, p: Policy, public: bool, since: Option<int>)
    requires Inv(s, p)
    ensures LinksInRange(s)
    ensures forall i: nat :: i < |s.reports| ==>
      var k := CaseOfReport(s, i);
      (OnMap(s, ReportFeature(i), public, since) <==>
        && s.reports[i].pos.Some? && s.reports[i].status != ReportStatus.Rejected
        && (since.None? || since.value <= s.reports[i].at)
        && (public && k.Some? ==>
             && k.value < |s.cases|
             && s.cases[k.value].status != States.Closed && s.cases[k.value].status != States.Dismissed))
    ensures forall c: nat :: c < |s.clusters| ==>
      (OnMap(s, ClusterFeature(c), public, since) <==>
        s.clusters[c].caseId == None && (since.None? || since.value <= s.clusters[c].last))
    ensures forall k: nat :: k < |s.cases| ==>
      (OnMap(s, CaseFeature(k), public, since) <==>
        && (public ==> s.cases[k].status != States.Closed && s.cases[k].status != States.Dismissed)
        && (since.None? || since.value <= s.cases[k].createdAt))
  {
    BaseLinks(s, p);
    assert forall i :: 0 <= i < |s.reports| ==> s.reports[i] in s.reports;
    forall i: nat | i < |s.reports|
      ensures var k := CaseOfReport(s, i);
        (OnMap(s, ReportFeature(i), public, since) <==>
          && s.reports[i].pos.Some? && s.reports[i].status != ReportStatus.Rejected
          && (since.None? || since.value <= s.reports[i].at)
          && (public && k.Some? ==>
               && k.value < |s.cases|
               && s.cases[k.value].status != States.Closed && s.cases[k.value].status != States.Dismissed))
    {
      assert ReportOk(s, i);
      if s.reports[i].cluster.Some? {
        assert ClusterLinked(s, s.reports[i].cluster.value);
      }
    }
    forall c: nat | c < |s.clusters|
      ensures OnMap(s, ClusterFeature(c), public, since) <==>
        s.clusters[c].caseId == None && (since.None? || since.value <= s.clusters[c].last)
    {
      assert ClusterLinked(s, c);
    }
  }

  /** Once a case is finished, its reports and its cluster never come back to the public map. */
  lemma {:induction false} FinishedStaysOffTheMap(
      trace: seq<Tables>, acts: seq<Action>, p: Policy, g: Geo, i: nat, j: nat, r: nat, since: Option<int>)
    requires IsRun(trace, acts, p, g) && i <= j < |trace|
    requires r < |trace[i].reports| && trace[i].reports[r].cluster.Some?
    requires trace[i].reports[r].cluster.value < |trace[i].clusters|
    requires var k := CaseOfReport(trace[i], r);
      k.Some? && k.value < |trace[i].cases| && States.Finished(trace[i].cases[k.value].status)
    ensures r < |trace[j].reports| && !OnMap(trace[j], ReportFeature(r), true, since)
    ensures var c := trace[i].reports[r].cluster.value;
      c < |trace[j].clusters| && !OnMap(trace[j], ClusterFeature(c), true, since)
    ensures var k := CaseOfReport(trace[i], r).value;
      k < |trace[j].cases| && !OnMap(trace[j], CaseFeature(k), true, since)
  {
    NothingIsUndone(trace, acts, p, g, i, j);
    ReachableInv(trace, acts, p, g, j);
    MapShowsOnlyLiveIncidents(trace[j], p, true, since);
    assert ReportKept(trace[i].reports[r], trace[j].reports[r]);
    var c := trace[i].reports[r].cluster.value;
    assert ClusterKept(trace[i].clusters[c], trace[j].clusters[c]);
    var k := trace[i].clusters[c].caseId.value;
    assert CaseKept(trace[i].cases[k], trace[j].cases[k]);
  }

  // ---- the figures on the situation page ----

  function Count(cases: seq<Case>, statuses: set<States.CaseStatus>, severities: set<Severity>): nat {
    if cases == [] then 0
    else
      var c := cases[|cases| - 1];
      Count(cases[..|cases| - 1], statuses, severities)
      + (if c.status in statuses && c.severity in severities then 1 else 0)
  }

  const ALL := {Low, Medium, High, Critical}

  const UNFINISHED := {
    States.PendingReview, States.ReportedEmic, States.EmicProcessing, States.CommunityOpen, States.CommunitySubmitted
  }

  /** The severity tiers are counts of the cases that are not finished. */
  datatype Figures = Figures(
    total: int, open: int, pending: nat, active: nat, community: nat, done: nat,
    highRisk: nat, critical: nat, high: nat, medium: nat, low: nat)

  function SituationOf(cases: seq<Case>): Figures {
    var done := Count(cases, {States.Closed}, ALL);
    var dismissed := Count(cases, {States.Dismissed}, ALL);
    Figures(
      total := |cases| - dismissed,
      open := |cases| - done - dismissed,
      pending := Count(cases, {States.PendingReview}, ALL),
      active := Count(cases, {States.ReportedEmic, States.EmicProcessing}, ALL),
      community := Count(cases, {States.CommunityOpen, States.CommunitySubmitted}, ALL),
      done := done,
      highRisk := Count(cases, UNFINISHED, {High, Critical}),
      critical := Count(cases, UNFINISHED, {Critical}),
      high := Count(cases, UNFINISHED, {High}),
      medium := Count(cases, UNFINISHED, {Medium}),
      low := Count(cases, UNFINISHED, {Low}))
  }

  ghost function With(cases: seq<Case>, statuses: set<States.CaseStatus>, severities: set<Severity>): set<nat> {
    set k: nat | k < |cases| && cases[k].status in statuses && cases[k].severity in severities
  }

  lemma {:induction false} CountIsNumber(cases: seq<Case>, ss: set<States.CaseStatus>, vs: set<Severity>)
    ensures Count(cases, ss, vs) == |With(cases, ss, vs)|
  {
    if cases != [] {
      var n := |cases| - 1;
      CountIsNumber(cases[..n], ss, vs);
      WithOneMore(cases[..n], cases[n], ss, vs);
      assert cases == cases[..n] + [cases[n]];
    }
  }

  lemma {:induction false} WithOneMore(
      cases: seq<Case>, c: Case, ss: set<States.CaseStatus>, vs: set<Severity>)
    ensures |With(cases + [c], ss, vs)| == |With(cases, ss, vs)| + if c.status in ss && c.severity in vs then 1 else 0
  {
    var before, n := With(cases, ss, vs), |cases|;
    var all := cases + [c];
    forall k: nat ensures k in With(all, ss, vs) <==> k in before || (k == n && c.status in ss && c.severity in vs) {
      if k < n {
        assert all[k] == cases[k];
      }
    }
    if c.status in ss && c.severity in vs {
      assert With(all, ss, vs) == before + {n};
    } else {
      assert With(all, ss, vs) == before;
    }
  }

  lemma {:induction false} EverySeverity()
    ensures forall v: Severity :: v in ALL
  {
    forall v: Severity ensures v in ALL {
      match v
      case Low =>
      case Medium =>
      case High =>
      case Critical =>
    }
  }

  ghost function InStatus(cases: seq<Case>, statuses: set<States.CaseStatus>): set<nat> {
    set k: nat | k < |cases| && cases[k].status in statuses
  }

  ghost function UnfinishedWith(cases: seq<Case>, v: Severity): set<nat> {
    set k: nat | k < |cases| && cases[k].status !in {States.Closed, States.Dismissed} && cases[k].severity == v
  }

  lemma {:induction false} NumberByStatus(cases: seq<Case>, ss: set<States.CaseStatus>)
    ensures Count(cases, ss, ALL) == |InStatus(cases, ss)|
  {
    CountIsNumber(cases, ss, ALL);
    EverySeverity();
    assert With(cases, ss, ALL) == InStatus(cases, ss);
  }

  lemma {:induction false} NumberBySeverity(cases: seq<Case>, v: Severity)
    ensures Count(cases, UNFINISHED, {v}) == |UnfinishedWith(cases, v)|
  {
    CountIsNumber(cases, UNFINISHED, {v});
    UnfinishedOnes();
    assert With(cases, UNFINISHED, {v}) == UnfinishedWith(cases, v);
  }

  /** Each figure is the number of the cases it speaks of. */
  lemma {:induction false} FiguresCount(cases: seq<Case>)
    ensures var f := SituationOf(cases);
      && f.pending == |InStatus(cases, {States.PendingReview})|
      && f.active == |InStatus(cases, {States.ReportedEmic, States.EmicProcessing})|
      && f.community == |InStatus(cases, {States.CommunityOpen, States.CommunitySubmitted})|
      && f.done == |InStatus(cases, {States.Closed})|
      && f.critical == |UnfinishedWith(cases, Critical)| && f.high == |UnfinishedWith(cases, High)|
      && f.medium == |UnfinishedWith(cases, Medium)| && f.low == |UnfinishedWith(cases, Low)|
  {
    NumberByStatus(cases, {States.PendingReview});
    NumberByStatus(cases, {States.ReportedEmic, States.EmicProcessing});
    NumberByStatus(cases, {States.CommunityOpen, States.CommunitySubmitted});
    NumberByStatus(cases, {States.Closed});
    NumberBySeverity(cases, Critical);
    NumberBySeverity(cases, High);
    NumberBySeverity(cases, Medium);
    NumberBySeverity(cases, Low);
  }

  lemma {:induction false} OpenBySeverity(cases: seq<Case>, ss: set<States.CaseStatus>)
    ensures Count(cases, ss, {Critical}) + Count(cases, ss, {High}) + Count(cases, ss, {Medium})
            + Count(cases, ss, {Low}) == Count(cases, ss, ALL)
    ensures Count(cases, ss, {High, Critical}) == Count(cases, ss, {Critical}) + Count(cases, ss, {High})
  {
    if cases != [] {
      OpenBySeverity(cases[..|cases| - 1], ss);
      match cases[|cases| - 1].severity
      case Low =>
      case Medium =>
      case High =>
      case Critical =>
    }
  }

  lemma {:induction false} OpenByStatus(cases: seq<Case>)
    ensures var done, dismissed := Count(cases, {States.Closed}, ALL), Count(cases, {States.Dismissed}, ALL);
      && |cases| - done - dismissed == Count(cases, UNFINISHED, ALL)
      && Count(cases, UNFINISHED, ALL)
         == Count(cases, {States.PendingReview}, ALL)
            + Count(cases, {States.ReportedEmic, States.EmicProcessing}, ALL)
            + Count(cases, {States.CommunityOpen, States.CommunitySubmitted}, ALL)
  {
    if cases != [] {
      OpenByStatus(cases[..|cases| - 1]);
      EverySeverity();
      UnfinishedOnes();
    }
  }

  lemma {:induction false} UnfinishedOnes()
    ensures UNFINISHED == set st: States.CaseStatus | !States.Finished(st)
  {
    forall st: States.CaseStatus ensures st in UNFINISHED <==> !States.Finished(st) {
      match st
      case PendingReview =>
      case ReportedEmic =>
      case EmicProcessing =>
      case CommunityOpen =>
      case CommunitySubmitted =>
      case Closed =>
      case Dismissed =>
    }
  }

  /** The open cases split into pending, active and community ones, and into the four severity tiers, without
      overlap or remainder; they are exactly the cases the public map may show. */
  lemma {:induction false} FiguresAddUp(cases: seq<Case>)
    ensures var f := SituationOf(cases);
      && f.open == f.pending + f.active + f.community
      && f.open == f.critical + f.high + f.medium + f.low
      && f.highRisk == f.critical + f.high
      && f.total == f.open + f.done
    ensures SituationOf(cases).open == Count(cases, (set st: States.CaseStatus | !States.Finished(st)), ALL)
  {
    OpenByStatus(cases);
    OpenBySeverity(cases, UNFINISHED);
    UnfinishedOnes();
  }
}

/**
 The services that maintain the tables of one platform, as methods that update them in place
 (apps/api/app/services/report_service.py, cluster_service.py and case_service.py).

 Each public method is one committed transaction. Its contract equates the new tables with a
 function of the old ones; `LedgerRuns` proves what sequences of such steps keep.
 */
module Ledger {
  import opened Wrappers
  import opened Categories
  import States = CaseStates
  import opened Cases
  import opened CaseCalls
  import opened Clustering
  import opened Tables
  import opened TableLemmas
  import opened LedgerRuns

  datatype IntakeError = NotAccepting | InvalidCategory

  class Ledger {
    const policy: Policy
    const geo: Geo
    const allowed: set<string>

    var archived: bool
    var reports: seq<Report>
    var clusters: seq<Cluster>
    var cases: seq<Case>

    function State(): Tables
      reads this
    {
      Tables(reports, clusters, cases)
    }

    ghost predicate Valid()
      reads this
    {
      Inv(State(), policy)
    }

    constructor (policy: Policy, geo: Geo, allowed: set<string>)
      ensures Valid() && State() == EMPTY && !archived
      ensures this.policy == policy && this.geo == geo && this.allowed == allowed
    {
      this.policy, this.geo, this.allowed := policy, geo, allowed;
      archived, reports, clusters, cases := false, [], [], [];
    }

    // ---- cluster_service ----

    /** The rows that may take a report, in table order; callers may rely on no order. */
    method OpenCandidates(q: Query) returns (order: seq<nat>)
      ensures RowOrder(clusters, q, policy, geo, order)
      ensures forall d: nat :: d in order <==>
        && d < |clusters| && (clusters[d].status == ClusterStatus.Open || clusters[d].status == ClusterStatus.Promoted)
        && geo.inBox(q.pos, clusters[d].centroid, policy.radius)
        && clusters[d].last >= q.at - policy.windowMinutes * 60_000_000
    {
      order := [];
      for c := 0 to |clusters|
        invariant forall i, j :: 0 <= i < j < |order| ==> order[i] != order[j]
        invariant forall d: nat :: d in order <==> d < c && OpenFor(clusters[d], q, policy, geo)
      {
        var since := q.at - Window(policy);
        var cl := clusters[c];
        if cl.status == ClusterStatus.Open || cl.status == ClusterStatus.Promoted {
          if geo.inBox(q.pos, cl.centroid, policy.radius) && cl.last >= since {
            order := order + [c];
          }
        }
      }
    }

    /** The non-rejected reports of a cluster, in table order; callers may rely on no order. */
    method SelectRows(c: nat) returns (rows: seq<Row>)
      ensures multiset(rows) == multiset(Members(reports, c))
    {
      rows := [];
      for i := 0 to |reports|
        invariant rows == Members(reports[..i], c)
      {
        assert reports[..i + 1][..i] == reports[..i];
        if Counts(reports[i], c) {
          rows := rows + [RowOf(reports[i])];
        }
      }
      assert reports[..|reports|] == reports;
    }

    method Recount(c: nat)
      requires c < |clusters|
      modifies this`clusters
      ensures clusters == old(clusters)[c := Recounted(Members(reports, c), old(clusters[c]), policy)]
      ensures Accurate(Members(reports, c), clusters[c], policy)
    {
      var rows := SelectRows(c);
      RecountIsOrderIndependent(rows, Members(reports, c), clusters[c], policy);
      var cl := clusters[c];
      var points := Points(rows);
      cl := cl.(reportCount := |rows|);
      cl := cl.(uniqueCount := CountUnique(Keys(rows), policy.countAnonymous));
      if points != [] {
        cl := cl.(centroid := Mean(points));
      }
      if rows != [] {
        var severity := MaxSeverity(Severities(rows));
        cl := cl.(severity := severity, first := Earliest(rows), last := Latest(rows));
      }
      assert cl == Recounted(Members(reports, c), clusters[c], policy);
      assert Accurate(Members(reports, c), cl, policy) by {
        RecountIsAccurate(Members(reports, c), clusters[c], policy);
      }
      clusters := clusters[c := cl];
    }

    /** Attach a stored report to a cluster, or open one, and open a case when enough people agree. */
    method ProcessReport(id: nat) returns (cluster: Option<nat>, created: Option<nat>)
      requires LinksInRange(State())
      requires id < |reports| && reports[id].status == ReportStatus.Received && reports[id].cluster.None?
      modifies this`reports, this`clusters, this`cases
      ensures exists order :: ProcessedAs(old(State()), id, order, policy, geo, State(), cluster)
      ensures created == if |cases| > |old(cases)| then Some(|old(cases)|) else None
      ensures cluster.Some? <==> old(reports)[id].pos.Some?
      ensures cluster.Some? ==> JoinsNearest(old(clusters), QueryOf(old(reports)[id]), policy, geo, cluster.value)
    {
      var r := reports[id];
      if r.pos.None? {
        assert ProcessedAs(old(State()), id, [], policy, geo, State(), None);
        return None, None;
      }
      var c;
      ghost var order, choice;
      c, order, choice := ChooseCluster(id);
      ghost var s0 := State();
      ChosenLinks(old(State()), id, choice);
      JoinCluster(id, c);
      JoinedLinks(s0, id, c, policy);
      created := CompleteIntake(id, c);
      cluster := Some(c);
      assert ProcessedAs(old(State()), id, order, policy, geo, State(), cluster);
      ProcessedJoins(old(State()), id, order, policy, geo, State(), cluster);
    }

    /** The cluster for a report that has a position: the nearest one that suits, or a new one. */
    method ChooseCluster(id: nat) returns (c: nat, ghost order: seq<nat>, ghost choice: Option<nat>)
      requires id < |reports| && reports[id].pos.Some?
      modifies this`clusters
      ensures RowOrder(old(clusters), QueryOf(reports[id]), policy, geo, order)
      ensures forall i :: 0 <= i < |order| ==> order[i] < |old(clusters)|
      ensures choice == Choice(old(clusters), reports[id], order, policy, geo)
      ensures choice.Some? ==> choice.value < |old(clusters)|
      ensures (State(), c) == Chosen(old(State()), id, choice)
    {
      var r := reports[id];
      var q := QueryOf(r);
      var rows := OpenCandidates(q);
      order := rows;
      ChoiceIsOpen(clusters, r, rows, policy, geo);
      var best := PickCluster(Candidates(clusters, rows), q, policy, geo);
      if best.None? {
        choice := None;
        c := |clusters|;
        clusters := clusters + [NewCluster(r)];
      } else {
        choice := Some(best.value.id);
        c := best.value.id;
      }
    }

    method JoinCluster(id: nat, c: nat)
      requires id < |reports| && c < |clusters|
      modifies this`reports, this`clusters
      ensures State() == Joined(old(State()), id, c, policy)
    {
      reports := reports[id := reports[id].(cluster := Some(c), status := ReportStatus.Clustered)];
      Recount(c);
    }

    /** Join the case of the cluster, or make a case of it once enough people have reported. */
    method CompleteIntake(id: nat, c: nat) returns (created: Option<nat>)
      requires id < |reports| && c < |clusters| && LinksInRange(State())
      modifies this`reports, this`clusters, this`cases
      ensures State() == Completed(old(State()), id, c, policy)
      ensures created == if |cases| > |old(cases)| then Some(|old(cases)|) else None
    {
      created := None;
      if clusters[c].caseId.Some? {
        assert clusters[c] in clusters;
        AttachReportToCase(clusters[c].caseId.value, id);
      } else if clusters[c].uniqueCount >= policy.required {
        var k := CreateCaseFromCluster(c, Threshold, reports[id].at);
        created := Some(k);
      }
    }

    // ---- case_service: creation ----

    method LastArrival(c: nat, now: int) returns (at: int)
      ensures at == if Members(reports, c) != [] then Latest(Members(reports, c)) else now
    {
      var rows := SelectRows(c);
      SameMembers(rows, Members(reports, c));
      if rows != [] {
        TimesAreOrderIndependent(rows, Members(reports, c));
      }
      at := if rows != [] then Latest(rows) else now;
    }

    method CreateCaseFromCluster(c: nat, trigger: Trigger, now: int) returns (k: nat)
      requires c < |clusters|
      modifies this`reports, this`clusters, this`cases
      ensures State() == CaseOpened(old(State()), c, trigger, now)
      ensures k == |old(cases)| && OpensCase(old(State()), c, trigger, now, State())
    {
      CaseOpenedMeans(State(), c, trigger, now);
      var lastAt := LastArrival(c, now);
      var createdAt := if trigger == Threshold then lastAt else now;
      k := |cases|;
      clusters := clusters[c := clusters[c].(caseId := Some(k), status := ClusterStatus.Promoted)];
      var events := LinkReports(c, k);
      var cl := clusters[c];
      events := events + CreationEvents(trigger, cl.uniqueCount, lastAt, createdAt);
      cases := cases + [Case(c, cl.category, cl.severity, States.PendingReview, None, cl.centroid.lat, cl.centroid.lon,
        cl.reportCount, cl.uniqueCount, if trigger == Threshold then Some(lastAt) else None, createdAt,
        None, None, None, None, None, None, None, None, None, None, None, events)];
    }

    /** Every live report of the cluster joins its new case, with an event for its arrival. */
    method LinkReports(c: nat, k: nat) returns (events: seq<CaseEvent>)
      modifies this`reports
      ensures reports == seq(|old(reports)|, i requires 0 <= i < |old(reports)| => InCase(old(reports)[i], c, k))
      ensures events == ReceivedEvents(old(reports), c)
    {
      events := [];
      var selected := reports;
      for i := 0 to |selected|
        invariant |reports| == |selected|
        invariant forall j :: 0 <= j < i ==> reports[j] == InCase(selected[j], c, k)
        invariant forall j :: i <= j < |selected| ==> reports[j] == selected[j]
        invariant events == ReceivedEvents(selected[..i], c)
      {
        assert selected[..i + 1][..i] == selected[..i];
        if Counts(selected[i], c) {
          reports := reports[i := reports[i].(caseId := Some(k), status := ReportStatus.Promoted)];
          events := events + [CaseEvent(ReportReceived(i), None, None, true, selected[i].at)];
        }
      }
      assert selected[..|selected|] == selected;
    }

    method AttachReportToCase(k: nat, id: nat)
      requires k < |cases| && id < |reports| && cases[k].cluster < |clusters|
      modifies this`reports, this`cases
      ensures State() == Attached(old(State()), id, k)
      ensures var r, c, d, cl := old(reports)[id], old(cases)[k], cases[k], clusters[old(cases)[k].cluster];
        && reports == old(reports)[id := r.(caseId := Some(k), status := ReportStatus.Promoted)]
        && cases == old(cases)[k := d]
        && d.reportCount == cl.reportCount && d.uniqueCount == cl.uniqueCount
        && Rank(d.severity) >= Rank(c.severity) && Rank(d.severity) >= Rank(r.severity)
        && (d.severity == c.severity || d.severity == r.severity)
        && d.events == c.events + [CaseEvent(ReportReceived(id), None, None, true, r.at)]
    {
      var cl := clusters[cases[k].cluster];
      reports := reports[id := reports[id].(caseId := Some(k), status := ReportStatus.Promoted)];
      var c := cases[k].(reportCount := cl.reportCount, uniqueCount := cl.uniqueCount);
      if Rank(reports[id].severity) > Rank(c.severity) {
        c := c.(severity := reports[id].severity);
      }
      cases := cases[k := c];
      Record(k, ReportReceived(id), true, reports[id].at);
    }

    method PromoteCluster(c: nat, now: int) returns (k: nat)
      requires Valid() && c < |clusters|
      modifies this`reports, this`clusters, this`cases
      ensures Valid() && State() == Step(old(State()), Promote(c, now), policy, geo)
      ensures clusters[c].caseId == Some(k)
      ensures old(clusters[c]).caseId.Some? ==> State() == old(State()) && old(clusters[c]).caseId == Some(k)
      ensures old(clusters[c]).caseId.None? ==>
        k == |old(cases)| && OpensCase(old(State()), c, Manual, now, State())
    {
      BaseLinks(State(), policy);
      StepKeepsInv(State(), Promote(c, now), policy, geo);
      if clusters[c].caseId.Some? {
        return clusters[c].caseId.value;
      }
      k := CreateCaseFromCluster(c, Manual, now);
    }

    // ---- report_service ----

    /** Store, cluster and maybe promote: one transaction. */
    method CreateReport(n: Submission) returns (r: Result<(nat, Option<nat>, Option<nat>), IntakeError>)
      requires Valid()
      modifies this`reports, this`clusters, this`cases
      ensures Valid()
      ensures r.Ok? <==> !old(archived) && n.category in allowed
      ensures r.Err? ==> r.error == if old(archived) then NotAccepting else InvalidCategory
      ensures r.Err? ==> State() == old(State())
      ensures r.Ok? ==> r.value.0 == |old(reports)| && |reports| == |old(reports)| + 1
      ensures r.Ok? ==> r.value.1 == reports[r.value.0].cluster && (r.value.1.Some? <==> n.pos.Some?)
      ensures r.Ok? ==> StoredAs(n, reports[r.value.0])
      ensures r.Ok? && r.value.1.Some? ==>
        && JoinsNearest(old(clusters), Query(n.pos.value, n.category, n.at), policy, geo, r.value.1.value)
        && Gains(old(State()), n.key, r.value.1.value, State(), policy)
        && CountsPeopleOnce(old(State()), n, r.value.1.value, State())
        && TouchesOnly(old(clusters), n.category, r.value.1.value, clusters)
      ensures r.Ok? ==> r.value.2 == if |cases| > |old(cases)| then Some(|old(cases)|) else None
      ensures r.Ok? && r.value.2.Some? ==> CreatedFor(old(State()), r.value.1, r.value.2.value, State(), policy)
      ensures r.Ok? ==> SubmittedAs(old(State()), n, policy, geo, State())
    {
      if archived {
        return Err(NotAccepting);
      }
      if n.category !in allowed {
        return Err(InvalidCategory);
      }
      var id, cluster, created := StoreReport(n);
      r := Ok((id, cluster, created));
    }

    method StoreReport(n: Submission) returns (id: nat, cluster: Option<nat>, created: Option<nat>)
      requires Valid()
      modifies this`reports, this`clusters, this`cases
      ensures Valid() && SubmittedAs(old(State()), n, policy, geo, State())
      ensures id == |old(reports)| && |reports| == |old(reports)| + 1
      ensures cluster == reports[id].cluster && (cluster.Some? <==> n.pos.Some?)
      ensures created == if |cases| > |old(cases)| then Some(|old(cases)|) else None
      ensures created.Some? ==> CreatedFor(old(State()), cluster, created.value, State(), policy)
      ensures StoredAs(n, reports[id])
      ensures cluster.Some? ==>
        && JoinsNearest(old(clusters), Query(n.pos.value, n.category, n.at), policy, geo, cluster.value)
        && Gains(old(State()), n.key, cluster.value, State(), policy)
        && CountsPeopleOnce(old(State()), n, cluster.value, State())
        && TouchesOnly(old(clusters), n.category, cluster.value, clusters)
    {
      ghost var s := State();
      ArrivedLinks(s, n, policy);
      id := |reports|;
      reports := reports + [Report(n.category, n.severity, n.pos, n.key, n.at, ReportStatus.Received, None, None)];
      ghost var stored := State();
      cluster, created := ProcessReport(id);
      ghost var order :| ProcessedAs(stored, id, order, policy, geo, State(), cluster);
      SubmitCompletes(s, n, order, policy, geo, State(), cluster);
      SubmitAnswers(s, n, order, policy, geo, State(), cluster);
      if cluster.Some? {
        SubmitCountsPeopleOnce(s, n, cluster.value, State(), policy, geo);
      }
    }

    method RejectReport(id: nat)
      requires Valid() && id < |reports|
      modifies this`reports, this`clusters, this`cases
      ensures Valid() && State() == Step(old(State()), Reject(id), policy, geo)
      ensures reports == old(reports)[id := old(reports)[id].(status := ReportStatus.Rejected)]
      ensures forall c: nat :: c < |old(clusters)| ==> Loses(old(State()), id, c, State(), policy)
    {
      ghost var s := State();
      forall c: nat | c < |clusters| ensures LinksInRange(s) && Loses(s, id, c, Refused(s, id, policy), policy) {
        RefusedPeople(s, id, c, policy);
      }
      BaseLinks(s, policy);
      StepKeepsInv(s, Reject(id), policy, geo);
      reports := reports[id := reports[id].(status := ReportStatus.Rejected)];
      if reports[id].cluster.Some? {
        var c := reports[id].cluster.value;
        assert s.reports[id] in s.reports;
        Recount(c);
        if clusters[c].caseId.Some? {
          assert s.clusters[c] in s.clusters;
          var k := clusters[c].caseId.value;
          var cl := clusters[c];
          cases := cases[k := cases[k].(reportCount := cl.reportCount, uniqueCount := cl.uniqueCount)];
        }
      }
      assert State() == Refused(s, id, policy);
    }

    // ---- case_service: the life of a case ----

    method Record(k: nat, kind: EventKind, public: bool, at: int)
      requires k < |cases|
      modifies this`cases
      ensures cases == old(cases)[k := WithEvent(old(cases[k]), kind, public, at)]
    {
      cases := cases[k := cases[k].(events := cases[k].events + [CaseEvent(kind, None, None, public, at)])];
    }

    method Transition(k: nat, target: string, public: bool, x: Context) returns (error: Option<CaseError>)
      requires k < |cases| && cases[k].cluster < |clusters|
      modifies this`clusters, this`cases
      ensures State() == Committed(old(State()), k, Transitioned(old(cases[k]), target, public, x))
      ensures error == Failure(Transitioned(old(cases[k]), target, public, x))
      ensures error.None? <==> exists to :: Leads(old(cases[k]).status, target, to)
      ensures error.None? ==> Leads(old(cases[k]).status, target, cases[k].status)
      ensures error.Some? ==> error == Some(InvalidTransition) && State() == old(State())
      ensures error.None? ==> FinishesCluster(old(clusters), cases[k], clusters)
    {
      WhereTransitionsLead(cases[k], target, public, x);
      var parsed := States.ParseStatus(target);
      if parsed.None? || !States.CanTransition(cases[k].status, parsed.value) {
        return Some(InvalidTransition);
      }
      var to := parsed.value;
      var c := cases[k];
      var from := c.status;
      c := c.(status := to);
      var stamp := Stamp(x);
      var track := States.TrackOf(to);
      if track.Some? {
        c := c.(track := track);
      }
      if from == States.PendingReview {
        c := c.(reviewedAt := Some(stamp), reviewedBy := x.actor);
      }
      if to == States.ReportedEmic && c.emicReportedAt.None? {
        c := c.(emicReportedAt := Some(stamp));
      }
      if to == States.CommunitySubmitted {
        c := c.(communitySubmittedAt := Some(stamp));
      }
      if to == States.Closed {
        c := c.(closedAt := Some(stamp), resolvedAt := if c.resolvedAt.Some? then c.resolvedAt else Some(stamp));
      }
      if to == States.Closed || to == States.Dismissed {
        var cl := clusters[c.cluster];
        clusters := clusters[c.cluster :=
          cl.(status := if to == States.Closed then ClusterStatus.Closed else ClusterStatus.Dismissed)];
      }
      c := c.(events := c.events + [CaseEvent(StatusChanged, Some(from), Some(to), public, stamp)]);
      cases := cases[k := c];
      error := None;
    }

    method Review(k: nat, decision: string, reply: EmicReply, x: Context) returns (error: Option<CaseError>)
      requires k < |cases| && cases[k].cluster < |clusters|
      modifies this`clusters, this`cases
      ensures State() == Committed(old(State()), k, Reviewed(old(cases[k]), decision, reply, x))
      ensures error == Failure(Reviewed(old(cases[k]), decision, reply, x))
      ensures error == Some(AlreadyReviewed) <==> old(cases[k]).status != States.PendingReview
      ensures error == Some(UnknownDecision) <==>
        old(cases[k]).status == States.PendingReview && decision !in {"emic", "community", "dismiss"}
      ensures error.Some? ==> error == Some(AlreadyReviewed) || error == Some(UnknownDecision)
      ensures error.None? && decision == "emic" ==> cases[k].status == States.ReportedEmic
      ensures error.None? && decision == "community" ==> cases[k].status == States.CommunityOpen
      ensures error.None? && decision == "dismiss" ==> cases[k].status == States.Dismissed
    {
      if cases[k].status != States.PendingReview {
        return Some(AlreadyReviewed);
      }
      if decision == "emic" {
        error := ReportToEmic(k, reply, x);
      } else if decision == "community" {
        error := Transition(k, "community_open", true, x);
      } else if decision == "dismiss" {
        error := Transition(k, "dismissed", true, x);
      } else {
        error := Some(UnknownDecision);
      }
    }

    method ReportToEmic(k: nat, reply: EmicReply, x: Context) returns (error: Option<CaseError>)
      requires k < |cases| && cases[k].cluster < |clusters|
      modifies this`clusters, this`cases
      ensures State() == Committed(old(State()), k, ReportedToEmic(old(cases[k]), reply, x))
      ensures error == Failure(ReportedToEmic(old(cases[k]), reply, x))
      ensures error.None? <==>
        old(cases[k]).status in {States.PendingReview, States.CommunityOpen, States.CommunitySubmitted}
      ensures error.Some? ==> error == Some(InvalidTransition)
      ensures error.None? ==>
        cases[k].status == States.ReportedEmic && AnswerStored(old(cases[k]), cases[k], reply, x)
    {
      error := Transition(k, "reported_emic", true, x);
      if error.Some? {
        return;
      }
      cases := cases[k := cases[k].(emicChannel := Some(ManualChannel))];
      match reply {
        case ManualMode =>
        case Accepted(no, text) =>
          var c := cases[k];
          cases := cases[k := c.(emicChannel := Some(ApiChannel), emicCaseNo := Preferred(no, c.emicCaseNo),
                                 emicStatus := Preferred(text, c.emicStatus), emicSyncedAt := Some(x.now))];
          Record(k, EmicSubmitted, false, x.now);
        case Unavailable =>
          Record(k, EmicSubmitFailed, false, x.now);
      }
    }

    method EditEmicFields(k: nat, edit: EmicEdit, x: Context)
      requires k < |cases|
      modifies this`cases
      ensures cases == old(cases)[k := EmicEdited(old(cases[k]), edit, x)]
    {
      var c := cases[k];
      var no, text, unit :=
        Edited(c.emicCaseNo, edit.caseNo), Edited(c.emicStatus, edit.status), Edited(c.assignedUnit, edit.unit);
      if no != c.emicCaseNo || text != c.emicStatus || unit != c.assignedUnit {
        var publicPart := (text != c.emicStatus && text.Some?) || (unit != c.assignedUnit && unit.Some?);
        cases := cases[k := c.(emicCaseNo := no, emicStatus := text, assignedUnit := unit,
                               emicSyncedAt := Some(Stamp(x)))];
        Record(k, EmicUpdated, publicPart, Stamp(x));
      }
      assert cases[k] == FieldsEdited(c, edit, x);
      if edit.note {
        Record(k, PublicUpdate, true, Stamp(x));
      }
    }

    /** A failing status change undoes the edits made before it. */
    method UpdateEmic(k: nat, edit: EmicEdit, x: Context) returns (error: Option<CaseError>)
      requires k < |cases| && cases[k].cluster < |clusters|
      modifies this`clusters, this`cases
      ensures State() == Committed(old(State()), k, EmicRecorded(old(cases[k]), edit, x))
      ensures error == Failure(EmicRecorded(old(cases[k]), edit, x))
      ensures error == Some(NotReportedToEmic) <==>
        old(cases[k]).status !in {States.ReportedEmic, States.EmicProcessing}
      ensures error == Some(InvalidTransition) <==>
        && old(cases[k]).status in {States.ReportedEmic, States.EmicProcessing}
        && edit.target.Some? && edit.target.value !in {"", "closed"}
        && !(old(cases[k]).status == States.ReportedEmic && edit.target.value == "emic_processing")
      ensures error.Some? ==> error == Some(NotReportedToEmic) || error == Some(InvalidTransition)
      ensures error.None? ==> UpdateStored(old(cases[k]), cases[k], edit, x)
      ensures error.None? && edit.target == Some("emic_processing") ==> cases[k].status == States.EmicProcessing
      ensures error.None? && edit.target == Some("closed") ==> cases[k].status == States.Closed
      ensures error.None? && (edit.target == None || edit.target == Some("")) ==>
        cases[k].status == old(cases[k]).status
    {
      WhereCallsLead(cases[k], Command.UpdateEmic(edit), x);
      if EmicRecorded(cases[k], edit, x).Ok? {
        UpdateIsStored(cases[k], edit, x);
      }
      if cases[k].status != States.ReportedEmic && cases[k].status != States.EmicProcessing {
        return Some(NotReportedToEmic);
      }
      var before := cases;
      EditEmicFields(k, edit, x);
      EditsKeepStatus(before[k], edit, x);
      error := None;
      if edit.target.Some? && edit.target.value != "" {
        error := Transition(k, edit.target.value, true, x);
        if error.Some? {
          cases := before;
        }
      }
    }

    method CommunitySubmit(k: nat, x: Context) returns (error: Option<CaseError>)
      requires k < |cases| && cases[k].cluster < |clusters|
      modifies this`clusters, this`cases
      ensures State() == Committed(old(State()), k, Submitted(old(cases[k]), x))
      ensures error == Failure(Submitted(old(cases[k]), x))
      ensures error.None? <==> old(cases[k]).status == States.CommunityOpen
      ensures error.Some? ==> error == Some(NotOpenToCommunity)
      ensures error.None? ==> cases[k].status == States.CommunitySubmitted
    {
      if cases[k].status != States.CommunityOpen {
        return Some(NotOpenToCommunity);
      }
      error := Transition(k, "community_submitted", true, x);
    }

    method CommunityConfirm(k: nat, approve: bool, x: Context) returns (error: Option<CaseError>)
      requires k < |cases| && cases[k].cluster < |clusters|
      modifies this`clusters, this`cases
      ensures State() == Committed(old(State()), k, Confirmed(old(cases[k]), approve, x))
      ensures error == Failure(Confirmed(old(cases[k]), approve, x))
      ensures error.None? <==> old(cases[k]).status == States.CommunitySubmitted
      ensures error.Some? ==> error == Some(NothingToConfirm)
      ensures error.None? ==> cases[k].status == if approve then States.Closed else States.CommunityOpen
    {
      if cases[k].status != States.CommunitySubmitted {
        return Some(NothingToConfirm);
      }
      error := Transition(k, if approve then "closed" else "community_open", true, x);
    }

    /** Any call on a case, as one transaction: it commits as a whole or changes nothing. */
    method Execute(k: nat, cmd: Command, x: Context) returns (error: Option<CaseError>)
      requires Valid() && k < |cases|
      modifies this`clusters, this`cases
      ensures Valid() && State() == Step(old(State()), Call(k, cmd, x), policy, geo)
      ensures error == Failure(Cases.Execute(old(cases[k]), cmd, x))
      ensures error.Some? ==> State() == old(State())
    {
      ghost var s := State();
      BaseLinks(s, policy);
      assert s.cases[k] in s.cases;
      StepKeepsInv(s, Call(k, cmd, x), policy, geo);
      match cmd {
        case SetStatus(target, public) => error := Transition(k, target, public, x);
        case Review(decision, reply) => error := Review(k, decision, reply, x);
        case ReportToEmic(reply) => error := ReportToEmic(k, reply, x);
        case UpdateEmic(edit) => error := UpdateEmic(k, edit, x);
        case CommunitySubmit => error := CommunitySubmit(k, x);
        case CommunityConfirm(approve) => error := CommunityConfirm(k, approve, x);
        case AddUpdate(public) =>
          error := None;
          Record(k, if public then PublicUpdate else InternalNote, public, Stamp(x));
      }
      assert State() == Committed(s, k, Cases.Execute(s.cases[k], cmd, x));
    }
  }

  /** The cluster of a case that is closed or dismissed is so too; no other cluster changes, and none for another
      status. */
  ghost predicate FinishesCluster(before: seq<Cluster>, c: Case, after: seq<Cluster>)
    requires c.cluster < |before|
  {
    if c.status == States.Closed then after == before[c.cluster := before[c.cluster].(status := ClusterStatus.Closed)]
    else if c.status == States.Dismissed
    then after == before[c.cluster := before[c.cluster].(status := ClusterStatus.Dismissed)]
    else after == before
  }

  function Failure(r: Result<Case, CaseError>): Option<CaseError> {
    if r.Err? then Some(r.error) else None
  }
}

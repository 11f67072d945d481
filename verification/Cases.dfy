/**
 One incident case and its event log (apps/api/app/services/case_service.py).

 A `Case` is the row of the case table together with the rows of the event table that
 belong to it, in insertion order. The functions here say what each service call makes
 of such a row; `Ledger` applies them to the tables.
 */
module Cases {
  import opened Wrappers
  import opened Categories
  import opened CaseStates

  datatype Trigger = Threshold | Manual

  datatype EventKind =
    | ReportReceived(report: nat)
    | ThresholdReached(unique: nat)
    | CaseCreated(trigger: Trigger)
    | StatusChanged
    | EmicSubmitted
    | EmicSubmitFailed
    | EmicUpdated
    | PublicUpdate
    | InternalNote

  datatype CaseEvent = CaseEvent(
    kind: EventKind,
    from: Option<CaseStatus>,
    to: Option<CaseStatus>,
    public: bool,
    at: int)

  datatype EmicChannel = ManualChannel | ApiChannel

  datatype Case = Case(
    cluster: nat,
    category: string,
    severity: Severity,
    status: CaseStatus,
    track: Option<Track>,
    lat: real,
    lon: real,
    reportCount: nat,
    uniqueCount: nat,
    thresholdAt: Option<int>,
    createdAt: int,
    reviewedAt: Option<int>,
    reviewedBy: Option<string>,
    emicCaseNo: Option<string>,
    emicStatus: Option<string>,
    assignedUnit: Option<string>,
    emicChannel: Option<EmicChannel>,
    emicReportedAt: Option<int>,
    emicSyncedAt: Option<int>,
    communitySubmittedAt: Option<int>,
    closedAt: Option<int>,
    resolvedAt: Option<int>,
    events: seq<CaseEvent>)

  // ---- reading the event log ----

  /** Every status the log says the case has had, oldest first. */
  function History(events: seq<CaseEvent>): seq<CaseStatus> {
    if events == [] then [PendingReview]
    else
      var e := events[|events| - 1];
      History(events[..|events| - 1])
      + (if e.kind.StatusChanged? && e.to.Some? then [e.to.value] else [])
  }

  /** Each status change starts where the previous one ended and follows the state machine;
      no other event but the creation carries a status. */
  ghost predicate Unbroken(events: seq<CaseEvent>) {
    if events == [] then true
    else
      var n := |events| - 1;
      var e := events[n];
      && Unbroken(events[..n])
      && match e.kind
         case StatusChanged =>
           && e.from == Some(Current(History(events[..n])))
           && e.to.Some? && CanTransition(e.from.value, e.to.value)
         case CaseCreated(_) => e.from == None && e.to == Some(PendingReview)
         case _ => e.from == None && e.to == None
  }

  /** The most recent status of a history. */
  function Current(h: seq<CaseStatus>): CaseStatus {
    if h == [] then PendingReview else h[|h| - 1]
  }

  /** The reports whose arrival the log records, in the order it records them. */
  function Logged(events: seq<CaseEvent>): seq<nat> {
    if events == [] then []
    else
      var e := events[|events| - 1];
      Logged(events[..|events| - 1]) + (if e.kind.ReportReceived? then [e.kind.report] else [])
  }

  predicate IsMove(e: CaseEvent, to: Option<CaseStatus>) {
    e.kind.StatusChanged? && (to.Some? ==> e.to == to)
  }

  /** When the log first says the case moved: to this status, or to any with `None`. */
  function FirstMove(events: seq<CaseEvent>, to: Option<CaseStatus>): Option<int> {
    if events == [] then None
    else
      var n := |events| - 1;
      var before := FirstMove(events[..n], to);
      if before.None? && IsMove(events[n], to) then Some(events[n].at) else before
  }

  /** When the log last says so. */
  function LastMove(events: seq<CaseEvent>, to: Option<CaseStatus>): Option<int> {
    if events == [] then None
    else
      var n := |events| - 1;
      if IsMove(events[n], to) then Some(events[n].at) else LastMove(events[..n], to)
  }

  lemma {:induction false} AppendMove(events: seq<CaseEvent>, e: CaseEvent, to: Option<CaseStatus>)
    ensures FirstMove(events + [e], to)
         == if FirstMove(events, to).None? && IsMove(e, to) then Some(e.at) else FirstMove(events, to)
    ensures LastMove(events + [e], to) == if IsMove(e, to) then Some(e.at) else LastMove(events, to)
  {
    assert (events + [e])[..|events|] == events;
  }

  lemma {:induction false} NoMoves(events: seq<CaseEvent>, to: Option<CaseStatus>)
    requires forall e <- events :: !e.kind.StatusChanged?
    ensures FirstMove(events, to) == None && LastMove(events, to) == None
  {
    if events != [] {
      var n := |events| - 1;
      assert events[n] in events;
      forall e | e in events[..n] ensures !e.kind.StatusChanged? {
        assert e in events;
      }
      NoMoves(events[..n], to);
    }
  }

  lemma {:induction false} AppendEvent(events: seq<CaseEvent>, e: CaseEvent)
    ensures History(events + [e])
         == History(events) + (if e.kind.StatusChanged? && e.to.Some? then [e.to.value] else [])
    ensures Logged(events + [e]) == Logged(events) + (if e.kind.ReportReceived? then [e.kind.report] else [])
    ensures History(events) != []
  {
    assert (events + [e])[..|events|] == events;
    HistoryStarts(events);
  }

  lemma {:induction false} HistoryStarts(events: seq<CaseEvent>)
    ensures History(events) != [] && History(events)[0] == PendingReview
  {
    if events != [] {
      HistoryStarts(events[..|events| - 1]);
    }
  }

  /** The status changes of an unbroken log are a legal path through the state machine. */
  lemma {:induction false} UnbrokenIsLegal(events: seq<CaseEvent>)
    requires Unbroken(events)
    ensures LegalPath(History(events))
  {
    if events != [] {
      var n := |events| - 1;
      UnbrokenIsLegal(events[..n]);
      var g, h := History(events[..n]), History(events);
      forall i | 0 < i < |h| ensures CanTransition(h[i - 1], h[i]) {
        if i < |g| {
          assert h[i - 1] == g[i - 1] && h[i] == g[i];
        }
      }
    }
  }

  /** A status appears in the history exactly when some event moved the case there. */
  lemma {:induction false} HistoryEvents(events: seq<CaseEvent>, s: CaseStatus)
    requires Unbroken(events)
    ensures forall e <- events :: e.to.Some? ==> e.to.value in History(events)
    ensures s in History(events) ==> s == PendingReview || exists e <- events :: e.to == Some(s)
  {
    HistoryStarts(events);
    if events != [] {
      var n := |events| - 1;
      assert events == events[..n] + [events[n]];
      HistoryEvents(events[..n], s);
      HistoryStarts(events[..n]);
    }
  }

  // ---- what every reachable case row satisfies ----

  /** The fields of the row agree with its event log. */
  ghost predicate CaseOk(c: Case, required: int) {
    var h := History(c.events);
    && Unbroken(c.events)
    && c.status == Current(h)
    && c.track == LastTrack(h)
    && (c.reviewedAt.Some? <==> |h| > 1)
    && (c.emicReportedAt.Some? <==> ReportedEmic in h)
    && (c.emicChannel.Some? ==> ReportedEmic in h)
    && (c.communitySubmittedAt.Some? <==> CommunitySubmitted in h)
    && (c.closedAt.Some? <==> Closed in h)
    && c.resolvedAt == c.closedAt
    && StampsLogged(c)
    && ThresholdsMet(c.events, required)
    && (c.thresholdAt.Some? <==> HasThreshold(c.events))
  }

  /** The stamps are the times that the log gives: of the first change of status, of the first move to EMIC, of
      the latest submission by the community, and of the closing. */
  ghost predicate StampsLogged(c: Case) {
    && c.reviewedAt == FirstMove(c.events, None)
    && c.emicReportedAt == FirstMove(c.events, Some(ReportedEmic))
    && c.communitySubmittedAt == LastMove(c.events, Some(CommunitySubmitted))
    && c.closedAt == LastMove(c.events, Some(Closed))
  }

  /** The threshold was met and not exceeded; one below 1 is met by nobody at all. */
  predicate JustReached(unique: nat, required: int) {
    required < 1 || unique == required
  }

  /** Every threshold the log records was reached by exactly as many distinct reporters as required. */
  ghost predicate ThresholdsMet(events: seq<CaseEvent>, required: int) {
    forall e <- events :: e.kind.ThresholdReached? ==> JustReached(e.kind.unique, required)
  }

  ghost predicate HasThreshold(events: seq<CaseEvent>) {
    exists e <- events :: e.kind.ThresholdReached?
  }

  /** Everything about a case that no later step may undo. */
  ghost predicate CaseKept(c: Case, d: Case) {
    && c.events <= d.events
    && d.cluster == c.cluster && d.category == c.category
    && d.createdAt == c.createdAt && d.thresholdAt == c.thresholdAt
    && Rank(c.severity) <= Rank(d.severity)
    && (c.reviewedAt.Some? ==> d.reviewedAt == c.reviewedAt && d.reviewedBy == c.reviewedBy)
    && (c.emicReportedAt.Some? ==> d.emicReportedAt == c.emicReportedAt)
    && (c.closedAt.Some? ==> d.closedAt == c.closedAt)
    && (c.track == Some(Emic) ==> d.track == Some(Emic))
    && (Finished(c.status) ==> d.status == c.status)
  }

  /** A step that handles the case without touching what the intake engine maintains. */
  ghost predicate SameIntake(c: Case, d: Case) {
    && d.severity == c.severity && d.reportCount == c.reportCount && d.uniqueCount == c.uniqueCount
    && Logged(d.events) == Logged(c.events)
    && d.cluster == c.cluster
  }

  /** A call keeps the row consistent, undoes nothing and leaves the intake summary alone. */
  ghost predicate Handles(c: Case, d: Case, required: int) {
    CaseOk(d, required) && CaseKept(c, d) && SameIntake(c, d)
  }

  // ---- the service calls, on one row ----

  datatype CaseError =
    | InvalidTransition
    | AlreadyReviewed
    | UnknownDecision
    | NotReportedToEmic
    | NotOpenToCommunity
    | NothingToConfirm

  /** What a call brings with it: the caller's name, an explicit time if any, and the clock. */
  datatype Context = Context(actor: Option<string>, at: Option<int>, now: int)

  function Stamp(x: Context): int {
    if x.at.Some? then x.at.value else x.now
  }

  function WithEvent(c: Case, kind: EventKind, public: bool, at: int): Case {
    c.(events := c.events + [CaseEvent(kind, None, None, public, at)])
  }

  /** `transition` for a pair of statuses that the state machine allows. */
  function Moved(c: Case, to: CaseStatus, public: bool, x: Context): Case
  {
    var stamp := Stamp(x);
    var pending := c.status == PendingReview;
    c.(status := to,
       track := if TrackOf(to).Some? then TrackOf(to) else c.track,
       reviewedAt := if pending then Some(stamp) else c.reviewedAt,
       reviewedBy := if pending then x.actor else c.reviewedBy,
       emicReportedAt := if to == ReportedEmic && c.emicReportedAt == None then Some(stamp) else c.emicReportedAt,
       communitySubmittedAt := if to == CommunitySubmitted then Some(stamp) else c.communitySubmittedAt,
       closedAt := if to == Closed then Some(stamp) else c.closedAt,
       resolvedAt := if to == Closed && c.resolvedAt == None then Some(stamp) else c.resolvedAt,
       events := c.events + [CaseEvent(StatusChanged, Some(c.status), Some(to), public, stamp)])
  }

  /** `transition`: an unknown or disallowed target status is an error. */
  function Transitioned(c: Case, target: string, public: bool, x: Context): Result<Case, CaseError> {
    var to := ParseStatus(target);
    if to.None? || !CanTransition(c.status, to.value) then Err(InvalidTransition)
    else Ok(Moved(c, to.value, public, x))
  }

  /** What the EMIC connector answered; it is not consulted in manual mode. */
  datatype EmicReply =
    | ManualMode
    | Accepted(caseNo: Option<string>, emicStatus: Option<string>)
    | Unavailable

  function Preferred(received: Option<string>, known: Option<string>): Option<string> {
    if received.Some? && received.value != "" then received else known
  }

  /** `report_to_emic`: move first, then record how the submission went. */
  function ReportedToEmic(c: Case, reply: EmicReply, x: Context): Result<Case, CaseError> {
    if !CanTransition(c.status, ReportedEmic) then Err(InvalidTransition)
    else
      var d := Moved(c, ReportedEmic, true, x).(emicChannel := Some(ManualChannel));
      match reply
      case ManualMode => Ok(d)
      case Accepted(no, text) =>
        Ok(WithEvent(
          d.(emicChannel := Some(ApiChannel), emicCaseNo := Preferred(no, d.emicCaseNo),
             emicStatus := Preferred(text, d.emicStatus), emicSyncedAt := Some(x.now)),
          EmicSubmitted, false, x.now))
      case Unavailable => Ok(WithEvent(d, EmicSubmitFailed, false, x.now))
  }

  /** `review`, the point at which an officer decides how a pending case is handled. */
  function Reviewed(c: Case, decision: string, reply: EmicReply, x: Context): Result<Case, CaseError> {
    if c.status != PendingReview then Err(AlreadyReviewed)
    else if decision == "emic" then ReportedToEmic(c, reply, x)
    else if decision == "community" then Transitioned(c, "community_open", true, x)
    else if decision == "dismiss" then Transitioned(c, "dismissed", true, x)
    else Err(UnknownDecision)
  }

  /** A text field submitted with an EMIC update, already trimmed; an empty one clears the field. */
  function Edited(known: Option<string>, submitted: Option<string>): Option<string> {
    if submitted.None? || submitted == known || (submitted.value == "" && known.None?) then known
    else if submitted.value == "" then None
    else submitted
  }

  datatype EmicEdit = EmicEdit(
    caseNo: Option<string>, status: Option<string>, unit: Option<string>, note: bool, target: Option<string>)

  /** The three text fields of `update_emic`; nothing is recorded when none of them changes. */
  function FieldsEdited(c: Case, edit: EmicEdit, x: Context): Case {
    var no := Edited(c.emicCaseNo, edit.caseNo);
    var text := Edited(c.emicStatus, edit.status);
    var unit := Edited(c.assignedUnit, edit.unit);
    var changed := no != c.emicCaseNo || text != c.emicStatus || unit != c.assignedUnit;
    var publicPart := (text != c.emicStatus && text.Some?) || (unit != c.assignedUnit && unit.Some?);
    if !changed then c
    else WithEvent(c.(emicCaseNo := no, emicStatus := text, assignedUnit := unit,
                      emicSyncedAt := Some(Stamp(x))), EmicUpdated, publicPart, Stamp(x))
  }

  /** The part of `update_emic` before the optional status change. */
  function EmicEdited(c: Case, edit: EmicEdit, x: Context): Case {
    var d := FieldsEdited(c, edit, x);
    if edit.note then WithEvent(d, PublicUpdate, true, Stamp(x)) else d
  }

  /** `update_emic`. */
  function EmicRecorded(c: Case, edit: EmicEdit, x: Context): Result<Case, CaseError> {
    if c.status != ReportedEmic && c.status != EmicProcessing then Err(NotReportedToEmic)
    else
      var d := EmicEdited(c, edit, x);
      if edit.target.None? || edit.target.value == "" then Ok(d)
      else Transitioned(d, edit.target.value, true, x)
  }

  /** `community_submit`. */
  function Submitted(c: Case, x: Context): Result<Case, CaseError> {
    if c.status != CommunityOpen then Err(NotOpenToCommunity)
    else Transitioned(c, "community_submitted", true, x)
  }

  /** `community_confirm`. */
  function Confirmed(c: Case, approve: bool, x: Context): Result<Case, CaseError> {
    if c.status != CommunitySubmitted then Err(NothingToConfirm)
    else Transitioned(c, if approve then "closed" else "community_open", true, x)
  }

  /** `add_update`. */
  function Noted(c: Case, public: bool, x: Context): Case {
    WithEvent(c, if public then PublicUpdate else InternalNote, public, Stamp(x))
  }

  /** Every call an officer, a helper or EMIC can make on an existing case. */
  datatype Command =
    | SetStatus(target: string, public: bool)
    | Review(decision: string, reply: EmicReply)
    | ReportToEmic(reply: EmicReply)
    | UpdateEmic(edit: EmicEdit)
    | CommunitySubmit
    | CommunityConfirm(approve: bool)
    | AddUpdate(isPublic: bool)

  function Execute(c: Case, cmd: Command, x: Context): Result<Case, CaseError> {
    match cmd
    case SetStatus(target, public) => Transitioned(c, target, public, x)
    case Review(decision, reply) => Reviewed(c, decision, reply, x)
    case ReportToEmic(reply) => ReportedToEmic(c, reply, x)
    case UpdateEmic(edit) => EmicRecorded(c, edit, x)
    case CommunitySubmit => Submitted(c, x)
    case CommunityConfirm(approve) => Confirmed(c, approve, x)
    case AddUpdate(public) => Ok(Noted(c, public, x))
  }

  // ---- every call keeps the row consistent ----

  lemma {:induction false} ThresholdEvents(events: seq<CaseEvent>, e: CaseEvent, required: int)
    requires !e.kind.ThresholdReached?
    ensures HasThreshold(events + [e]) <==> HasThreshold(events)
    ensures ThresholdsMet(events + [e], required) <==> ThresholdsMet(events, required)
  {
    forall f | f in events ensures f in events + [e] {
    }
  }

  lemma {:induction false} MovedLog(c: Case, to: CaseStatus, public: bool, x: Context)
    requires Unbroken(c.events) && c.status == Current(History(c.events)) && CanTransition(c.status, to)
    ensures var d := Moved(c, to, public, x);
      Unbroken(d.events) && History(d.events) == History(c.events) + [to]
      && Logged(d.events) == Logged(c.events) && c.events <= d.events
  {
    var d := Moved(c, to, public, x);
    AppendEvent(c.events, CaseEvent(StatusChanged, Some(c.status), Some(to), public, Stamp(x)));
    assert d.events[..|c.events|] == c.events;
  }

  /** What one more status does to a legal history. */
  lemma {:induction false} HistoryStep(g: seq<CaseStatus>, to: CaseStatus)
    requires LegalPath(g) && CanTransition(Current(g), to)
    ensures var h := g + [to];
      && LegalPath(h) && Current(h) == to
      && LastTrack(h) == (if TrackOf(to).Some? then TrackOf(to) else LastTrack(g))
      && (LastTrack(g) == Some(Emic) ==> LastTrack(h) == Some(Emic))
      && (forall s :: s in h <==> s in g || s == to)
      && (|g| > 1 <==> Current(g) != PendingReview)
      && !Finished(Current(g)) && Closed !in g
  {
    var h := g + [to];
    assert h[..|g|] == g;
    TrackFacts(g);
    TrackFacts(h);
    FinishedAtEnd(g, Closed);
    FinishedIsLast(g, |g| - 1);
  }

  /** A move stamps the row with the time it logs. */
  lemma {:induction false} MovedStamps(c: Case, to: CaseStatus, public: bool, x: Context)
    requires StampsLogged(c) && (c.status == PendingReview <==> c.reviewedAt.None?)
    ensures StampsLogged(Moved(c, to, public, x))
  {
    var e := CaseEvent(StatusChanged, Some(c.status), Some(to), public, Stamp(x));
    AppendMove(c.events, e, None);
    AppendMove(c.events, e, Some(ReportedEmic));
    AppendMove(c.events, e, Some(CommunitySubmitted));
    AppendMove(c.events, e, Some(Closed));
  }

  /** An event that is no move leaves the stamps in agreement. */
  lemma {:induction false} WithEventStamps(c: Case, kind: EventKind, public: bool, at: int)
    requires StampsLogged(c) && !kind.StatusChanged?
    ensures StampsLogged(WithEvent(c, kind, public, at))
  {
    var e := CaseEvent(kind, None, None, public, at);
    AppendMove(c.events, e, None);
    AppendMove(c.events, e, Some(ReportedEmic));
    AppendMove(c.events, e, Some(CommunitySubmitted));
    AppendMove(c.events, e, Some(Closed));
  }

  lemma {:induction false} MovedOk(c: Case, to: CaseStatus, public: bool, x: Context, required: int)
    requires CaseOk(c, required) && CanTransition(c.status, to)
    ensures var d := Moved(c, to, public, x);
      Handles(c, d, required)
      && History(d.events) == History(c.events) + [to]
  {
    MovedLog(c, to, public, x);
    ThresholdEvents(c.events, CaseEvent(StatusChanged, Some(c.status), Some(to), public, Stamp(x)), required);
    UnbrokenIsLegal(c.events);
    HistoryStep(History(c.events), to);
    MovedStamps(c, to, public, x);
  }

  /** A finished status is in a legal history exactly when it is the current one. */
  lemma {:induction false} FinishedAtEnd(h: seq<CaseStatus>, s: CaseStatus)
    requires LegalPath(h) && Finished(s)
    ensures s in h <==> h[|h| - 1] == s
  {
    if s in h {
      var i :| 0 <= i < |h| && h[i] == s;
      FinishedIsLast(h, i);
    }
  }

  lemma {:induction false} WithEventOk(c: Case, kind: EventKind, public: bool, at: int, required: int)
    requires CaseOk(c, required)
    requires !kind.StatusChanged? && !kind.CaseCreated? && !kind.ThresholdReached?
    ensures var d := WithEvent(c, kind, public, at);
      CaseOk(d, required) && CaseKept(c, d)
      && History(d.events) == History(c.events)
      && (!kind.ReportReceived? ==> SameIntake(c, d))
  {
    var e := CaseEvent(kind, None, None, public, at);
    AppendEvent(c.events, e);
    assert History(c.events + [e]) == History(c.events) by {
      assert History(c.events) + [] == History(c.events);
    }
    ThresholdEvents(c.events, e, required);
    WithEventStamps(c, kind, public, at);
    assert (c.events + [e])[..|c.events|] == c.events;
  }

  /** Whatever is called in whatever order, the row agrees with its log, the log only grows, the stamps of the
      review, of the report to EMIC and of the closing are never rewritten, that of a community submission is
      the latest one's, the EMIC track and a finished status are never left. */
  lemma {:induction false} ExecuteOk(c: Case, cmd: Command, x: Context, required: int)
    requires CaseOk(c, required)
    requires Execute(c, cmd, x).Ok?
    ensures var d := Execute(c, cmd, x).value;
      Handles(c, d, required)
      && (d.status == c.status || CanTransition(c.status, d.status))
  {
    match cmd
    case SetStatus(target, public) => TransitionedOk(c, target, public, x, required);
    case Review(decision, reply) => ReviewedOk(c, decision, reply, x, required);
    case ReportToEmic(reply) => ReportedToEmicOk(c, reply, x, required);
    case UpdateEmic(edit) => EmicRecordedOk(c, edit, x, required);
    case CommunitySubmit => SubmittedOk(c, x, required);
    case CommunityConfirm(approve) => ConfirmedOk(c, approve, x, required);
    case AddUpdate(public) => NotedOk(c, public, x, required);
  }

  lemma {:induction false} SubmittedOk(c: Case, x: Context, required: int)
    requires CaseOk(c, required) && Submitted(c, x).Ok?
    ensures var d := Submitted(c, x).value;
      Handles(c, d, required) && CanTransition(c.status, d.status)
  {
    TransitionedOk(c, "community_submitted", true, x, required);
  }

  lemma {:induction false} ConfirmedOk(c: Case, approve: bool, x: Context, required: int)
    requires CaseOk(c, required) && Confirmed(c, approve, x).Ok?
    ensures var d := Confirmed(c, approve, x).value;
      Handles(c, d, required) && CanTransition(c.status, d.status)
  {
    TransitionedOk(c, if approve then "closed" else "community_open", true, x, required);
  }

  lemma {:induction false} NotedOk(c: Case, public: bool, x: Context, required: int)
    requires CaseOk(c, required)
    ensures Handles(c, Noted(c, public, x), required) && Noted(c, public, x).status == c.status
  {
    WithEventOk(c, if public then PublicUpdate else InternalNote, public, Stamp(x), required);
  }

  lemma {:induction false} ReviewedOk(c: Case, decision: string, reply: EmicReply, x: Context, required: int)
    requires CaseOk(c, required)
    requires Reviewed(c, decision, reply, x).Ok?
    ensures var d := Reviewed(c, decision, reply, x).value;
      Handles(c, d, required) && CanTransition(c.status, d.status)
  {
    if decision == "emic" {
      ReportedToEmicOk(c, reply, x, required);
    } else if decision == "community" {
      TransitionedOk(c, "community_open", true, x, required);
    } else {
      TransitionedOk(c, "dismissed", true, x, required);
    }
  }

  lemma {:induction false} TransitionedOk(c: Case, target: string, public: bool, x: Context, required: int)
    requires CaseOk(c, required)
    requires Transitioned(c, target, public, x).Ok?
    ensures var d := Transitioned(c, target, public, x).value;
      Handles(c, d, required) && CanTransition(c.status, d.status)
  {
    MovedOk(c, ParseStatus(target).value, public, x, required);
  }

  /** What EMIC answers is recorded on a row that has been reported to it. */
  lemma {:induction false} EmicFieldsOk(c: Case, m: Case, d: Case, required: int)
    requires Handles(c, m, required) && m.status == ReportedEmic
    requires d == m.(emicChannel := d.emicChannel, emicCaseNo := d.emicCaseNo, emicStatus := d.emicStatus,
                     emicSyncedAt := d.emicSyncedAt)
    ensures Handles(c, d, required)
  {
    var h := History(m.events);
    HistoryStarts(m.events);
    assert ReportedEmic == h[|h| - 1];
  }

  lemma {:induction false} RecordedOk(c: Case, m: Case, kind: EventKind, at: int, required: int)
    requires Handles(c, m, required) && (kind == EmicSubmitted || kind == EmicSubmitFailed)
    ensures Handles(c, WithEvent(m, kind, false, at), required)
  {
    WithEventOk(m, kind, false, at, required);
    KeptTransitive(c, m, WithEvent(m, kind, false, at));
  }

  lemma {:induction false} ReportedToEmicOk(c: Case, reply: EmicReply, x: Context, required: int)
    requires CaseOk(c, required)
    requires ReportedToEmic(c, reply, x).Ok?
    ensures var d := ReportedToEmic(c, reply, x).value;
      Handles(c, d, required) && CanTransition(c.status, d.status)
  {
    var m := Moved(c, ReportedEmic, true, x);
    MovedOk(c, ReportedEmic, true, x, required);
    var d := m.(emicChannel := Some(ManualChannel));
    EmicFieldsOk(c, m, d, required);
    match reply
    case ManualMode =>
    case Unavailable => RecordedOk(c, d, EmicSubmitFailed, x.now, required);
    case Accepted(no, text) =>
      var f := d.(emicChannel := Some(ApiChannel), emicCaseNo := Preferred(no, d.emicCaseNo),
        emicStatus := Preferred(text, d.emicStatus), emicSyncedAt := Some(x.now));
      EmicFieldsOk(c, d, f, required);
      RecordedOk(c, f, EmicSubmitted, x.now, required);
  }

  lemma {:induction false} EmicRecordedOk(c: Case, edit: EmicEdit, x: Context, required: int)
    requires CaseOk(c, required)
    requires EmicRecorded(c, edit, x).Ok?
    ensures var d := EmicRecorded(c, edit, x).value;
      Handles(c, d, required)
      && (d.status == c.status || CanTransition(c.status, d.status))
  {
    EmicEditedOk(c, edit, x, required);
    var d := EmicEdited(c, edit, x);
    if !(edit.target.None? || edit.target.value == "") {
      TransitionedOk(d, edit.target.value, true, x, required);
      KeptTransitive(c, d, Transitioned(d, edit.target.value, true, x).value);
    }
  }

  lemma {:induction false} EmicEditedOk(c: Case, edit: EmicEdit, x: Context, required: int)
    requires CaseOk(c, required)
    ensures var d := EmicEdited(c, edit, x);
      Handles(c, d, required) && d.status == c.status
  {
    var d := FieldsEdited(c, edit, x);
    FieldsEditedOk(c, edit, x, required);
    if edit.note {
      WithEventOk(d, PublicUpdate, true, Stamp(x), required);
      KeptTransitive(c, d, EmicEdited(c, edit, x));
    }
  }

  lemma {:induction false} FieldsEditedOk(c: Case, edit: EmicEdit, x: Context, required: int)
    requires CaseOk(c, required)
    ensures var d := FieldsEdited(c, edit, x);
      Handles(c, d, required) && d.status == c.status
  {
    var d := FieldsEdited(c, edit, x);
    if d != c {
      var c' := c.(emicCaseNo := d.emicCaseNo, emicStatus := d.emicStatus,
        assignedUnit := d.assignedUnit, emicSyncedAt := d.emicSyncedAt);
      assert CaseOk(c', required);
      WithEventOk(c', EmicUpdated, d.events[|c.events|].public, Stamp(x), required);
    }
  }

  lemma {:induction false} KeptTransitive(c: Case, d: Case, e: Case)
    requires CaseKept(c, d) && CaseKept(d, e)
    ensures CaseKept(c, e)
  {
    assert c.events <= d.events <= e.events;
  }

  /** What a reader of a consistent row may rely on, whatever happened to the case. */
  lemma {:induction false} CaseFacts(c: Case, required: int)
    requires CaseOk(c, required)
    ensures var h := History(c.events);
      && LegalPath(h) && h[|h| - 1] == c.status
      && |h| - 1 <= 5 + 2 * Rejections(h)
      && (c.status == Closed ==> c.track.Some?)
      && (c.closedAt.Some? <==> c.status == Closed)
      && (c.reviewedAt.Some? <==> c.status != PendingReview)
      && (c.track == Some(Emic) <==> c.emicReportedAt.Some?)
      && (TrackOf(c.status).Some? ==> c.track == TrackOf(c.status))
      && (c.status == Dismissed ==> c.track != Some(Emic))
      && c.communitySubmittedAt == LastMove(c.events, Some(CommunitySubmitted))
      && c.reviewedAt == FirstMove(c.events, None)
  {
    var h := History(c.events);
    UnbrokenIsLegal(c.events);
    ChangesBounded(h);
    TrackFacts(h);
    FinishedAtEnd(h, Closed);
    FinishedIsLast(h, |h| - 1);
  }
}

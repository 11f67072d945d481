/**
 What each call on an existing case leads to, fails with, logs and stores, in terms of its arguments
 (apps/api/app/services/case_service.py).
 */
module CaseCalls {
  import opened Wrappers
  import opened CaseStates
  import opened Cases

  /** From which statuses a direct transition leads where; every other text, known or not, is refused. */
  ghost predicate Leads(from: CaseStatus, target: string, to: CaseStatus) {
    || (target == "reported_emic" && to == ReportedEmic && from in {PendingReview, CommunityOpen, CommunitySubmitted})
    || (target == "emic_processing" && to == EmicProcessing && from == ReportedEmic)
    || (target == "community_open" && to == CommunityOpen && from in {PendingReview, CommunitySubmitted})
    || (target == "community_submitted" && to == CommunitySubmitted && from == CommunityOpen)
    || (target == "closed" && to == Closed
        && from in {ReportedEmic, EmicProcessing, CommunityOpen, CommunitySubmitted})
    || (target == "dismissed" && to == Dismissed && from in {PendingReview, CommunityOpen})
  }

  lemma {:induction false} WhereTransitionsLead(c: Case, target: string, public: bool, x: Context)
    ensures var r := Transitioned(c, target, public, x);
      && (r.Ok? <==> exists to :: Leads(c.status, target, to))
      && (r.Ok? ==> Leads(c.status, target, r.value.status))
      && (r.Err? ==> r.error == InvalidTransition)
  {
    TextsNameStatuses(target);
    if to :| Leads(c.status, target, to) {
      assert target == StatusText(to) && CanTransition(c.status, to);
    }
    if Transitioned(c, target, public, x).Ok? {
      assert Leads(c.status, target, ParseStatus(target).value);
    }
  }

  /** Where every call leads and exactly when it fails, with which error. */
  lemma {:induction false} WhereCallsLead(c: Case, cmd: Command, x: Context)
    ensures var r := Execute(c, cmd, x);
      match cmd
      case SetStatus(target, _) =>
        && (r.Ok? <==> exists to :: Leads(c.status, target, to))
        && (r.Ok? ==> Leads(c.status, target, r.value.status))
        && (r.Err? ==> r.error == InvalidTransition)
      case Review(decision, _) =>
        && (r == Err(AlreadyReviewed) <==> c.status != PendingReview)
        && (r == Err(UnknownDecision) <==>
             c.status == PendingReview && decision !in {"emic", "community", "dismiss"})
        && (r.Err? ==> r.error == AlreadyReviewed || r.error == UnknownDecision)
        && (r.Ok? && decision == "emic" ==> r.value.status == ReportedEmic)
        && (r.Ok? && decision == "community" ==> r.value.status == CommunityOpen)
        && (r.Ok? && decision == "dismiss" ==> r.value.status == Dismissed)
      case ReportToEmic(_) =>
        && (r.Ok? <==> c.status in {PendingReview, CommunityOpen, CommunitySubmitted})
        && (r.Ok? ==> r.value.status == ReportedEmic)
        && (r.Err? ==> r.error == InvalidTransition)
      case UpdateEmic(edit) =>
        && (r == Err(NotReportedToEmic) <==> c.status !in {ReportedEmic, EmicProcessing})
        && (r == Err(InvalidTransition) <==>
             && c.status in {ReportedEmic, EmicProcessing} && edit.target.Some? && edit.target.value !in {"", "closed"}
             && !(c.status == ReportedEmic && edit.target.value == "emic_processing"))
        && (r.Err? ==> r.error == NotReportedToEmic || r.error == InvalidTransition)
        && (r.Ok? && (edit.target == None || edit.target == Some("")) ==> r.value.status == c.status)
        && (r.Ok? && edit.target == Some("emic_processing") ==> r.value.status == EmicProcessing)
        && (r.Ok? && edit.target == Some("closed") ==> r.value.status == Closed)
      case CommunitySubmit =>
        && (r.Ok? <==> c.status == CommunityOpen)
        && (r.Ok? ==> r.value.status == CommunitySubmitted)
        && (r.Err? ==> r.error == NotOpenToCommunity)
      case CommunityConfirm(approve) =>
        && (r.Ok? <==> c.status == CommunitySubmitted)
        && (r.Ok? ==> r.value.status == if approve then Closed else CommunityOpen)
        && (r.Err? ==> r.error == NothingToConfirm)
      case AddUpdate(_) => r.Ok? && r.value.status == c.status
  {
    match cmd
    case SetStatus(target, public) => WhereTransitionsLead(c, target, public, x);
    case UpdateEmic(edit) =>
      EditsKeepStatus(c, edit, x);
      if edit.target.Some? {
        TextsNameStatuses(edit.target.value);
      }
    case _ =>
  }

  lemma {:induction false} EditsKeepStatus(c: Case, edit: EmicEdit, x: Context)
    ensures EmicEdited(c, edit, x).status == c.status && EmicEdited(c, edit, x).cluster == c.cluster
  {
    assert FieldsEdited(c, edit, x).status == c.status;
  }

  // ---- what is logged ----

  function Entry(kind: EventKind, public: bool, at: int): CaseEvent {
    CaseEvent(kind, None, None, public, at)
  }

  /** The event that a change of status adds to the log. */
  function Move(c: Case, d: Case, public: bool, x: Context): CaseEvent {
    CaseEvent(StatusChanged, Some(c.status), Some(d.status), public, if x.at.Some? then x.at.value else x.now)
  }

  /** What is logged of the answer of EMIC, always at the time of the clock and never in public. */
  function Answer(reply: EmicReply, x: Context): seq<CaseEvent> {
    match reply
    case ManualMode => []
    case Accepted(_, _) => [Entry(EmicSubmitted, false, x.now)]
    case Unavailable => [Entry(EmicSubmitFailed, false, x.now)]
  }

  /** What is logged of an EMIC update: the fields if one of them changed, in public if the text or the unit did
      and is not empty; the note; the change of status. */
  function UpdateLog(c: Case, d: Case, edit: EmicEdit, x: Context): seq<CaseEvent> {
    var at := if x.at.Some? then x.at.value else x.now;
    var public := (d.emicStatus != c.emicStatus && d.emicStatus.Some?)
      || (d.assignedUnit != c.assignedUnit && d.assignedUnit.Some?);
    (if d.emicCaseNo != c.emicCaseNo || d.emicStatus != c.emicStatus || d.assignedUnit != c.assignedUnit
     then [Entry(EmicUpdated, public, at)] else [])
    + (if edit.note then [Entry(PublicUpdate, true, at)] else [])
    + (if edit.target == None || edit.target == Some("") then [] else [Move(c, d, true, x)])
  }

  function CallLog(c: Case, d: Case, cmd: Command, x: Context): seq<CaseEvent> {
    match cmd
    case SetStatus(_, public) => [Move(c, d, public, x)]
    case Review(decision, reply) => [Move(c, d, true, x)] + if decision == "emic" then Answer(reply, x) else []
    case ReportToEmic(reply) => [Move(c, d, true, x)] + Answer(reply, x)
    case UpdateEmic(edit) => UpdateLog(c, d, edit, x)
    case CommunitySubmit => [Move(c, d, true, x)]
    case CommunityConfirm(_) => [Move(c, d, true, x)]
    case AddUpdate(public) =>
      [Entry(if public then PublicUpdate else InternalNote, public, if x.at.Some? then x.at.value else x.now)]
  }

  lemma {:induction false} EmicAnswerLogged(c: Case, reply: EmicReply, x: Context)
    requires ReportedToEmic(c, reply, x).Ok?
    ensures var d := ReportedToEmic(c, reply, x).value;
      d.events == c.events + ([Move(c, d, true, x)] + Answer(reply, x))
  {
  }

  lemma {:induction false} UpdateLogged(c: Case, edit: EmicEdit, x: Context)
    requires EmicRecorded(c, edit, x).Ok?
    ensures var d := EmicRecorded(c, edit, x).value;
      d.events == c.events + UpdateLog(c, d, edit, x)
  {
    var f, e, d := FieldsEdited(c, edit, x), EmicEdited(c, edit, x), EmicRecorded(c, edit, x).value;
    assert d.emicCaseNo == f.emicCaseNo && d.emicStatus == f.emicStatus && d.assignedUnit == f.assignedUnit;
    EditsKeepStatus(c, edit, x);
  }

  /** The log grows by exactly these events, whatever the call. */
  lemma {:induction false} WhatCallsLog(c: Case, cmd: Command, x: Context)
    requires Execute(c, cmd, x).Ok?
    ensures var d := Execute(c, cmd, x).value;
      d.events == c.events + CallLog(c, d, cmd, x)
  {
    match cmd
    case Review(decision, reply) =>
      if decision == "emic" {
        EmicAnswerLogged(c, reply, x);
      } else {
        var d := Execute(c, cmd, x).value;
        assert [Move(c, d, true, x)] + [] == [Move(c, d, true, x)];
      }
    case ReportToEmic(reply) => EmicAnswerLogged(c, reply, x);
    case UpdateEmic(edit) => UpdateLogged(c, edit, x);
    case _ =>
  }

  // ---- what is stored on the row ----

  ghost predicate SameEmicFields(c: Case, d: Case) {
    && d.emicCaseNo == c.emicCaseNo && d.emicStatus == c.emicStatus && d.assignedUnit == c.assignedUnit
    && d.emicChannel == c.emicChannel && d.emicSyncedAt == c.emicSyncedAt
  }

  /** An answer replaces what is known unless it is empty. */
  ghost predicate Answered(known: Option<string>, received: Option<string>, after: Option<string>) {
    after == if received == None || received == Some("") then known else received
  }

  /** The row says through which channel the case was reported and what came back. */
  ghost predicate AnswerStored(c: Case, d: Case, reply: EmicReply, x: Context) {
    && d.assignedUnit == c.assignedUnit
    && match reply
       case Accepted(no, text) =>
         && d.emicChannel == Some(ApiChannel) && d.emicSyncedAt == Some(x.now)
         && Answered(c.emicCaseNo, no, d.emicCaseNo) && Answered(c.emicStatus, text, d.emicStatus)
       case _ =>
         && d.emicChannel == Some(ManualChannel) && d.emicSyncedAt == c.emicSyncedAt
         && d.emicCaseNo == c.emicCaseNo && d.emicStatus == c.emicStatus
  }

  /** A submitted text is stored, an empty one clears the field, none leaves it alone. */
  ghost predicate FieldStored(known: Option<string>, submitted: Option<string>, after: Option<string>) {
    after == if submitted == None || submitted == known then known
             else if submitted == Some("") then None
             else submitted
  }

  ghost predicate UpdateStored(c: Case, d: Case, edit: EmicEdit, x: Context) {
    && FieldStored(c.emicCaseNo, edit.caseNo, d.emicCaseNo)
    && FieldStored(c.emicStatus, edit.status, d.emicStatus)
    && FieldStored(c.assignedUnit, edit.unit, d.assignedUnit)
    && d.emicChannel == c.emicChannel
    && d.emicSyncedAt
       == if d.emicCaseNo == c.emicCaseNo && d.emicStatus == c.emicStatus && d.assignedUnit == c.assignedUnit
          then c.emicSyncedAt
          else Some(if x.at.Some? then x.at.value else x.now)
  }

  /** The first change of status names the officer and the time; no later call does. */
  ghost predicate ReviewStored(c: Case, d: Case, x: Context) {
    if c.status == PendingReview && d.status != PendingReview
    then d.reviewedAt == Some(if x.at.Some? then x.at.value else x.now) && d.reviewedBy == x.actor
    else d.reviewedAt == c.reviewedAt && d.reviewedBy == c.reviewedBy
  }

  lemma {:induction false} UpdateIsStored(c: Case, edit: EmicEdit, x: Context)
    requires EmicRecorded(c, edit, x).Ok?
    ensures var d := EmicRecorded(c, edit, x).value;
      UpdateStored(c, d, edit, x) && ReviewStored(c, d, x)
  {
    var f, d := FieldsEdited(c, edit, x), EmicRecorded(c, edit, x).value;
    assert d.emicCaseNo == f.emicCaseNo && d.emicStatus == f.emicStatus && d.assignedUnit == f.assignedUnit;
    assert d.emicChannel == f.emicChannel && d.emicSyncedAt == f.emicSyncedAt;
    EditsKeepStatus(c, edit, x);
  }

  /** What every call stores on the row besides status, track and stamps. */
  lemma {:induction false} WhatCallsStore(c: Case, cmd: Command, x: Context)
    requires Execute(c, cmd, x).Ok?
    ensures var d := Execute(c, cmd, x).value;
      && ReviewStored(c, d, x)
      && match cmd
         case Review(decision, reply) =>
           if decision == "emic" then AnswerStored(c, d, reply, x) else SameEmicFields(c, d)
         case ReportToEmic(reply) => AnswerStored(c, d, reply, x)
         case UpdateEmic(edit) => UpdateStored(c, d, edit, x)
         case _ => SameEmicFields(c, d)
  {
    if cmd.UpdateEmic? {
      UpdateIsStored(c, cmd.edit, x);
    }
  }
}

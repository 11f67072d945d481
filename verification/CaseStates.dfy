/** The incident case state machine (apps/api/app/domain/case_states.py). */
module CaseStates {
  import opened Wrappers

  datatype CaseStatus =
    | PendingReview
    | ReportedEmic
    | EmicProcessing
    | CommunityOpen
    | CommunitySubmitted
    | Closed
    | Dismissed

  datatype Track = Emic | Community

  /** The status a stored or submitted text names, if any. */
  function ParseStatus(text: string): Option<CaseStatus> {
    match text
    case "pending_review" => Some(PendingReview)
    case "reported_emic" => Some(ReportedEmic)
    case "emic_processing" => Some(EmicProcessing)
    case "community_open" => Some(CommunityOpen)
    case "community_submitted" => Some(CommunitySubmitted)
    case "closed" => Some(Closed)
    case "dismissed" => Some(Dismissed)
    case _ => None
  }

  /** The text that is stored for a status. */
  function StatusText(s: CaseStatus): string {
    match s
    case PendingReview => "pending_review"
    case ReportedEmic => "reported_emic"
    case EmicProcessing => "emic_processing"
    case CommunityOpen => "community_open"
    case CommunitySubmitted => "community_submitted"
    case Closed => "closed"
    case Dismissed => "dismissed"
  }

  /** A text names a status exactly when it is what is stored for it. */
  lemma {:induction false} TextsNameStatuses(text: string)
    ensures forall s :: ParseStatus(text) == Some(s) <==> text == StatusText(s)
  {
    forall s ensures ParseStatus(text) == Some(s) <==> text == StatusText(s) {
      DistinctTexts(text);
    }
  }

  lemma {:induction false} DistinctTexts(text: string)
    ensures ParseStatus(text).Some? ==> text == StatusText(ParseStatus(text).value)
    ensures forall s :: ParseStatus(StatusText(s)) == Some(s)
  {
    forall s ensures ParseStatus(StatusText(s)) == Some(s) {
      match s
      case PendingReview =>
      case ReportedEmic =>
      case EmicProcessing =>
      case CommunityOpen =>
      case CommunitySubmitted =>
      case Closed =>
      case Dismissed =>
    }
  }

  function Transitions(s: CaseStatus): set<CaseStatus> {
    match s
    case PendingReview => {ReportedEmic, CommunityOpen, Dismissed}
    case ReportedEmic => {EmicProcessing, Closed}
    case EmicProcessing => {Closed}
    case CommunityOpen => {CommunitySubmitted, ReportedEmic, Closed, Dismissed}
    case CommunitySubmitted => {Closed, CommunityOpen, ReportedEmic}
    case Closed => {}
    case Dismissed => {}
  }

  predicate CanTransition(from: CaseStatus, to: CaseStatus) {
    to in Transitions(from)
  }

  predicate Finished(s: CaseStatus) {
    s == Closed || s == Dismissed
  }

  function TrackOf(s: CaseStatus): Option<Track> {
    match s
    case ReportedEmic | EmicProcessing => Some(Emic)
    case CommunityOpen | CommunitySubmitted => Some(Community)
    case _ => None
  }

  function ProgressPath(t: Option<Track>): seq<CaseStatus> {
    match t
    case None => [PendingReview, Closed]
    case Some(Emic) => [PendingReview, ReportedEmic, EmicProcessing, Closed]
    case Some(Community) => [PendingReview, CommunityOpen, CommunitySubmitted, Closed]
  }

  // ---- paths through the state machine ----

  /** A history: every status a case has had, oldest first. */
  ghost predicate LegalPath(h: seq<CaseStatus>) {
    h != [] && h[0] == PendingReview
    && forall i :: 0 < i < |h| ==> CanTransition(h[i - 1], h[i])
  }

  /** How often an officer sent a community submission back. */
  function Rejections(h: seq<CaseStatus>): nat {
    if |h| < 2 then 0
    else
      Rejections(h[..|h| - 1])
      + (if h[|h| - 2] == CommunitySubmitted && h[|h| - 1] == CommunityOpen then 1 else 0)
  }

  /** The track of the most recent status that belongs to one. */
  function LastTrack(h: seq<CaseStatus>): Option<Track> {
    if h == [] then None
    else if TrackOf(h[|h| - 1]).Some? then TrackOf(h[|h| - 1])
    else LastTrack(h[..|h| - 1])
  }

  /** The furthest a case can have come without a rejection when it is in this status. */
  function Depth(s: CaseStatus): nat {
    match s
    case PendingReview => 0
    case CommunityOpen => 1
    case CommunitySubmitted => 2
    case Dismissed => 2
    case ReportedEmic => 3
    case EmicProcessing => 4
    case Closed => 5
  }

  lemma {:induction false} PathPrefix(h: seq<CaseStatus>)
    requires LegalPath(h) && |h| > 1
    ensures LegalPath(h[..|h| - 1]) && h[..|h| - 1][|h| - 2] == h[|h| - 2]
    ensures CanTransition(h[|h| - 2], h[|h| - 1])
  {
    var g := h[..|h| - 1];
    forall i | 0 < i < |g| ensures CanTransition(g[i - 1], g[i]) {
      assert g[i - 1] == h[i - 1] && g[i] == h[i];
    }
  }

  /** A case changes status at most five times, plus twice for each rejected community submission. */
  lemma {:induction false} ChangesBounded(h: seq<CaseStatus>)
    requires LegalPath(h)
    ensures |h| - 1 <= Depth(h[|h| - 1]) + 2 * Rejections(h)
    ensures |h| - 1 <= 5 + 2 * Rejections(h)
  {
    if |h| > 1 {
      PathPrefix(h);
      ChangesBounded(h[..|h| - 1]);
    }
  }

  /** Nothing follows a finished status, and nothing returns to the review queue. */
  lemma {:induction false} FinishedIsLast(h: seq<CaseStatus>, i: nat)
    requires LegalPath(h) && i < |h|
    ensures Finished(h[i]) ==> i == |h| - 1
    ensures h[i] == PendingReview ==> i == 0
  {
    if i + 1 < |h| {
      assert CanTransition(h[i], h[i + 1]);
    }
    if i > 0 {
      assert CanTransition(h[i - 1], h[i]);
    }
  }

  /** Once a case has been reported to EMIC it stays on that track until it is closed. */
  lemma {:induction false} EmicIsNeverLeft(h: seq<CaseStatus>, i: nat, j: nat)
    requires LegalPath(h) && i <= j < |h|
    requires TrackOf(h[i]) == Some(Emic)
    ensures TrackOf(h[j]) == Some(Emic) || h[j] == Closed
    decreases j
  {
    if i < j {
      EmicIsNeverLeft(h, i, j - 1);
      assert CanTransition(h[j - 1], h[j]);
    }
  }

  /** What the track field of a case with this history must say. */
  lemma {:induction false} TrackFacts(h: seq<CaseStatus>)
    requires LegalPath(h)
    ensures h[|h| - 1] == Closed ==> LastTrack(h).Some?
    ensures h[|h| - 1] == PendingReview ==> LastTrack(h) == None
    ensures h[|h| - 1] == Dismissed ==> LastTrack(h) != Some(Emic)
    ensures TrackOf(h[|h| - 1]).Some? ==> LastTrack(h) == TrackOf(h[|h| - 1])
    ensures LastTrack(h) == Some(Emic) <==> ReportedEmic in h
  {
    var n := |h| - 1;
    if n > 0 {
      PathPrefix(h);
      TrackFacts(h[..n]);
      assert h == h[..n] + [h[n]];
    }
  }
}

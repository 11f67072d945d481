/** The progress bar of a case, derived from its event log (apps/api/app/services/presenters.py). */
module Progress {
  import opened Wrappers
  import opened CaseStates
  import opened Cases

  datatype ProgressStep = ProgressStep(key: CaseStatus, reached: bool, current: bool, at: Option<int>)

  function PathFor(status: CaseStatus, track: Option<Track>): seq<CaseStatus> {
    if status == Dismissed then [PendingReview, Dismissed]
    else ProgressPath(if track.Some? then track else TrackOf(status))
  }

  function PathOf(c: Case): seq<CaseStatus> {
    PathFor(c.status, c.track)
  }

  /** The time of the first listed event that moved the case to this status. */
  function FirstReached(events: seq<CaseEvent>, s: CaseStatus): Option<int> {
    if events == [] then None
    else
      var n := |events| - 1;
      var earlier := FirstReached(events[..n], s);
      if earlier.Some? then earlier
      else if events[n].to == Some(s) then Some(events[n].at)
      else None
  }

  function IndexOf(path: seq<CaseStatus>, s: CaseStatus): (i: Option<nat>)
    ensures i.None? <==> s !in path
    ensures i.Some? ==> i.value < |path| && path[i.value] == s && s !in path[..i.value]
  {
    if path == [] then None
    else if path[0] == s then Some(0)
    else
      var rest := IndexOf(path[1..], s);
      assert path == [path[0]] + path[1..];
      if rest.None? then None
      else
        assert path[..rest.value + 1] == [path[0]] + path[1..][..rest.value];
        Some(rest.value + 1)
  }

  function StepAt(c: Case, events: seq<CaseEvent>, i: nat): ProgressStep
    requires i < |PathOf(c)|
  {
    var key := PathOf(c)[i];
    var now := IndexOf(PathOf(c), c.status);
    var at := FirstReached(events, key);
    ProgressStep(key, at.Some? || (now.Some? && i <= now.value), now == Some(i), at)
  }

  function ProgressOf(c: Case, events: seq<CaseEvent>): seq<ProgressStep> {
    seq(|PathOf(c)|, i requires 0 <= i < |PathOf(c)| => StepAt(c, events, i))
  }

  /** When each status was first reached, going through the events in the order given. */
  method ReachedAt(events: seq<CaseEvent>) returns (reachedAt: map<CaseStatus, int>)
    ensures forall s :: s in reachedAt <==> FirstReached(events, s).Some?
    ensures forall s :: s in reachedAt ==> FirstReached(events, s) == Some(reachedAt[s])
  {
    reachedAt := map[];
    for i := 0 to |events|
      invariant forall s :: s in reachedAt <==> FirstReached(events[..i], s).Some?
      invariant forall s :: s in reachedAt ==> FirstReached(events[..i], s) == Some(reachedAt[s])
    {
      assert events[..i + 1][..i] == events[..i];
      var e := events[i];
      if e.to.Some? && e.to.value !in reachedAt {
        reachedAt := reachedAt[e.to.value := e.at];
      }
    }
    assert events[..|events|] == events;
  }

  method Progress(c: Case, events: seq<CaseEvent>) returns (steps: seq<ProgressStep>)
    ensures steps == ProgressOf(c, events)
    ensures forall i :: 0 <= i < |steps| ==> IsFirstTime(events, steps[i].key, steps[i].at)
  {
    forall s ensures IsFirstTime(events, s, FirstReached(events, s)) {
      FirstReachedMeans(events, s);
    }
    var reachedAt := ReachedAt(events);
    var path := PathOf(c);
    var now := IndexOf(path, c.status);
    steps := [];
    for i := 0 to |path|
      invariant |steps| == i && forall j :: 0 <= j < i ==> steps[j] == StepAt(c, events, j)
    {
      var key := path[i];
      var reached := key in reachedAt || (now.Some? && i <= now.value);
      var at := if key in reachedAt then Some(reachedAt[key]) else None;
      assert at == FirstReached(events, key);
      var step := ProgressStep(key, reached, now == Some(i), at);
      assert step == StepAt(c, events, i);
      steps := steps + [step];
    }
  }

  /** `at` is the time of the first listed event that moved the case to this status, if any did. */
  ghost predicate IsFirstTime(events: seq<CaseEvent>, s: CaseStatus, at: Option<int>) {
    if at.None? then forall e <- events :: e.to != Some(s)
    else
      exists i: nat :: i < |events| && events[i].to == Some(s) && events[i].at == at.value
                       && forall j :: 0 <= j < i ==> events[j].to != Some(s)
  }

  lemma {:induction false} FirstReachedMeans(events: seq<CaseEvent>, s: CaseStatus)
    ensures FirstReached(events, s).Some? <==> exists e <- events :: e.to == Some(s)
    ensures IsFirstTime(events, s, FirstReached(events, s))
  {
    if events != [] {
      var n := |events| - 1;
      FirstReachedMeans(events[..n], s);
      assert events == events[..n] + [events[n]];
      assert forall i :: 0 <= i < n ==> events[..n][i] == events[i] && events[i] in events[..n];
    }
  }

  /** The path of a track is a legal one to the closing, through every status of the track and no status twice. */
  lemma {:induction false} PathIsWalkable(t: Track)
    ensures var path := ProgressPath(Some(t));
      && LegalPath(path) && path[|path| - 1] == Closed
      && (forall s :: TrackOf(s) == Some(t) ==> s in path)
      && (forall s <- path :: TrackOf(s) == Some(t) || s == PendingReview || s == Closed)
      && (forall i, j :: 0 <= i < j < |path| ==> path[i] != path[j])
  {
    var path := ProgressPath(Some(t));
    assert path[1] in path && path[2] in path;
  }

  /** EMIC processing is followed by nothing but closing. */
  lemma {:induction false} ProcessingIsLate(h: seq<CaseStatus>, i: nat, j: nat)
    requires LegalPath(h) && i <= j < |h| && h[i] == EmicProcessing
    ensures h[j] == EmicProcessing || h[j] == Closed
    decreases j
  {
    if i < j {
      ProcessingIsLate(h, i, j - 1);
      assert CanTransition(h[j - 1], h[j]);
    }
  }

  /** The current status is on the path; one further along has been reached only
      when a community submission was sent back. */
  lemma {:induction false} NothingAhead(h: seq<CaseStatus>, cur: nat, i: nat)
    requires LegalPath(h)
    requires var path := PathFor(Current(h), LastTrack(h));
      cur < i < |path| && path[cur] == Current(h) && path[i] in h
    ensures Current(h) == CommunityOpen && i == cur + 1
  {
    var path := PathFor(Current(h), LastTrack(h));
    TrackFacts(h);
    var n :| 0 <= n < |h| && h[n] == path[i];
    if Finished(path[i]) {
      FinishedIsLast(h, n);
    } else if path[i] == EmicProcessing {
      ProcessingIsLate(h, n, |h| - 1);
    }
  }

  /** A listed step beyond the current one has been reached only next to it. */
  lemma {:induction false} ReachedAhead(c: Case, events: seq<CaseEvent>, required: int, cur: nat, j: nat)
    requires CaseOk(c, required)
    requires forall e <- events :: e in c.events
    requires cur < j < |PathOf(c)| && PathOf(c)[cur] == c.status
    requires FirstReached(events, PathOf(c)[j]).Some?
    ensures j == cur + 1
  {
    var s := PathOf(c)[j];
    FirstReachedMeans(events, s);
    HistoryEvents(c.events, s);
    UnbrokenIsLegal(c.events);
    NothingAhead(History(c.events), cur, j);
  }

  /** Exactly the step at `cur` is current, it is the status of the case, and the reached steps are a prefix
      that contains it. */
  ghost predicate ShowsPrefix(steps: seq<ProgressStep>, status: CaseStatus, cur: nat) {
    && cur < |steps| && steps[cur].key == status
    && (forall i :: 0 <= i < |steps| ==> (steps[i].current <==> i == cur))
    && (forall i :: 0 <= i <= cur ==> steps[i].reached)
    && (forall i, j :: 0 <= i < j < |steps| && steps[j].reached ==> steps[i].reached)
  }

  lemma {:induction false} PrefixAround(c: Case, events: seq<CaseEvent>, cur: nat)
    requires IndexOf(PathOf(c), c.status) == Some(cur)
    requires forall j :: cur < j < |PathOf(c)| && FirstReached(events, PathOf(c)[j]).Some? ==> j == cur + 1
    ensures ShowsPrefix(ProgressOf(c, events), c.status, cur)
  {
  }

  /** For every reachable case and any selection of its events, such as the public ones, in any order. */
  lemma {:induction false} ProgressIsAPrefix(c: Case, events: seq<CaseEvent>, required: int) returns (cur: nat)
    requires CaseOk(c, required)
    requires forall e <- events :: e in c.events
    ensures ShowsPrefix(ProgressOf(c, events), c.status, cur)
  {
    CaseOnPath(c, required);
    cur := IndexOf(PathOf(c), c.status).value;
    forall j | cur < j < |PathOf(c)| && FirstReached(events, PathOf(c)[j]).Some? ensures j == cur + 1 {
      ReachedAhead(c, events, required, cur, j);
    }
    PrefixAround(c, events, cur);
  }

  lemma {:induction false} CaseOnPath(c: Case, required: int)
    requires CaseOk(c, required)
    ensures c.status in PathOf(c)
  {
    CaseFacts(c, required);
    StatusOnPath(c.status, c.track);
  }

  lemma {:induction false} StatusOnPath(status: CaseStatus, track: Option<Track>)
    requires status == Closed ==> track.Some?
    requires TrackOf(status).Some? ==> track == TrackOf(status)
    ensures status in PathFor(status, track)
  {
    var path := PathFor(status, track);
    assert status == path[0] || status == path[1] || status == path[2] || status == path[3];
  }
}

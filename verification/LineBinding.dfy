/**
 Which LINE group is told about which platform (apps/api/app/services/line_service.py).

 The binding is stored twice: in the configuration of the platform and in the row of the group.
 */
module LineBinding {
  import opened Wrappers

  const GROUP_ID := "line_group_id"
  const BOUND_AT := "line_bound_at"
  const BIND_CODE := "line_bind_code"

  type Config = map<string, string>

  datatype GroupStatus = Joined | Bound | Left

  datatype GroupRow = GroupRow(platform: Option<nat>, status: GroupStatus)

  /** The configurations of the platforms, by position, and the rows of the groups, by group id. */
  datatype State = State(configs: seq<Config>, rows: map<string, GroupRow>)

  // ---- reading ----

  function GroupOf(s: State, p: nat): Option<string>
    requires p < |s.configs|
  {
    if GROUP_ID in s.configs[p] then Some(s.configs[p][GROUP_ID]) else None
  }

  function PlatformOf(s: State, g: string): Option<nat> {
    if g in s.rows then s.rows[g].platform else None
  }

  /** A platform is configured for a group exactly when the row of the group points back at it,
      and a row is marked bound exactly when it points somewhere. */
  ghost predicate Linked(s: State) {
    && (forall p: nat, g: string :: p < |s.configs| ==> (GroupOf(s, p) == Some(g) <==> PlatformOf(s, g) == Some(p)))
    && (forall g :: g in s.rows ==> s.rows[g].platform.Some? ==> s.rows[g].platform.value < |s.configs|)
    && (forall g :: g in s.rows ==> (s.rows[g].status == Bound <==> s.rows[g].platform.Some?))
    && (forall p: nat :: p < |s.configs| ==> GroupOf(s, p) != Some(""))
  }

  /** No group serves two platforms and no platform has two groups. */
  lemma {:induction false} BindingIsOneToOne(s: State)
    requires Linked(s)
    ensures forall p: nat, q: nat ::
      (p < |s.configs| && q < |s.configs| && GroupOf(s, p).Some? && GroupOf(s, p) == GroupOf(s, q)) ==> p == q
    ensures forall g, h :: PlatformOf(s, g).Some? && PlatformOf(s, g) == PlatformOf(s, h) ==> g == h
  {
    forall p: nat, q: nat | p < |s.configs| && q < |s.configs| && GroupOf(s, p).Some? && GroupOf(s, p) == GroupOf(s, q)
      ensures p == q
    {
      var g := GroupOf(s, p).value;
      assert PlatformOf(s, g) == Some(p) && PlatformOf(s, g) == Some(q);
    }
    forall g, h | PlatformOf(s, g).Some? && PlatformOf(s, g) == PlatformOf(s, h) ensures g == h {
      var p := PlatformOf(s, g).value;
      assert GroupOf(s, p) == Some(g) && GroupOf(s, p) == Some(h);
    }
  }

  // ---- what each call does ----

  /** `[CR]` and 32 hexadecimal digits in lower case. */
  predicate IsGroupId(g: string) {
    |g| == 33 && (g[0] == 'C' || g[0] == 'R')
    && forall i :: 1 <= i < |g| ==> '0' <= g[i] <= '9' || 'a' <= g[i] <= 'f'
  }

  function WithBinding(c: Config, g: string, at: string): Config {
    c[GROUP_ID := g][BOUND_AT := at]
  }

  function WithoutBinding(c: Config): Config {
    c - {GROUP_ID, BOUND_AT}
  }

  /** The previous platform of a group forgets it, if it was still configured for it. */
  function Released(s: State, g: string, p: nat): State {
    var q := PlatformOf(s, g);
    if q.Some? && q.value != p && q.value < |s.configs| && GroupOf(s, q.value) == Some(g)
    then s.(configs := s.configs[q.value := WithoutBinding(s.configs[q.value])])
    else s
  }

  /** The other groups of a platform go back to being merely joined. */
  function Detached(rows: map<string, GroupRow>, p: nat, g: string): map<string, GroupRow> {
    map h | h in rows :: if h != g && rows[h].platform == Some(p) then GroupRow(None, Joined) else rows[h]
  }

  /** `bind_group` for a well-formed group id. */
  function BoundTo(s: State, p: nat, g: string, at: string): State
    requires p < |s.configs|
  {
    var t := Released(s, g, p);
    State(t.configs[p := WithBinding(t.configs[p], g, at)],
          Detached(t.rows, p, g)[g := GroupRow(Some(p), Bound)])
  }

  function Unbound(s: State, p: nat): State
    requires p < |s.configs|
  {
    var g := GroupOf(s, p);
    State(s.configs[p := WithoutBinding(s.configs[p])],
          if g.Some? && g.value != "" && g.value in s.rows then s.rows[g.value := GroupRow(None, Joined)] else s.rows)
  }

  function JoinedGroup(s: State, g: string): State {
    if g !in s.rows then s.(rows := s.rows[g := GroupRow(None, Joined)])
    else if s.rows[g].status == Left then s.(rows := s.rows[g := s.rows[g].(status := Joined)])
    else s
  }

  function LeftGroup(s: State, g: string): State {
    if g !in s.rows then s
    else
      var q := s.rows[g].platform;
      var configs :=
        if q.Some? && q.value < |s.configs| && GroupOf(s, q.value) == Some(g)
        then s.configs[q.value := WithoutBinding(s.configs[q.value])]
        else s.configs;
      State(configs, s.rows[g := GroupRow(None, Left)])
  }

  /** The first platform that shows this binding code. */
  function WithCode(configs: seq<Config>, code: string): (p: Option<nat>)
    ensures p.Some? ==> p.value < |configs| && ShowsCode(configs[p.value], code)
    ensures p.Some? ==> forall q :: 0 <= q < p.value ==> !ShowsCode(configs[q], code)
    ensures p.None? ==> forall q :: 0 <= q < |configs| ==> !ShowsCode(configs[q], code)
  {
    if configs == [] then None
    else if BIND_CODE in configs[0] && configs[0][BIND_CODE] == code then Some(0)
    else
      var rest := WithCode(configs[1..], code);
      assert forall q :: 0 < q < |configs| ==> configs[q] == configs[1..][q - 1];
      if rest.Some? then Some(rest.value + 1) else None
  }

  ghost predicate ShowsCode(c: Config, code: string) {
    BIND_CODE in c && c[BIND_CODE] == code
  }

  /** A verified webhook event; the code of a text message is `None` unless the text is a binding command,
      and `at` is when the event is handled. */
  datatype Event =
    | Join(source: Option<string>)
    | Leave(source: Option<string>)
    | Text(source: Option<string>, code: Option<string>, at: string)
    | Other(source: Option<string>)

  /** The state after an event, and whether the event counts as handled. */
  function Handled(s: State, e: Event): (State, bool) {
    if e.source.None? || e.source.value == "" then (s, false)
    else
      var g := e.source.value;
      match e
      case Join(_) => (JoinedGroup(s, g), true)
      case Leave(_) => (LeftGroup(s, g), true)
      case Text(_, code, at) =>
        var p := if code.Some? then WithCode(s.configs, code.value) else None;
        if p.None? || !IsGroupId(g) then (s, false) else (BoundTo(s, p.value, g, at), true)
      case Other(_) => (s, false)
  }

  function HandledAll(s: State, events: seq<Event>): (State, nat) {
    if events == [] then (s, 0)
    else
      var n := |events| - 1;
      var (t, handled) := HandledAll(s, events[..n]);
      var (u, counted) := Handled(t, events[n]);
      (u, handled + if counted then 1 else 0)
  }

  // ---- what that comes to, side by side ----

  /** Only platform `p` changes, if any; it loses the two keys of the binding. */
  ghost predicate Forgets(s: State, p: Option<nat>, t: State) {
    && |t.configs| == |s.configs|
    && forall q: nat :: q < |s.configs| ==>
         t.configs[q] == if p == Some(q) then s.configs[q] - {GROUP_ID, BOUND_AT} else s.configs[q]
  }

  /** Platform `p` has group `g` since `at`, which points back; the platform that had the group before forgets it, and
      the groups that pointed to `p` before are merely joined. Nothing else changes. */
  ghost predicate BindsTo(s: State, p: nat, g: string, at: string, t: State)
    requires p < |s.configs|
  {
    var before := PlatformOf(s, g);
    && |t.configs| == |s.configs|
    && t.configs[p] == s.configs[p][GROUP_ID := g][BOUND_AT := at]
    && (forall q: nat :: q < |s.configs| && q != p ==>
         t.configs[q] == if before == Some(q) && GroupOf(s, q) == Some(g)
                         then s.configs[q] - {GROUP_ID, BOUND_AT} else s.configs[q])
    && t.rows.Keys == s.rows.Keys + {g} && t.rows[g] == GroupRow(Some(p), Bound)
    && forall h :: h in s.rows && h != g ==>
         t.rows[h] == if s.rows[h].platform == Some(p) then GroupRow(None, Joined) else s.rows[h]
  }

  /** Platform `p` has no group and no time of binding; the row of the group it had, if there is one, is merely joined
      and points nowhere. Nothing else changes. */
  ghost predicate Unbinds(s: State, p: nat, t: State)
    requires p < |s.configs|
  {
    && Forgets(s, Some(p), t) && GroupOf(t, p) == None && BOUND_AT !in t.configs[p]
    && t.rows.Keys == s.rows.Keys
    && forall h :: h in s.rows ==>
         t.rows[h] == if GroupOf(s, p) == Some(h) && h != "" then GroupRow(None, Joined) else s.rows[h]
  }

  /** The group has a row, which is not marked as left. Nothing else changes. */
  ghost predicate Joins(s: State, g: string, t: State) {
    && t.configs == s.configs
    && t.rows.Keys == s.rows.Keys + {g} && t.rows[g].status != Left
    && t.rows[g].platform == (if g in s.rows then s.rows[g].platform else None)
    && (g in s.rows && s.rows[g].status != Left ==> t.rows[g] == s.rows[g])
    && (g !in s.rows || s.rows[g].status == Left ==> t.rows[g].status == Joined)
    && forall h :: h in s.rows && h != g ==> t.rows[h] == s.rows[h]
  }

  /** A known group is marked as left and points nowhere, and the platform it pointed to forgets it. Nothing else
      changes. Where the two sides agreed, no platform is configured for the group any more. */
  ghost predicate Leaves(s: State, g: string, t: State) {
    && (Linked(s) ==> forall q: nat :: q < |t.configs| ==> GroupOf(t, q) != Some(g))
    && if g !in s.rows then t == s
       else
         && t.rows == s.rows[g := GroupRow(None, Left)]
         && exists q: Option<nat> :: Forgets(s, q, t)
              && (q.Some? <==> s.rows[g].platform.Some? && s.rows[g].platform.value < |s.configs|
                               && GroupOf(s, s.rows[g].platform.value) == Some(g))
              && (q.Some? ==> q == s.rows[g].platform)
  }

  /** What one event does, and whether it counts as handled. */
  ghost predicate EventDone(s: State, e: Event, t: State, counted: bool) {
    if e.source == None || e.source == Some("") then t == s && !counted
    else
      var g := e.source.value;
      match e
      case Join(_) => counted && Joins(s, g, t)
      case Leave(_) => counted && Leaves(s, g, t)
      case Text(_, code, at) =>
        && (counted <==>
             code.Some? && IsGroupId(g) && exists p: nat :: p < |s.configs| && ShowsCode(s.configs[p], code.value))
        && (counted ==>
             exists p: nat :: p < |s.configs| && ShowsCode(s.configs[p], code.value) && BindsTo(s, p, g, at, t)
                              && forall q: nat :: q < p ==> !ShowsCode(s.configs[q], code.value))
        && (!counted ==> t == s)
      case Other(_) => t == s && !counted
  }

  /** The events were handled one after the other, and `n` of them count. */
  ghost predicate EventsDone(s: State, events: seq<Event>, t: State, n: nat) {
    if events == [] then t == s && n == 0
    else
      var before, e := events[..|events| - 1], events[|events| - 1];
      || (exists u :: EventDone(u, e, t, false) && EventsDone(s, before, u, n))
      || (n > 0 && exists u :: EventDone(u, e, t, true) && EventsDone(s, before, u, n - 1))
  }

  lemma {:induction false} HandledAllMeans(s: State, events: seq<Event>)
    ensures EventsDone(s, events, HandledAll(s, events).0, HandledAll(s, events).1)
  {
    if events != [] {
      var n := |events| - 1;
      HandledAllMeans(s, events[..n]);
      HandledMeans(HandledAll(s, events[..n]).0, events[n]);
    }
  }

  lemma {:induction false} BoundMeans(s: State, p: nat, g: string, at: string)
    requires p < |s.configs|
    ensures BindsTo(s, p, g, at, BoundTo(s, p, g, at))
  {
  }

  lemma {:induction false} UnboundMeans(s: State, p: nat)
    requires p < |s.configs|
    ensures Unbinds(s, p, Unbound(s, p))
  {
  }

  lemma {:induction false} LeftMeans(s: State, g: string)
    ensures Leaves(s, g, LeftGroup(s, g))
  {
    var t := LeftGroup(s, g);
    if Linked(s) {
      LeftLinked(s, g);
      forall q: nat | q < |t.configs| ensures GroupOf(t, q) != Some(g) {
        assert GroupOf(t, q) == Some(g) <==> PlatformOf(t, g) == Some(q);
      }
    }
    if g in s.rows {
      var q := s.rows[g].platform;
      var gone := if q.Some? && q.value < |s.configs| && GroupOf(s, q.value) == Some(g) then q else None;
      assert Forgets(s, gone, t);
    }
  }

  /** What each event comes to, for both sides of the binding. */
  lemma {:induction false} HandledMeans(s: State, e: Event)
    ensures EventDone(s, e, Handled(s, e).0, Handled(s, e).1)
  {
    if e.source.Some? && e.source.value != "" {
      var g := e.source.value;
      match e
      case Join(_) =>
      case Leave(_) => LeftMeans(s, g);
      case Text(_, code, at) =>
        var p := if code.Some? then WithCode(s.configs, code.value) else None;
        if p.Some? && IsGroupId(g) {
          BoundMeans(s, p.value, g, at);
        }
      case Other(_) =>
    }
  }

  // ---- the service, updating both sides in place ----

  class LineService {
    var configs: seq<Config>
    var rows: map<string, GroupRow>

    function Now(): State
      reads this
    {
      State(configs, rows)
    }

    constructor (configs: seq<Config>)
      requires forall c <- configs :: GROUP_ID !in c
      ensures this.configs == configs && rows == map[] && Linked(Now())
    {
      this.configs, rows := configs, map[];
    }

    /** `_set_config` for the two keys of the binding; `None` removes them. */
    method SetBinding(p: nat, binding: Option<(string, string)>)
      requires p < |configs|
      modifies this`configs
      ensures configs == old(configs)[p :=
        if binding.None? then WithoutBinding(old(configs)[p])
        else WithBinding(old(configs)[p], binding.value.0, binding.value.1)]
    {
      var c := configs[p];
      if binding.None? {
        c := c - {GROUP_ID};
        c := c - {BOUND_AT};
        assert c == WithoutBinding(configs[p]);
      } else {
        c := c[GROUP_ID := binding.value.0];
        c := c[BOUND_AT := binding.value.1];
      }
      configs := configs[p := c];
    }

    method BindGroup(p: nat, g: string, at: string) returns (ok: bool)
      requires p < |configs|
      modifies this
      ensures ok <==> IsGroupId(g)
      ensures Now() == if ok then BoundTo(old(Now()), p, g, at) else old(Now())
      ensures ok ==> BindsTo(old(Now()), p, g, at, Now())
      ensures ok ==> GroupOf(Now(), p) == Some(g) && PlatformOf(Now(), g) == Some(p)
      ensures old(Linked(Now())) ==> Linked(Now())
      ensures SameOthers(old(Now()), Now())
    {
      BoundMeans(Now(), p, g, at);
      StepOthers(Now(), Bind(p, g, at));
      if Linked(Now()) {
        StepLinked(Now(), Bind(p, g, at));
      }
      if !IsGroupId(g) {
        return false;
      }
      var platform := if g in rows then rows[g].platform else None;
      DetachOthers(p, g);
      if platform.Some? && platform.value != p {
        var q := platform.value;
        if q < |configs| && GROUP_ID in configs[q] && configs[q][GROUP_ID] == g {
          SetBinding(q, None);
        }
      }
      rows := rows[g := GroupRow(Some(p), Bound)];
      SetBinding(p, Some((g, at)));
      return true;
    }

    method DetachOthers(p: nat, g: string)
      modifies this`rows
      ensures rows == Detached(old(rows), p, g)
    {
      var before := rows;
      var others := set h | h in rows && h != g && rows[h].platform == Some(p);
      while others != {}
        invariant rows.Keys == before.Keys
        invariant forall h :: h in others ==> h in before && h != g && before[h].platform == Some(p)
        invariant forall h :: h in rows ==> rows[h] == (if h in others then before[h] else Detached(before, p, g)[h])
        decreases others
      {
        var h :| h in others;
        rows := rows[h := GroupRow(None, Joined)];
        others := others - {h};
      }
    }

    method Unbind(p: nat)
      requires p < |configs|
      modifies this
      ensures Now() == Unbound(old(Now()), p)
      ensures Unbinds(old(Now()), p, Now())
      ensures old(Linked(Now())) ==> Linked(Now())
      ensures SameOthers(old(Now()), Now())
    {
      UnboundMeans(Now(), p);
      StepOthers(Now(), Action.Unbind(p));
      if Linked(Now()) {
        StepLinked(Now(), Action.Unbind(p));
      }
      if GROUP_ID in configs[p] && configs[p][GROUP_ID] != "" {
        var g := configs[p][GROUP_ID];
        if g in rows {
          rows := rows[g := GroupRow(None, Joined)];
        }
      }
      SetBinding(p, None);
    }

    method HandleWebhook(events: seq<Event>) returns (handled: nat)
      modifies this
      ensures (Now(), handled) == HandledAll(old(Now()), events)
      ensures EventsDone(old(Now()), events, Now(), handled)
      ensures old(Linked(Now())) ==> Linked(Now())
      ensures SameOthers(old(Now()), Now())
    {
      HandledAllKeeps(Now(), events);
      HandledAllMeans(Now(), events);
      handled := 0;
      for i := 0 to |events|
        invariant (Now(), handled) == HandledAll(old(Now()), events[..i])
      {
        assert events[..i + 1][..i] == events[..i];
        var counted := HandleEvent(events[i]);
        if counted {
          handled := handled + 1;
        }
      }
      assert events[..|events|] == events;
    }

    method HandleEvent(e: Event) returns (counted: bool)
      modifies this
      ensures (Now(), counted) == Handled(old(Now()), e)
      ensures EventDone(old(Now()), e, Now(), counted)
    {
      HandledMeans(Now(), e);
      if e.source.None? || e.source.value == "" {
        return false;
      }
      var g := e.source.value;
      match e {
        case Join(_) =>
          if g !in rows {
            rows := rows[g := GroupRow(None, Joined)];
          } else if rows[g].status == Left {
            rows := rows[g := rows[g].(status := Joined)];
          }
          return true;
        case Leave(_) =>
          if g in rows {
            var q := rows[g].platform;
            if q.Some? && q.value < |configs| && GROUP_ID in configs[q.value] && configs[q.value][GROUP_ID] == g {
              SetBinding(q.value, None);
            }
            rows := rows[g := GroupRow(None, Left)];
          }
          return true;
        case Text(_, code, at) =>
          if code.None? {
            return false;
          }
          var p := WithCode(configs, code.value);
          if p.None? {
            return false;
          }
          counted := BindGroup(p.value, g, at);
        case Other(_) =>
          return false;
      }
    }

    /** The code an administrator shows to the group; a new one only on request. */
    method BindCode(p: nat, regenerate: bool, candidate: string) returns (code: string)
      requires p < |configs|
      modifies this`configs
      ensures Now() == CodeShown(old(Now()), p, regenerate, candidate)
      ensures BIND_CODE in configs[p] && configs[p][BIND_CODE] == code
      ensures if BIND_CODE in old(configs)[p] && old(configs)[p][BIND_CODE] != "" && !regenerate
              then configs == old(configs)
              else code == candidate && configs == old(configs)[p := old(configs)[p][BIND_CODE := candidate]]
      ensures old(Linked(Now())) ==> Linked(Now())
    {
      if Linked(Now()) {
        CodeLinked(Now(), p, regenerate, candidate);
      }
      if BIND_CODE in configs[p] && configs[p][BIND_CODE] != "" && !regenerate {
        return configs[p][BIND_CODE];
      }
      code := candidate;
      configs := configs[p := configs[p][BIND_CODE := code]];
    }
  }

  function CodeShown(s: State, p: nat, regenerate: bool, candidate: string): State
    requires p < |s.configs|
  {
    if BIND_CODE in s.configs[p] && s.configs[p][BIND_CODE] != "" && !regenerate then s
    else s.(configs := s.configs[p := s.configs[p][BIND_CODE := candidate]])
  }

  // ---- runs ----

  datatype Action =
    | Bind(platform: nat, group: string, at: string)
    | Unbind(platform: nat)
    | Webhook(event: Event)
    | ShowCode(platform: nat, regenerate: bool, candidate: string)

  function Step(s: State, a: Action): State {
    match a
    case Bind(p, g, at) => if p < |s.configs| && IsGroupId(g) then BoundTo(s, p, g, at) else s
    case Unbind(p) => if p < |s.configs| then Unbound(s, p) else s
    case Webhook(e) => Handled(s, e).0
    case ShowCode(p, again, candidate) => if p < |s.configs| then CodeShown(s, p, again, candidate) else s
  }

  function Run(s: State, acts: seq<Action>): State
    decreases |acts|
  {
    if acts == [] then s else Run(Step(s, acts[0]), acts[1..])
  }

  /** Everything in a configuration but the two keys of the binding; the binding code is part of it. */
  function Others(c: Config): Config {
    c - {GROUP_ID, BOUND_AT}
  }

  /** The same without the binding code. */
  function Rest(c: Config): Config {
    Others(c) - {BIND_CODE}
  }

  ghost predicate SameOthers(s: State, t: State) {
    |t.configs| == |s.configs| && forall q :: 0 <= q < |s.configs| ==> Others(t.configs[q]) == Others(s.configs[q])
  }

  predicate HasCode(c: Config) {
    BIND_CODE in c && c[BIND_CODE] != ""
  }

  /** The call may give platform `q`, configured as `c`, a new binding code. */
  predicate Renews(a: Action, c: Config, q: nat) {
    a.ShowCode? && a.platform == q && (a.regenerate || !HasCode(c))
  }

  lemma {:induction false} BoundPair(s: State, p: nat, g: string, at: string, q: nat, h: string)
    requires Linked(s) && p < |s.configs| && q < |s.configs|
    ensures var t := BoundTo(s, p, g, at);
      |t.configs| == |s.configs| && (GroupOf(t, q) == Some(h) <==> PlatformOf(t, h) == Some(q))
  {
    DistinctKeys();
    assert GroupOf(s, q) == Some(h) <==> PlatformOf(s, h) == Some(q);
    assert GroupOf(s, p) == Some(h) <==> PlatformOf(s, h) == Some(p);
    assert GroupOf(s, q) == Some(g) <==> PlatformOf(s, g) == Some(q);
  }

  lemma {:induction false} BoundRows(s: State, p: nat, g: string, at: string)
    requires Linked(s) && p < |s.configs| && g != ""
    ensures var t := BoundTo(s, p, g, at);
      && |t.configs| == |s.configs|
      && (forall h :: h in t.rows ==> t.rows[h].platform.Some? ==> t.rows[h].platform.value < |t.configs|)
      && (forall h :: h in t.rows ==> (t.rows[h].status == Bound <==> t.rows[h].platform.Some?))
      && (forall q: nat :: q < |t.configs| ==> GroupOf(t, q) != Some(""))
  {
    DistinctKeys();
    var t := BoundTo(s, p, g, at);
    forall q: nat | q < |t.configs| ensures GroupOf(t, q) != Some("") {
      assert GroupOf(s, q) != Some("");
    }
  }

  lemma {:induction false} BoundLinked(s: State, p: nat, g: string, at: string)
    requires Linked(s) && p < |s.configs| && g != ""
    ensures Linked(BoundTo(s, p, g, at))
  {
    var t := BoundTo(s, p, g, at);
    BoundRows(s, p, g, at);
    forall q: nat, h: string | q < |t.configs| ensures GroupOf(t, q) == Some(h) <==> PlatformOf(t, h) == Some(q) {
      BoundPair(s, p, g, at, q, h);
    }
  }

  lemma {:induction false} UnboundLinked(s: State, p: nat)
    requires Linked(s) && p < |s.configs|
    ensures Linked(Unbound(s, p))
  {
    var t := Unbound(s, p);
    forall q: nat, h: string | q < |t.configs| ensures GroupOf(t, q) == Some(h) <==> PlatformOf(t, h) == Some(q) {
      assert GroupOf(s, q) == Some(h) <==> PlatformOf(s, h) == Some(q);
      assert GroupOf(s, p) == Some(h) <==> PlatformOf(s, h) == Some(p);
    }
  }

  lemma {:induction false} LeftLinked(s: State, g: string)
    requires Linked(s)
    ensures Linked(LeftGroup(s, g))
  {
    var t := LeftGroup(s, g);
    forall q: nat, h: string | q < |t.configs| ensures GroupOf(t, q) == Some(h) <==> PlatformOf(t, h) == Some(q) {
      assert GroupOf(s, q) == Some(h) <==> PlatformOf(s, h) == Some(q);
      assert GroupOf(s, q) == Some(g) <==> PlatformOf(s, g) == Some(q);
    }
  }

  lemma {:induction false} JoinedLinked(s: State, g: string)
    requires Linked(s)
    ensures Linked(JoinedGroup(s, g))
  {
    var t := JoinedGroup(s, g);
    forall q: nat, h: string | q < |t.configs| ensures GroupOf(t, q) == Some(h) <==> PlatformOf(t, h) == Some(q) {
      assert GroupOf(s, q) == Some(h) <==> PlatformOf(s, h) == Some(q);
    }
  }

  lemma {:induction false} CodeLinked(s: State, p: nat, regenerate: bool, candidate: string)
    requires Linked(s) && p < |s.configs|
    ensures Linked(CodeShown(s, p, regenerate, candidate))
  {
    var t := CodeShown(s, p, regenerate, candidate);
    forall q: nat, h: string | q < |t.configs| ensures GroupOf(t, q) == Some(h) <==> PlatformOf(t, h) == Some(q) {
      assert GroupOf(s, q) == Some(h) <==> PlatformOf(s, h) == Some(q);
    }
  }

  lemma {:induction false} StepLinked(s: State, a: Action)
    requires Linked(s)
    ensures Linked(Step(s, a))
  {
    match a
    case Bind(p, g, at) =>
      if p < |s.configs| && IsGroupId(g) {
        BoundLinked(s, p, g, at);
      }
    case Unbind(p) =>
      if p < |s.configs| {
        UnboundLinked(s, p);
      }
    case ShowCode(p, again, candidate) =>
      if p < |s.configs| {
        CodeLinked(s, p, again, candidate);
      }
    case Webhook(e) => HandledLinked(s, e);
  }

  lemma {:induction false} HandledLinked(s: State, e: Event)
    requires Linked(s)
    ensures Linked(Handled(s, e).0)
  {
    if e.source.Some? && e.source.value != "" {
      var g := e.source.value;
      match e
      case Join(_) => JoinedLinked(s, g);
      case Leave(_) => LeftLinked(s, g);
      case Text(_, code, at) =>
        var p := if code.Some? then WithCode(s.configs, code.value) else None;
        if p.Some? && IsGroupId(g) {
          BoundLinked(s, p.value, g, at);
        }
      case Other(_) =>
    }
  }

  lemma {:induction false} SameOthersTransitive(s: State, t: State, u: State)
    requires SameOthers(s, t) && SameOthers(t, u)
    ensures SameOthers(s, u)
  {
  }

  lemma {:induction false} BoundOthers(s: State, p: nat, g: string, at: string)
    requires p < |s.configs|
    ensures SameOthers(s, BoundTo(s, p, g, at))
  {
    var t := Released(s, g, p);
    assert SameOthers(s, t);
    assert SameOthers(t, BoundTo(s, p, g, at));
    SameOthersTransitive(s, t, BoundTo(s, p, g, at));
  }

  lemma {:induction false} HandledOthers(s: State, e: Event)
    ensures SameOthers(s, Handled(s, e).0)
  {
    if e.source.Some? && e.source.value != "" {
      match e
      case Join(_) =>
      case Leave(_) =>
      case Text(_, code, at) =>
        var p := if code.Some? then WithCode(s.configs, code.value) else None;
        if p.Some? {
          BoundOthers(s, p.value, e.source.value, at);
        }
      case Other(_) =>
    }
  }

  /** No call but one that shows a binding code touches another key of any configuration. */
  lemma {:induction false} StepOthers(s: State, a: Action)
    requires !a.ShowCode?
    ensures SameOthers(s, Step(s, a))
  {
    match a
    case Bind(p, g, at) =>
      if p < |s.configs| {
        BoundOthers(s, p, g, at);
      }
    case Unbind(p) =>
    case Webhook(e) => HandledOthers(s, e);
  }

  /** Showing a code changes the code, of that platform only, and only when it renews it. */
  lemma {:induction false} CodeOthers(s: State, a: Action, q: nat)
    requires a.ShowCode? && q < |s.configs|
    ensures |Step(s, a).configs| == |s.configs|
    ensures !Renews(a, s.configs[q], q) ==> Others(Step(s, a).configs[q]) == Others(s.configs[q])
    ensures Rest(Step(s, a).configs[q]) == Rest(s.configs[q])
  {
  }

  /** A whole webhook body keeps both sides of the binding in agreement and touches nothing else. */
  lemma {:induction false} HandledAllKeeps(s: State, events: seq<Event>)
    ensures Linked(s) ==> Linked(HandledAll(s, events).0)
    ensures SameOthers(s, HandledAll(s, events).0)
  {
    if events != [] {
      var n := |events| - 1;
      HandledAllKeeps(s, events[..n]);
      var t := HandledAll(s, events[..n]).0;
      HandledOthers(t, events[n]);
      SameOthersTransitive(s, t, HandledAll(s, events).0);
      if Linked(s) {
        HandledLinked(t, events[n]);
      }
    }
  }

  /** Handling a webhook body is a run of the calls it brings. */
  lemma {:induction false} WebhookIsRun(s: State, events: seq<Event>)
    ensures HandledAll(s, events).0 == Run(s, seq(|events|, i requires 0 <= i < |events| => Webhook(events[i])))
  {
    if events != [] {
      var n := |events| - 1;
      WebhookIsRun(s, events[..n]);
      var acts := seq(|events|, i requires 0 <= i < |events| => Webhook(events[i]));
      var first := seq(n, i requires 0 <= i < n => Webhook(events[..n][i]));
      assert acts == first + [Webhook(events[n])];
      RunOneMore(s, first, Webhook(events[n]));
    }
  }

  lemma {:induction false} RunOneMore(s: State, acts: seq<Action>, a: Action)
    ensures Run(s, acts + [a]) == Step(Run(s, acts), a)
    decreases |acts|
  {
    if acts == [] {
      assert [] + [a] == [a] && [a][1..] == [];
    } else {
      assert (acts + [a])[1..] == acts[1..] + [a];
      RunOneMore(Step(s, acts[0]), acts[1..], a);
    }
  }

  /** After any sequence of manual and webhook calls the two sides agree, and nothing else in the
      configuration of any platform has changed but the binding code. */
  lemma {:induction false} BindingSurvivesEveryRun(s: State, acts: seq<Action>)
    requires Linked(s)
    ensures Linked(Run(s, acts)) && |Run(s, acts).configs| == |s.configs|
    ensures forall q :: 0 <= q < |s.configs| ==> Rest(Run(s, acts).configs[q]) == Rest(s.configs[q])
    decreases |acts|
  {
    if acts != [] {
      StepLinked(s, acts[0]);
      StepRest(s, acts[0]);
      BindingSurvivesEveryRun(Step(s, acts[0]), acts[1..]);
    }
  }

  lemma {:induction false} StepRest(s: State, a: Action)
    ensures |Step(s, a).configs| == |s.configs|
    ensures forall q :: 0 <= q < |s.configs| ==> Rest(Step(s, a).configs[q]) == Rest(s.configs[q])
  {
    if a.ShowCode? {
      forall q: nat | q < |s.configs| ensures |Step(s, a).configs| == |s.configs|
        ensures Rest(Step(s, a).configs[q]) == Rest(s.configs[q])
      {
        CodeOthers(s, a, q);
      }
    } else {
      StepOthers(s, a);
    }
  }

  /** The binding code of a platform changes only when it is asked for while there is none, or when a new
      one is asked for. */
  lemma {:induction false} CodeSurvivesEveryRun(s: State, acts: seq<Action>, q: nat)
    requires q < |s.configs| && forall a <- acts :: !Renews(a, s.configs[q], q)
    ensures |Run(s, acts).configs| == |s.configs| && Others(Run(s, acts).configs[q]) == Others(s.configs[q])
    decreases |acts|
  {
    if acts != [] {
      var t := Step(s, acts[0]);
      assert acts[0] in acts;
      if acts[0].ShowCode? {
        CodeOthers(s, acts[0], q);
      } else {
        StepOthers(s, acts[0]);
      }
      SameCode(s.configs[q], t.configs[q]);
      assert forall a <- acts[1..] :: a in acts;
      CodeSurvivesEveryRun(t, acts[1..], q);
    }
  }

  lemma {:induction false} SameCode(c: Config, d: Config)
    requires Others(d) == Others(c)
    ensures HasCode(d) <==> HasCode(c)
  {
    DistinctKeys();
    assert BIND_CODE in Others(d) <==> BIND_CODE in Others(c);
  }

  lemma {:induction false} DistinctKeys()
    ensures BIND_CODE != GROUP_ID && BIND_CODE != BOUND_AT && GROUP_ID != BOUND_AT
  {
    assert BIND_CODE[5] != GROUP_ID[5] && GROUP_ID[5] != BOUND_AT[5];
    assert BIND_CODE[6] != BOUND_AT[6];
  }
}

/**
 The cache of official map layers as readers that interleave
 (`get_layer` and `clear_cache`, apps/api/app/services/official_data_service.py).

 A reader looks its entry up under the cache lock, then checks and possibly fetches under the lock of
 the entry. Each step below is atomic; between two steps of one reader any others may run.
 */
module LayerCache {
  import opened Wrappers

  /** What a fetch returned; a layer whose sources all failed is a result too. */
  datatype Payload = Payload(ok: bool, content: string)

  datatype Entry = Entry(key: string, value: Option<Payload>, expires: real, holder: Option<nat>)

  datatype Reader =
    | Waiting(entry: nat, force: bool)
    | Holding(entry: nat, force: bool)
    | Fetching(entry: nat, force: bool)

  datatype Event =
    | Started(entry: nat, at: real, forced: bool)
    | Finished(entry: nat, at: real, value: Payload)
    | Raised(entry: nat, at: real)
    | Served(entry: nat, at: real, value: Payload)

  /** Entries stay around while readers use them, even after the cache has dropped them. */
  datatype State = State(
    now: real, entries: seq<Entry>, cache: map<string, nat>, readers: map<nat, Reader>, log: seq<Event>)

  datatype Action =
    | Tick(to: real)
    | Request(reader: nat, key: string, force: bool)
    | Acquire(reader: nat)
    | Check(reader: nat)
    | Finish(reader: nat, value: Payload)
    | Raise(reader: nat)
    | Clear

  function Min(a: real, b: real): real {
    if a < b then a else b
  }

  /** How long a result is kept: failures only briefly. */
  function Life(ttl: real, v: Payload): real {
    if v.ok then ttl else Min(ttl, 60.0)
  }

  predicate Fresh(e: Entry, now: real) {
    e.value.Some? && e.expires > now
  }

  predicate InRange(s: State) {
    && (forall k :: k in s.cache ==> s.cache[k] < |s.entries|)
    && (forall r :: r in s.readers ==> s.readers[r].entry < |s.entries|)
  }

  /** One atomic step; a step that the reader is not ready for changes nothing. */
  function Step(s: State, a: Action, ttl: real): (t: State)
    requires InRange(s)
    ensures InRange(t)
  {
    match a
    case Tick(to) => if to >= s.now then s.(now := to) else s
    case Request(r, key, force) =>
      if r in s.readers then s
      else if key in s.cache then s.(readers := s.readers[r := Waiting(s.cache[key], force)])
      else
        s.(entries := s.entries + [Entry(key, None, 0.0, None)],
           cache := s.cache[key := |s.entries|],
           readers := s.readers[r := Waiting(|s.entries|, force)])
    case Acquire(r) =>
      if r !in s.readers || !s.readers[r].Waiting? || s.entries[s.readers[r].entry].holder.Some? then s
      else
        var e := s.readers[r].entry;
        s.(entries := s.entries[e := s.entries[e].(holder := Some(r))],
           readers := s.readers[r := Holding(e, s.readers[r].force)])
    case Check(r) =>
      if r !in s.readers || !s.readers[r].Holding? then s
      else
        var e, force := s.readers[r].entry, s.readers[r].force;
        if !force && Fresh(s.entries[e], s.now)
        then Released(s, r, s.entries[e], Served(e, s.now, s.entries[e].value.value))
        else s.(readers := s.readers[r := Fetching(e, force)], log := s.log + [Started(e, s.now, force)])
    case Finish(r, v) =>
      if r !in s.readers || !s.readers[r].Fetching? then s
      else
        var e := s.readers[r].entry;
        Released(s, r, s.entries[e].(value := Some(v), expires := s.now + Life(ttl, v)), Finished(e, s.now, v))
    case Raise(r) =>
      if r !in s.readers || !s.readers[r].Fetching? then s
      else Released(s, r, s.entries[s.readers[r].entry], Raised(s.readers[r].entry, s.now))
    case Clear => s.(cache := map[])
  }

  /** The reader leaves the lock of its entry and returns. */
  function Released(s: State, r: nat, e: Entry, event: Event): State
    requires r in s.readers && s.readers[r].entry < |s.entries|
  {
    s.(entries := s.entries[s.readers[r].entry := e.(holder := None)],
       readers := s.readers - {r},
       log := s.log + [event])
  }

  /** What an entry stores, whoever holds its lock. */
  predicate SameContent(d: Entry, e: Entry) {
    e == d.(holder := e.holder)
  }

  predicate OthersUntouched(before: seq<Entry>, after: seq<Entry>, e: nat) {
    |after| == |before| && forall d: nat :: d < |before| && d != e ==> after[d] == before[d]
  }

  // ---- the service, updating the cache in place ----

  class LayerService {
    const ttl: real
    var now: real
    var entries: seq<Entry>
    var cache: map<string, nat>
    var readers: map<nat, Reader>
    ghost var log: seq<Event>

    ghost function Now(): State
      reads this
    {
      State(now, entries, cache, readers, log)
    }

    constructor (ttl: real, start: real)
      ensures Now() == Initial(start) && this.ttl == ttl
    {
      this.ttl, now := ttl, start;
      entries, cache, readers, log := [], map[], map[], [];
    }

    /** Under the cache lock: find the entry of a key, or make one. */
    method LookUp(r: nat, key: string, force: bool)
      requires InRange(Now()) && r !in readers
      modifies this
      ensures Now() == Step(old(Now()), Request(r, key, force), ttl)
      ensures old(Inv(Now(), ttl)) ==> Inv(Now(), ttl) && entries[readers[r].entry].key == key
      ensures old(entries) <= entries && |entries| <= |old(entries)| + 1
    {
      if Inv(Now(), ttl) {
        StepKeepsInv(Now(), Request(r, key, force), ttl);
      }
      if key !in cache {
        cache := cache[key := |entries|];
        entries := entries + [Entry(key, None, 0.0, None)];
      }
      readers := readers[r := Waiting(cache[key], force)];
    }

    /** Take the lock of the entry, if it is free. */
    method TryLock(r: nat) returns (locked: bool)
      requires InRange(Now()) && r in readers && readers[r].Waiting?
      modifies this
      ensures Now() == Step(old(Now()), Acquire(r), ttl)
      ensures locked <==> old(entries[readers[r].entry]).holder.None?
      ensures old(Inv(Now(), ttl)) ==> Inv(Now(), ttl)
      ensures OthersUntouched(old(entries), entries, old(readers[r]).entry)
    {
      if Inv(Now(), ttl) {
        StepKeepsInv(Now(), Acquire(r), ttl);
      }
      var e := readers[r].entry;
      if entries[e].holder.Some? {
        return false;
      }
      entries := entries[e := entries[e].(holder := Some(r))];
      readers := readers[r := Holding(e, readers[r].force)];
      return true;
    }

    /** With the lock held: answer from the entry, or go and fetch. */
    method CheckEntry(r: nat) returns (cached: Option<Payload>)
      requires InRange(Now()) && r in readers && readers[r].Holding?
      modifies this
      ensures Now() == Step(old(Now()), Check(r), ttl)
      ensures cached.Some? ==> !old(readers[r]).force && cached == old(entries[readers[r].entry]).value
      ensures var e := old(entries[readers[r].entry]);
        cached.Some? <==> !old(readers[r]).force && e.value.Some? && e.expires > now
      ensures cached.None? ==> IsFetching(Now(), r)
      ensures old(Inv(Now(), ttl)) ==> Inv(Now(), ttl)
      ensures OthersUntouched(old(entries), entries, old(readers[r]).entry)
    {
      if Inv(Now(), ttl) {
        StepKeepsInv(Now(), Check(r), ttl);
      }
      var e, force := readers[r].entry, readers[r].force;
      if !force && entries[e].value.Some? && entries[e].expires > now {
        cached := entries[e].value;
        entries := entries[e := entries[e].(holder := None)];
        readers := readers - {r};
        log := log + [Served(e, now, cached.value)];
      } else {
        cached := None;
        readers := readers[r := Fetching(e, force)];
        log := log + [Started(e, now, force)];
      }
    }

    /** The fetch returned: keep the result, a failed one only briefly, and give up the lock. */
    method Store(r: nat, value: Payload)
      requires InRange(Now()) && IsFetching(Now(), r)
      modifies this
      ensures Now() == Step(old(Now()), Finish(r, value), ttl)
      ensures old(Inv(Now(), ttl)) ==> Inv(Now(), ttl)
      ensures OthersUntouched(old(entries), entries, old(readers[r]).entry)
      ensures var e := entries[old(readers[r]).entry];
        && e.value == Some(value) && e.holder == None
        && e.expires == now + if value.ok || ttl < 60.0 then ttl else 60.0
    {
      if Inv(Now(), ttl) {
        StepKeepsInv(Now(), Finish(r, value), ttl);
      }
      var e := readers[r].entry;
      entries := entries[e := entries[e].(value := Some(value))];
      entries := entries[e := entries[e].(expires := now + if value.ok then ttl else Min(ttl, 60.0))];
      entries := entries[e := entries[e].(holder := None)];
      readers := readers - {r};
      log := log + [Finished(e, now, value)];
    }

    /** The fetch raised: the lock is given up on the way out, and nothing is stored. */
    method Abandon(r: nat)
      requires InRange(Now()) && IsFetching(Now(), r)
      modifies this
      ensures Now() == Step(old(Now()), Raise(r), ttl)
      ensures old(Inv(Now(), ttl)) ==> Inv(Now(), ttl)
      ensures forall e: nat :: e < |entries| ==> SameContent(old(entries)[e], entries[e])
      ensures OthersUntouched(old(entries), entries, old(readers[r]).entry)
    {
      if Inv(Now(), ttl) {
        StepKeepsInv(Now(), Raise(r), ttl);
      }
      var e := readers[r].entry;
      entries := entries[e := entries[e].(holder := None)];
      readers := readers - {r};
      log := log + [Raised(e, now)];
    }

    method ClearCache()
      requires InRange(Now())
      modifies this`cache
      ensures Now() == Step(old(Now()), Clear, ttl)
      ensures old(Inv(Now(), ttl)) ==> Inv(Now(), ttl)
    {
      if Inv(Now(), ttl) {
        StepKeepsInv(Now(), Clear, ttl);
      }
      cache := map[];
    }
  }

  // ---- reading the log ----

  /** The latest result that a fetch for this entry returned, and when. */
  function Latest(log: seq<Event>, e: nat): Option<(real, Payload)> {
    if log == [] then None
    else
      var last := log[|log| - 1];
      if last.Finished? && last.entry == e then Some((last.at, last.value)) else Latest(log[..|log| - 1], e)
  }

  /** A cached answer was the latest result and had not expired; an unforced fetch started because
      there was no result or the latest one had expired. */
  ghost predicate EventOk(log: seq<Event>, i: nat, ttl: real)
    requires i < |log|
  {
    var latest := Latest(log[..i], log[i].entry);
    match log[i]
    case Served(_, at, v) => latest.Some? && v == latest.value.1 && at < latest.value.0 + Life(ttl, v)
    case Started(_, at, forced) => !forced && latest.Some? ==> at >= latest.value.0 + Life(ttl, latest.value.1)
    case _ => true
  }

  ghost predicate LogOk(s: State, ttl: real) {
    && (forall i: nat :: i < |s.log| ==> EventOk(s.log, i, ttl))
    && (forall i :: 0 <= i < |s.log| ==> s.log[i].at <= s.now)
    && (forall i, j :: 0 <= i <= j < |s.log| ==> s.log[i].at <= s.log[j].at)
  }

  /** What is stored in an entry is the latest result of its fetches. */
  ghost predicate EntryOk(s: State, e: nat, ttl: real)
    requires e < |s.entries|
  {
    var latest := Latest(s.log, e);
    match latest
    case None => s.entries[e].value == None
    case Some((at, v)) => s.entries[e].value == Some(v) && s.entries[e].expires == at + Life(ttl, v)
  }

  /** The lock of an entry is held by exactly the reader that is past acquiring it. */
  ghost predicate LocksOk(s: State) {
    && (forall r :: r in s.readers && !s.readers[r].Waiting? ==>
         s.readers[r].entry < |s.entries| && s.entries[s.readers[r].entry].holder == Some(r))
    && (forall e: nat :: e < |s.entries| && s.entries[e].holder.Some? ==>
         var r := s.entries[e].holder.value;
         r in s.readers && s.readers[r].entry == e && !s.readers[r].Waiting?)
  }

  ghost predicate Inv(s: State, ttl: real) {
    && InRange(s)
    && (forall k :: k in s.cache ==> s.entries[s.cache[k]].key == k)
    && LocksOk(s) && LogOk(s, ttl)
    && (forall e: nat :: e < |s.entries| ==> EntryOk(s, e, ttl))
    && (forall i :: 0 <= i < |s.log| ==> s.log[i].entry < |s.entries|)
  }

  // ---- every step keeps it ----

  lemma {:induction false} LatestAppended(log: seq<Event>, event: Event, e: nat)
    ensures Latest(log + [event], e)
         == if event.Finished? && event.entry == e then Some((event.at, event.value)) else Latest(log, e)
  {
    assert (log + [event])[..|log|] == log;
  }

  lemma {:induction false} NoEventsYet(log: seq<Event>, e: nat)
    requires forall i :: 0 <= i < |log| ==> log[i].entry != e
    ensures Latest(log, e) == None
  {
    if log != [] {
      NoEventsYet(log[..|log| - 1], e);
    }
  }

  lemma {:induction false} LogAppended(s: State, event: Event, ttl: real)
    requires LogOk(s, ttl) && event.at == s.now
    requires EventOk(s.log + [event], |s.log|, ttl)
    ensures LogOk(s.(log := s.log + [event]), ttl)
  {
    var longer := s.log + [event];
    forall i: nat | i < |longer| ensures EventOk(longer, i, ttl) {
      if i < |s.log| {
        assert EventOk(s.log, i, ttl);
        assert longer[..i] == s.log[..i];
      }
    }
  }

  lemma {:induction false} RequestKeepsInv(s: State, a: Action, ttl: real)
    requires Inv(s, ttl) && a.Request?
    ensures Inv(Step(s, a, ttl), ttl)
  {
    var t := Step(s, a, ttl);
    if t != s && a.key !in s.cache {
      NoEventsYet(s.log, |s.entries|);
    }
    forall e: nat | e < |t.entries| ensures EntryOk(t, e, ttl) {
      if e < |s.entries| {
        assert EntryOk(s, e, ttl);
      }
    }
    forall i: nat | i < |t.log| ensures EventOk(t.log, i, ttl) {
      assert EventOk(s.log, i, ttl);
    }
  }

  lemma {:induction false} AcquireKeepsInv(s: State, a: Action, ttl: real)
    requires Inv(s, ttl) && a.Acquire?
    ensures Inv(Step(s, a, ttl), ttl)
  {
    var t := Step(s, a, ttl);
    forall e: nat | e < |t.entries| ensures EntryOk(t, e, ttl) {
      assert EntryOk(s, e, ttl);
    }
    forall i: nat | i < |t.log| ensures EventOk(t.log, i, ttl) {
      assert EventOk(s.log, i, ttl);
    }
  }

  lemma {:induction false} LockedStepKeepsInv(s: State, r: nat, e: Entry, event: Event, ttl: real)
    requires Inv(s, ttl) && r in s.readers && !s.readers[r].Waiting?
    requires event.at == s.now && event.entry == s.readers[r].entry
    requires EventOk(s.log + [event], |s.log|, ttl)
    requires e.key == s.entries[event.entry].key
    requires if event.Finished? then e.value == Some(event.value) && e.expires == s.now + Life(ttl, event.value)
             else e.value == s.entries[event.entry].value && e.expires == s.entries[event.entry].expires
    ensures Inv(Released(s, r, e, event), ttl)
  {
    var t := Released(s, r, e, event);
    LogAppended(s, event, ttl);
    assert forall i: nat :: i < |t.log| ==> EventOk(s.(log := s.log + [event]).log, i, ttl);
    forall d: nat | d < |t.entries| ensures EntryOk(t, d, ttl) {
      assert EntryOk(s, d, ttl);
      LatestAppended(s.log, event, d);
    }
  }

  lemma {:induction false} CheckKeepsInv(s: State, a: Action, ttl: real)
    requires Inv(s, ttl) && a.Check?
    ensures Inv(Step(s, a, ttl), ttl)
  {
    var r := a.reader;
    if r in s.readers && s.readers[r].Holding? {
      var e, force := s.readers[r].entry, s.readers[r].force;
      assert EntryOk(s, e, ttl);
      if !force && Fresh(s.entries[e], s.now) {
        var event := Served(e, s.now, s.entries[e].value.value);
        assert (s.log + [event])[..|s.log|] == s.log;
        LockedStepKeepsInv(s, r, s.entries[e], event, ttl);
      } else {
        var event := Started(e, s.now, force);
        assert (s.log + [event])[..|s.log|] == s.log;
        LogAppended(s, event, ttl);
        var t := Step(s, a, ttl);
        assert forall i: nat :: i < |t.log| ==> EventOk(s.(log := s.log + [event]).log, i, ttl);
        forall d: nat | d < |t.entries| ensures EntryOk(t, d, ttl) {
          assert EntryOk(s, d, ttl);
          LatestAppended(s.log, event, d);
        }
      }
    }
  }

  lemma {:induction false} QuietStepKeepsInv(s: State, a: Action, ttl: real)
    requires Inv(s, ttl) && (a.Tick? || a.Clear?)
    ensures Inv(Step(s, a, ttl), ttl)
  {
    var t := Step(s, a, ttl);
    forall e: nat | e < |t.entries| ensures EntryOk(t, e, ttl) {
      assert EntryOk(s, e, ttl);
    }
    forall i: nat | i < |t.log| ensures EventOk(t.log, i, ttl) {
      assert EventOk(s.log, i, ttl);
    }
  }

  lemma {:induction false} FetchEndKeepsInv(s: State, a: Action, ttl: real)
    requires Inv(s, ttl) && (a.Finish? || a.Raise?)
    ensures Inv(Step(s, a, ttl), ttl)
  {
    var r := a.reader;
    if r in s.readers && s.readers[r].Fetching? {
      var e := s.readers[r].entry;
      if a.Finish? {
        LockedStepKeepsInv(s, r, s.entries[e].(value := Some(a.value), expires := s.now + Life(ttl, a.value)),
                           Finished(e, s.now, a.value), ttl);
      } else {
        LockedStepKeepsInv(s, r, s.entries[e], Raised(e, s.now), ttl);
      }
    }
  }

  lemma {:induction false} StepKeepsInv(s: State, a: Action, ttl: real)
    requires Inv(s, ttl)
    ensures Inv(Step(s, a, ttl), ttl)
  {
    match a
    case Request(_, _, _) => RequestKeepsInv(s, a, ttl);
    case Acquire(_) => AcquireKeepsInv(s, a, ttl);
    case Check(_) => CheckKeepsInv(s, a, ttl);
    case Finish(_, _) => FetchEndKeepsInv(s, a, ttl);
    case Raise(_) => FetchEndKeepsInv(s, a, ttl);
    case Tick(_) => QuietStepKeepsInv(s, a, ttl);
    case Clear => QuietStepKeepsInv(s, a, ttl);
  }

  // ---- runs ----

  function Initial(start: real): State {
    State(start, [], map[], map[], [])
  }

  ghost predicate IsRun(trace: seq<State>, acts: seq<Action>, ttl: real) {
    && |trace| == |acts| + 1 && (exists start :: trace[0] == Initial(start))
    && forall i :: 0 <= i < |acts| ==> InRange(trace[i]) && trace[i + 1] == Step(trace[i], acts[i], ttl)
  }

  lemma {:induction false} ReachableInv(trace: seq<State>, acts: seq<Action>, ttl: real, i: nat)
    requires IsRun(trace, acts, ttl) && i < |trace|
    ensures Inv(trace[i], ttl)
  {
    if i == 0 {
      var start :| trace[0] == Initial(start);
    } else {
      ReachableInv(trace, acts, ttl, i - 1);
      StepKeepsInv(trace[i - 1], acts[i - 1], ttl);
    }
  }

  predicate IsFetching(s: State, r: nat) {
    r in s.readers && s.readers[r].Fetching?
  }

  /** Nobody is using an entry of this key. */
  ghost predicate NoReaderOf(s: State, key: string)
    requires InRange(s)
  {
    forall r :: r in s.readers ==> s.entries[s.readers[r].entry].key != key
  }

  /** Every reader of this key uses the entry that the key leads to. */
  ghost predicate OneEntryInUse(s: State, key: string)
    requires InRange(s)
  {
    forall r :: r in s.readers && s.entries[s.readers[r].entry].key == key ==>
      key in s.cache && s.cache[key] == s.readers[r].entry
  }

  /** Whenever the cache was cleared before state `i`, nobody was using an entry of this key. */
  ghost predicate ClearedIdle(trace: seq<State>, acts: seq<Action>, key: string, i: nat)
    requires i <= |acts| <= |trace| && forall j :: 0 <= j < |acts| ==> InRange(trace[j])
  {
    forall j :: 0 <= j < i && acts[j] == Clear ==> NoReaderOf(trace[j], key)
  }

  /** No step but a request gives a reader another entry, and no step gives an entry another key. */
  lemma {:induction false} ReadersStay(s: State, a: Action, ttl: real)
    requires InRange(s) && !a.Request?
    ensures var t := Step(s, a, ttl);
      && (a != Clear ==> t.cache == s.cache)
      && (forall r :: r in t.readers ==> r in s.readers && t.readers[r].entry == s.readers[r].entry)
      && |t.entries| == |s.entries| && forall e :: 0 <= e < |s.entries| ==> t.entries[e].key == s.entries[e].key
  {
  }

  lemma {:induction false} RequestKeepsEntryInUse(s: State, a: Action, ttl: real, key: string)
    requires Inv(s, ttl) && OneEntryInUse(s, key) && a.Request?
    ensures OneEntryInUse(Step(s, a, ttl), key)
  {
    var t := Step(s, a, ttl);
    forall r | r in t.readers && t.entries[t.readers[r].entry].key == key
      ensures key in t.cache && t.cache[key] == t.readers[r].entry
    {
      if r in s.readers {
        assert t.readers[r] == s.readers[r];
        assert t.entries[s.readers[r].entry] == s.entries[s.readers[r].entry];
      }
    }
  }

  lemma {:induction false} StepKeepsEntryInUse(s: State, a: Action, ttl: real, key: string)
    requires Inv(s, ttl) && OneEntryInUse(s, key) && (a == Clear ==> NoReaderOf(s, key))
    ensures OneEntryInUse(Step(s, a, ttl), key)
  {
    if a.Request? {
      RequestKeepsEntryInUse(s, a, ttl, key);
    } else {
      ReadersStay(s, a, ttl);
    }
  }

  lemma {:induction false} ReachableEntryInUse(trace: seq<State>, acts: seq<Action>, ttl: real, key: string, i: nat)
    requires IsRun(trace, acts, ttl) && i < |trace| && ClearedIdle(trace, acts, key, i)
    ensures InRange(trace[i]) && OneEntryInUse(trace[i], key)
  {
    if i > 0 {
      ReachableEntryInUse(trace, acts, ttl, key, i - 1);
      RunStepKeepsEntryInUse(trace, acts, ttl, key, i - 1);
    }
  }

  lemma {:induction false} RunStepKeepsEntryInUse(trace: seq<State>, acts: seq<Action>, ttl: real, key: string, i: nat)
    requires IsRun(trace, acts, ttl) && i < |acts| && ClearedIdle(trace, acts, key, i + 1)
    requires OneEntryInUse(trace[i], key)
    ensures InRange(trace[i + 1]) && OneEntryInUse(trace[i + 1], key)
  {
    ReachableInv(trace, acts, ttl, i);
    StepKeepsEntryInUse(trace[i], acts[i], ttl, key);
  }

  /** At most one fetch is in flight per entry, under any schedule; and at most one per key, as long as the
      cache is only ever cleared while nobody uses an entry of that key. `ClearMeetsReader` is the converse. */
  lemma {:induction false} SingleFlight(trace: seq<State>, acts: seq<Action>, ttl: real, i: nat, q: nat, r: nat)
    requires IsRun(trace, acts, ttl) && i < |trace|
    requires IsFetching(trace[i], q) && IsFetching(trace[i], r)
    ensures InRange(trace[i])
    ensures trace[i].readers[q].entry == trace[i].readers[r].entry ==> q == r
    ensures var key := trace[i].entries[trace[i].readers[r].entry].key;
      ClearedIdle(trace, acts, key, i) && trace[i].entries[trace[i].readers[q].entry].key == key ==> q == r
  {
    ReachableInv(trace, acts, ttl, i);
    var key := trace[i].entries[trace[i].readers[r].entry].key;
    if ClearedIdle(trace, acts, key, i) {
      ReachableEntryInUse(trace, acts, ttl, key, i);
    }
  }

  lemma {:induction false} LatestIsLast(log: seq<Event>, i: nat, n: nat)
    requires i < n <= |log| && log[i].Finished?
    requires forall a, b :: 0 <= a <= b < |log| ==> log[a].at <= log[b].at
    ensures Latest(log[..n], log[i].entry).Some? && log[i].at <= Latest(log[..n], log[i].entry).value.0
  {
    assert log[..n][..n - 1] == log[..n - 1];
    if !(log[n - 1].Finished? && log[n - 1].entry == log[i].entry) {
      LatestIsLast(log, i, n - 1);
    }
  }

  ghost predicate KeyIs(s: State, i: nat, key: string)
    requires i < |s.log|
  {
    s.log[i].entry < |s.entries| && s.entries[s.log[i].entry].key == key
  }

  /** Readers of this key, and what they have logged since the log was this long, use the entry that the key
      leads to. */
  ghost predicate OneEntrySince(s: State, key: string, length: nat)
    requires InRange(s)
  {
    && OneEntryInUse(s, key)
    && forall i: nat :: length <= i < |s.log| && KeyIs(s, i, key) ==> key in s.cache && s.cache[key] == s.log[i].entry
  }

  lemma {:induction false} StepKeepsEntrySince(s: State, a: Action, ttl: real, key: string, length: nat)
    requires Inv(s, ttl) && OneEntrySince(s, key, length) && a != Clear
    ensures OneEntrySince(Step(s, a, ttl), key, length)
  {
    var t := Step(s, a, ttl);
    StepKeepsEntryInUse(s, a, ttl, key);
    StepExtends(s, a, ttl, key);
    LoggedInUse(s, a, ttl, key);
    if key in s.cache {
      KeysStay(s, a, ttl, key);
    }
    forall i: nat | length <= i < |t.log| && KeyIs(t, i, key)
      ensures key in t.cache && t.cache[key] == t.log[i].entry
    {
      if i < |s.log| {
        assert t.log[i] == s.log[i] && KeyIs(s, i, key);
      }
    }
  }

  /** Without a clear, a key goes on leading to its entry. */
  lemma {:induction false} KeysStay(s: State, a: Action, ttl: real, key: string)
    requires InRange(s) && a != Clear && key in s.cache
    ensures key in Step(s, a, ttl).cache && Step(s, a, ttl).cache[key] == s.cache[key]
  {
  }

  lemma {:induction false} RunStepKeepsEntrySince(
      trace: seq<State>, acts: seq<Action>, ttl: real, key: string, length: nat, i: nat)
    requires IsRun(trace, acts, ttl) && i < |acts| && acts[i] != Clear
    requires InRange(trace[i]) && OneEntrySince(trace[i], key, length)
    ensures InRange(trace[i + 1]) && OneEntrySince(trace[i + 1], key, length)
  {
    ReachableInv(trace, acts, ttl, i);
    StepKeepsEntrySince(trace[i], acts[i], ttl, key, length);
  }

  lemma {:induction false} ReachableEntrySince(
      trace: seq<State>, acts: seq<Action>, ttl: real, key: string, m: nat, n: nat)
    requires IsRun(trace, acts, ttl) && m <= n < |trace| && forall i :: m <= i < n ==> acts[i] != Clear
    requires InRange(trace[m]) && OneEntryInUse(trace[m], key)
    ensures InRange(trace[n]) && OneEntrySince(trace[n], key, |trace[m].log|)
    decreases n
  {
    if m < n {
      var k := n - 1;
      ReachableEntrySince(trace, acts, ttl, key, m, k);
      RunStepKeepsEntrySince(trace, acts, ttl, key, |trace[m].log|, k);
    }
  }

  /** After any fetch that returned, whether it succeeded or not, the next unforced fetches for that entry
      start no sooner than the shorter of the time to live and sixty seconds. */
  lemma {:induction false} FetchesAreSpaced(trace: seq<State>, acts: seq<Action>, ttl: real, n: nat, i: nat, j: nat)
    requires IsRun(trace, acts, ttl) && n < |trace|
    requires i < j < |trace[n].log| && trace[n].log[i].Finished?
    requires trace[n].log[j].Started? && !trace[n].log[j].forced && trace[n].log[j].entry == trace[n].log[i].entry
    ensures trace[n].log[j].at >= trace[n].log[i].at + Min(ttl, 60.0)
  {
    ReachableInv(trace, acts, ttl, n);
    var log := trace[n].log;
    assert EventOk(log, j, ttl);
    LatestIsLast(log, i, j);
  }

  /** And so do the next ones for that key, if the cache was not cleared after some state before the fetch
      returned in which all readers of the key used the entry that it leads to. By `ReachableEntryInUse` any
      state is such a state when every clear before it found nobody using an entry of the key. */
  lemma {:induction false} FetchesOfKeyAreSpaced(
      trace: seq<State>, acts: seq<Action>, ttl: real, key: string, m: nat, n: nat, i: nat, j: nat)
    requires IsRun(trace, acts, ttl) && m <= n < |trace| && forall x :: m <= x < n ==> acts[x] != Clear
    requires InRange(trace[m]) && OneEntryInUse(trace[m], key) && |trace[m].log| <= i
    requires i < j < |trace[n].log| && trace[n].log[i].Finished?
    requires trace[n].log[j].Started? && !trace[n].log[j].forced
    requires KeyIs(trace[n], i, key) && KeyIs(trace[n], j, key)
    ensures trace[n].log[j].at >= trace[n].log[i].at + Min(ttl, 60.0)
  {
    ReachableEntrySince(trace, acts, ttl, key, m, n);
    FetchesAreSpaced(trace, acts, ttl, n, i, j);
  }

  /** A cached answer is the result of the latest fetch that returned, and it has not expired. */
  lemma {:induction false} CachedAnswersAreCurrent(trace: seq<State>, acts: seq<Action>, ttl: real, n: nat, j: nat)
    requires IsRun(trace, acts, ttl) && n < |trace|
    requires j < |trace[n].log| && trace[n].log[j].Served?
    ensures var latest := Latest(trace[n].log[..j], trace[n].log[j].entry);
      && latest.Some? && trace[n].log[j].value == latest.value.1
      && trace[n].log[j].at < latest.value.0 + Life(ttl, latest.value.1)
  {
    ReachableInv(trace, acts, ttl, n);
    assert EventOk(trace[n].log, j, ttl);
  }

  /** Once a fetch on entry `e` has returned, all fetches of the key that return are on it, in the first `end`
      events. */
  ghost predicate ReturnsStay(s: State, key: string, e: nat, end: nat)
    requires end <= |s.log|
  {
    forall i: nat, x: nat ::
      (i < x < end && s.log[i].Finished? && s.log[i].entry == e && s.log[x].Finished? && KeyIs(s, x, key)) ==>
        s.log[x].entry == e
  }

  /** That is so for the entry that the key leads to, and for any entry from which a reader of the key was
      answered, up to then. */
  ghost predicate OneSource(s: State, key: string)
    requires InRange(s)
  {
    && (key in s.cache ==> ReturnsStay(s, key, s.cache[key], |s.log|))
    && forall j: nat :: j < |s.log| && s.log[j].Served? && KeyIs(s, j, key) ==> ReturnsStay(s, key, s.log[j].entry, j)
  }

  /** Events stay and entries keep their keys. */
  lemma {:induction false} StepExtends(s: State, a: Action, ttl: real, key: string)
    requires Inv(s, ttl)
    ensures var t := Step(s, a, ttl);
      && s.log <= t.log && |t.log| <= |s.log| + 1
      && forall i: nat :: i < |s.log| ==> (KeyIs(t, i, key) <==> KeyIs(s, i, key))
  {
    var t := Step(s, a, ttl);
    forall i: nat | i < |s.log| ensures KeyIs(t, i, key) <==> KeyIs(s, i, key) {
      assert t.log[i] == s.log[i];
    }
  }

  lemma {:induction false} ReturnsFrame(s: State, a: Action, ttl: real, key: string, e: nat, end: nat)
    requires Inv(s, ttl) && end <= |s.log| && ReturnsStay(s, key, e, end)
    ensures s.log <= Step(s, a, ttl).log && ReturnsStay(Step(s, a, ttl), key, e, end)
  {
    StepExtends(s, a, ttl, key);
    var t := Step(s, a, ttl);
    forall i: nat, x: nat | i < x < end && t.log[i].Finished? && t.log[i].entry == e
      && t.log[x].Finished? && KeyIs(t, x, key) ensures t.log[x].entry == e
    {
      assert t.log[i] == s.log[i] && t.log[x] == s.log[x] && KeyIs(s, x, key);
    }
  }

  /** What a step logs for a key it logs on the entry that the key leads to, before and after. */
  lemma {:induction false} LoggedInUse(s: State, a: Action, ttl: real, key: string)
    requires Inv(s, ttl) && OneEntryInUse(s, key)
    ensures var t := Step(s, a, ttl);
      |t.log| == |s.log| + 1 && KeyIs(t, |s.log|, key) ==>
        key in s.cache && key in t.cache && s.cache[key] == t.cache[key] == t.log[|s.log|].entry
  {
  }

  lemma {:induction false} StepKeepsCurrent(s: State, a: Action, ttl: real, key: string)
    requires Inv(s, ttl) && OneEntryInUse(s, key) && OneSource(s, key)
    ensures var t := Step(s, a, ttl);
      key in t.cache ==> ReturnsStay(t, key, t.cache[key], |t.log|)
  {
    var t := Step(s, a, ttl);
    StepExtends(s, a, ttl, key);
    LoggedInUse(s, a, ttl, key);
    if key in t.cache {
      if key in s.cache {
        ReturnsFrame(s, a, ttl, key, s.cache[key], |s.log|);
      }
      assert key in s.cache ==> t.cache[key] == s.cache[key];
      assert key !in s.cache ==> t.log == s.log && forall i :: 0 <= i < |t.log| ==> t.log[i].entry != t.cache[key];
    }
  }

  lemma {:induction false} StepKeepsAnswered(s: State, a: Action, ttl: real, key: string, j: nat)
    requires Inv(s, ttl) && OneEntryInUse(s, key) && OneSource(s, key)
    requires var t := Step(s, a, ttl);
      j < |t.log| && t.log[j].Served? && KeyIs(t, j, key)
    ensures ReturnsStay(Step(s, a, ttl), key, Step(s, a, ttl).log[j].entry, j)
  {
    var t := Step(s, a, ttl);
    StepExtends(s, a, ttl, key);
    if j < |s.log| {
      assert t.log[j] == s.log[j] && KeyIs(s, j, key);
      ReturnsFrame(s, a, ttl, key, s.log[j].entry, j);
    } else {
      LoggedInUse(s, a, ttl, key);
      ReturnsFrame(s, a, ttl, key, s.cache[key], |s.log|);
    }
  }

  lemma {:induction false} StepKeepsSource(s: State, a: Action, ttl: real, key: string)
    requires Inv(s, ttl) && OneEntryInUse(s, key) && OneSource(s, key)
    ensures OneSource(Step(s, a, ttl), key)
  {
    var t := Step(s, a, ttl);
    StepKeepsCurrent(s, a, ttl, key);
    forall j: nat | j < |t.log| && t.log[j].Served? && KeyIs(t, j, key) ensures ReturnsStay(t, key, t.log[j].entry, j) {
      StepKeepsAnswered(s, a, ttl, key, j);
    }
  }

  lemma {:induction false} RunStepKeepsSource(trace: seq<State>, acts: seq<Action>, ttl: real, key: string, i: nat)
    requires IsRun(trace, acts, ttl) && i < |acts| && ClearedIdle(trace, acts, key, i)
    requires OneSource(trace[i], key)
    ensures InRange(trace[i + 1]) && OneSource(trace[i + 1], key)
  {
    ReachableInv(trace, acts, ttl, i);
    ReachableEntryInUse(trace, acts, ttl, key, i);
    StepKeepsSource(trace[i], acts[i], ttl, key);
  }

  lemma {:induction false} ReachableSource(trace: seq<State>, acts: seq<Action>, ttl: real, key: string, i: nat)
    requires IsRun(trace, acts, ttl) && i < |trace| && ClearedIdle(trace, acts, key, i)
    ensures InRange(trace[i]) && OneSource(trace[i], key)
  {
    if i > 0 {
      ReachableSource(trace, acts, ttl, key, i - 1);
      RunStepKeepsSource(trace, acts, ttl, key, i - 1);
    }
  }

  /** Where the latest result of an entry stands in the log. */
  lemma {:induction false} LatestIndex(log: seq<Event>, n: nat, e: nat) returns (i: nat)
    requires n <= |log| && Latest(log[..n], e).Some?
    ensures i < n && log[i].Finished? && log[i].entry == e && Latest(log[..n], e).value == (log[i].at, log[i].value)
    ensures forall x :: i < x < n && log[x].Finished? ==> log[x].entry != e
  {
    assert log[..n][..n - 1] == log[..n - 1];
    if log[n - 1].Finished? && log[n - 1].entry == e {
      i := n - 1;
    } else {
      i := LatestIndex(log, n - 1, e);
    }
  }

  /** If every clear found nobody using an entry of a key, a cached answer for that key is the result of the latest
      of all fetches of the key that returned before it, and it has not expired. */
  lemma {:induction false} CachedAnswersOfKeyAreCurrent(
      trace: seq<State>, acts: seq<Action>, ttl: real, key: string, n: nat, j: nat)
    returns (i: nat)
    requires IsRun(trace, acts, ttl) && n < |trace| && ClearedIdle(trace, acts, key, n)
    requires j < |trace[n].log| && trace[n].log[j].Served? && KeyIs(trace[n], j, key)
    ensures i < j && trace[n].log[i].Finished? && KeyIs(trace[n], i, key)
    ensures trace[n].log[i].value == trace[n].log[j].value
    ensures trace[n].log[j].at < trace[n].log[i].at + Life(ttl, trace[n].log[i].value)
    ensures forall x :: i < x < j && trace[n].log[x].Finished? ==> !KeyIs(trace[n], x, key)
  {
    CachedAnswersAreCurrent(trace, acts, ttl, n, j);
    i := LatestIndex(trace[n].log, j, trace[n].log[j].entry);
    ReachableSource(trace, acts, ttl, key, n);
    assert ReturnsStay(trace[n], key, trace[n].log[j].entry, j);
  }

  // ---- where it stops holding ----

  /** An unforced check goes and fetches exactly when no fetch for the entry has returned yet or the latest
      that did has expired; otherwise it answers with that. Fetches that raised do not count. */
  lemma {:induction false} CheckDecides(s: State, ttl: real, r: nat)
    requires Inv(s, ttl) && r in s.readers && s.readers[r].Holding? && !s.readers[r].force
    ensures var e := s.readers[r].entry;
      var latest, log := Latest(s.log, e), Step(s, Check(r), ttl).log;
      if latest.None? || s.now >= latest.value.0 + Life(ttl, latest.value.1)
      then log == s.log + [Started(e, s.now, false)]
      else log == s.log + [Served(e, s.now, latest.value.1)]
  {
    assert EntryOk(s, s.readers[r].entry, ttl);
  }

  /** The steps of one reader between waiting for its entry and answering or fetching. */
  function GoesOn(q: nat, later: real): seq<Action> {
    [Tick(later), Acquire(q), Check(q)]
  }

  /** The state after some steps. */
  function After(s: State, acts: seq<Action>, ttl: real): (t: State)
    requires InRange(s)
    ensures InRange(t)
  {
    if acts == [] then s else Step(After(s, acts[..|acts| - 1], ttl), acts[|acts| - 1], ttl)
  }

  lemma {:induction false} AfterThree(s: State, a: Action, b: Action, c: Action, ttl: real)
    requires InRange(s)
    ensures After(s, [a, b, c], ttl) == Step(Step(Step(s, a, ttl), b, ttl), c, ttl)
  {
    assert [a, b, c][..2] == [a, b] && [a, b][..1] == [a] && [a][..0] == [];
    assert After(s, [a], ttl) == Step(After(s, [], ttl), a, ttl);
    assert After(s, [a, b], ttl) == Step(After(s, [a], ttl), b, ttl);
  }

  lemma {:induction false} AfterInv(s: State, acts: seq<Action>, ttl: real)
    requires Inv(s, ttl)
    ensures Inv(After(s, acts, ttl), ttl)
  {
    if acts != [] {
      AfterInv(s, acts[..|acts| - 1], ttl);
      StepKeepsInv(After(s, acts[..|acts| - 1], ttl), acts[|acts| - 1], ttl);
    }
  }

  lemma {:induction false} AfterBoth(s: State, a: seq<Action>, b: seq<Action>, ttl: real)
    requires InRange(s)
    ensures After(s, a + b, ttl) == After(After(s, a, ttl), b, ttl)
  {
    if b == [] {
      assert a + b == a;
    } else {
      var n := |b| - 1;
      AfterBoth(s, a, b[..n], ttl);
      assert (a + b)[..|a + b| - 1] == a + b[..n];
    }
  }

  lemma {:induction false} RaisedThenHolding(s: State, ttl: real, r: nat, q: nat, later: real) returns (t: State)
    requires Inv(s, ttl) && IsFetching(s, r) && later >= s.now
    requires q in s.readers && s.readers[q] == Waiting(s.readers[r].entry, false)
    ensures t == Step(Step(Step(s, Raise(r), ttl), Tick(later), ttl), Acquire(q), ttl)
    ensures Inv(t, ttl) && q in t.readers && t.readers[q] == Holding(s.readers[r].entry, false)
    ensures t.log == s.log + [Raised(s.readers[r].entry, s.now)] && t.now == later
  {
    StepKeepsInv(s, Raise(r), ttl);
    var t2 := Step(Step(s, Raise(r), ttl), Tick(later), ttl);
    StepKeepsInv(Step(s, Raise(r), ttl), Tick(later), ttl);
    t := Step(t2, Acquire(q), ttl);
    StepKeepsInv(t2, Acquire(q), ttl);
  }

  /** A fetch that raises, forced or not, leaves the next unforced reader of its entry where it would have been
      without that fetch: it fetches, however soon, exactly when no earlier fetch that returned is still alive. */
  lemma {:induction false} RaisedFetchIsNotRemembered(s: State, ttl: real, r: nat, q: nat, later: real)
    requires Inv(s, ttl) && IsFetching(s, r) && later >= s.now
    requires q in s.readers && s.readers[q] == Waiting(s.readers[r].entry, false)
    ensures var e := s.readers[r].entry;
      var latest, log := Latest(s.log, e), After(Step(s, Raise(r), ttl), GoesOn(q, later), ttl).log;
      if latest.None? || later >= latest.value.0 + Life(ttl, latest.value.1)
      then log == s.log + [Raised(e, s.now), Started(e, later, false)]
      else log == s.log + [Raised(e, s.now), Served(e, later, latest.value.1)]
  {
    var t := RaisedThenHolding(s, ttl, r, q, later);
    LatestAppended(s.log, Raised(s.readers[r].entry, s.now), s.readers[r].entry);
    CheckDecides(t, ttl, q);
    AfterThree(Step(s, Raise(r), ttl), Tick(later), Acquire(q), Check(q), ttl);
  }

  lemma {:induction false} RunExtended(trace: seq<State>, acts: seq<Action>, ttl: real, a: Action, t: State)
    requires IsRun(trace, acts, ttl) && InRange(trace[|trace| - 1]) && t == Step(trace[|trace| - 1], a, ttl)
    ensures IsRun(trace + [t], acts + [a], ttl)
  {
    var start :| trace[0] == Initial(start);
    assert (trace + [t])[0] == Initial(start);
  }

  /** A first reader of a key starts to fetch. */
  lemma {:induction false} FirstFetch(ttl: real, key: string) returns (trace: seq<State>, acts: seq<Action>)
    ensures IsRun(trace, acts, ttl) && Clear !in acts
    ensures trace[|trace| - 1] == State(0.0, [Entry(key, None, 0.0, Some(1))], map[key := 0],
                                        map[1 := Fetching(0, false)], [Started(0, 0.0, false)])
  {
    var s0 := Initial(0.0);
    trace, acts := [s0], [];
    assert IsRun(trace, acts, ttl);
    var s1 := State(0.0, [Entry(key, None, 0.0, None)], map[key := 0], map[1 := Waiting(0, false)], []);
    RunExtended(trace, acts, ttl, Request(1, key, false), s1);
    trace, acts := trace + [s1], acts + [Request(1, key, false)];
    var s2 := s1.(entries := [Entry(key, None, 0.0, Some(1))], readers := map[1 := Holding(0, false)]);
    RunExtended(trace, acts, ttl, Acquire(1), s2);
    trace, acts := trace + [s2], acts + [Acquire(1)];
    var s3 := s2.(readers := map[1 := Fetching(0, false)], log := [Started(0, 0.0, false)]);
    RunExtended(trace, acts, ttl, Check(1), s3);
    trace, acts := trace + [s3], acts + [Check(1)];
  }

  /** The cache is cleared under it, and a second reader of the key gets an entry of its own. */
  lemma {:induction false} ClearedUnderway(ttl: real, key: string) returns (trace: seq<State>, acts: seq<Action>)
    ensures IsRun(trace, acts, ttl)
    ensures trace[|trace| - 1] ==
      State(0.0, [Entry(key, None, 0.0, Some(1)), Entry(key, None, 0.0, None)], map[key := 1],
            map[1 := Fetching(0, false)][2 := Waiting(1, false)], [Started(0, 0.0, false)])
  {
    trace, acts := FirstFetch(ttl, key);
    var s4 := trace[|trace| - 1].(cache := map[]);
    RunExtended(trace, acts, ttl, Clear, s4);
    trace, acts := trace + [s4], acts + [Clear];
    var s5 := s4.(entries := s4.entries + [Entry(key, None, 0.0, None)], cache := map[key := 1],
                  readers := s4.readers[2 := Waiting(1, false)]);
    RunExtended(trace, acts, ttl, Request(2, key, false), s5);
    trace, acts := trace + [s5], acts + [Request(2, key, false)];
  }

  /** The fetch raises, and a second reader asks for the same key. */
  lemma {:induction false} RaisedUnderway(ttl: real, key: string) returns (trace: seq<State>, acts: seq<Action>)
    ensures IsRun(trace, acts, ttl) && Clear !in acts
    ensures trace[|trace| - 1] ==
      State(0.0, [Entry(key, None, 0.0, None)], map[key := 0], map[2 := Waiting(0, false)],
            [Started(0, 0.0, false), Raised(0, 0.0)])
  {
    trace, acts := FirstFetch(ttl, key);
    var s4 := State(0.0, [Entry(key, None, 0.0, None)], map[key := 0], map[], [Started(0, 0.0, false), Raised(0, 0.0)]);
    assert trace[|trace| - 1].readers - {1} == map[];
    RunExtended(trace, acts, ttl, Raise(1), s4);
    trace, acts := trace + [s4], acts + [Raise(1)];
    var s5 := s4.(readers := map[2 := Waiting(0, false)]);
    RunExtended(trace, acts, ttl, Request(2, key, false), s5);
    trace, acts := trace + [s5], acts + [Request(2, key, false)];
  }

  /** A run in which, without force and without a clear, a key is fetched again in the very moment in which
      a fetch for it failed. */
  lemma {:induction false} RaisedFetchIsRepeated(ttl: real, key: string) returns (trace: seq<State>, acts: seq<Action>)
    ensures IsRun(trace, acts, ttl) && Clear !in acts
    ensures trace[|trace| - 1].log == [Started(0, 0.0, false), Raised(0, 0.0), Started(0, 0.0, false)]
  {
    trace, acts := RaisedUnderway(ttl, key);
    var s5 := trace[|trace| - 1];
    var s6 := s5.(entries := [Entry(key, None, 0.0, Some(2))], readers := map[2 := Holding(0, false)]);
    RunExtended(trace, acts, ttl, Acquire(2), s6);
    trace, acts := trace + [s6], acts + [Acquire(2)];
    var s7 := s6.(readers := map[2 := Fetching(0, false)], log := s6.log + [Started(0, 0.0, false)]);
    RunExtended(trace, acts, ttl, Check(2), s7);
    trace, acts := trace + [s7], acts + [Check(2)];
  }

  /** Clearing the cache while a reader is fetching lets a second reader fetch the same key beside it. */
  lemma {:induction false} ClearAllowsTwoFetches(ttl: real, key: string) returns (trace: seq<State>, acts: seq<Action>)
    ensures IsRun(trace, acts, ttl)
    ensures var s := trace[|trace| - 1];
      && InRange(s) && IsFetching(s, 1) && IsFetching(s, 2)
      && s.entries[s.readers[1].entry].key == key == s.entries[s.readers[2].entry].key
  {
    trace, acts := ClearedUnderway(ttl, key);
    var s5 := trace[|trace| - 1];
    var s6 := s5.(entries := [s5.entries[0], Entry(key, None, 0.0, Some(2))],
                  readers := s5.readers[2 := Holding(1, false)]);
    RunExtended(trace, acts, ttl, Acquire(2), s6);
    trace, acts := trace + [s6], acts + [Acquire(2)];
    var s7 := s6.(readers := s6.readers[2 := Fetching(1, false)], log := s6.log + [Started(1, 0.0, false)]);
    RunExtended(trace, acts, ttl, Check(2), s7);
    trace, acts := trace + [s7], acts + [Check(2)];
  }

  /** A moment at which nothing stored in the entry is fresh any more. */
  function Later(s: State, e: nat): (at: real)
    requires e < |s.entries|
    ensures at >= s.now && at >= s.entries[e].expires
  {
    if s.entries[e].expires > s.now then s.entries[e].expires else s.now
  }

  /** Reader `f` is fetching in `t`, and nothing has moved in between but readers of this entry. */
  ghost predicate LedToFetch(s: State, t: State, e: nat, f: nat) {
    && IsFetching(t, f) && f in s.readers && t.readers[f].entry == e
    && t.readers.Keys == s.readers.Keys && t.cache == s.cache
    && |t.entries| == |s.entries| && forall d :: 0 <= d < |s.entries| ==> t.entries[d].key == s.entries[d].key
  }

  lemma {:induction false} WaiterFetches(s: State, ttl: real, r: nat)
    requires Inv(s, ttl) && r in s.readers && s.readers[r].Waiting? && s.entries[s.readers[r].entry].holder.None?
    ensures LedToFetch(s, After(s, GoesOn(r, Later(s, s.readers[r].entry)), ttl), s.readers[r].entry, r)
  {
    AfterThree(s, Tick(Later(s, s.readers[r].entry)), Acquire(r), Check(r), ttl);
  }

  lemma {:induction false} HolderFetches(s: State, ttl: real, r: nat)
    requires Inv(s, ttl) && r in s.readers && s.readers[r].Holding?
    ensures LedToFetch(s, After(s, GoesOn(r, Later(s, s.readers[r].entry)), ttl), s.readers[r].entry, r)
  {
    AfterThree(s, Tick(Later(s, s.readers[r].entry)), Acquire(r), Check(r), ttl);
  }

  /** Any reader can be led to where someone is fetching from its entry. */
  lemma {:induction false} SomeoneFetches(s: State, ttl: real, r: nat) returns (acts: seq<Action>, f: nat)
    requires Inv(s, ttl) && r in s.readers
    ensures Clear !in acts
    ensures LedToFetch(s, After(s, acts, ttl), s.readers[r].entry, f)
  {
    var e := s.readers[r].entry;
    if s.entries[e].holder.None? {
      acts, f := GoesOn(r, Later(s, e)), r;
      WaiterFetches(s, ttl, r);
    } else {
      f := s.entries[e].holder.value;
      if s.readers[f].Fetching? {
        acts := [];
      } else {
        acts := GoesOn(f, Later(s, e));
        HolderFetches(s, ttl, f);
      }
    }
  }

  lemma {:induction false} NewcomerFetches(s: State, ttl: real, q: nat, key: string)
    requires Inv(s, ttl) && q !in s.readers && key !in s.cache
    ensures var t := After(s, [Request(q, key, false), Acquire(q), Check(q)], ttl);
      && IsFetching(t, q) && t.readers[q].entry == |s.entries| && t.entries[|s.entries|].key == key
      && (forall r :: r in s.readers ==> r in t.readers && t.readers[r] == s.readers[r])
      && (forall e :: 0 <= e < |s.entries| ==> t.entries[e] == s.entries[e])
  {
    AfterThree(s, Request(q, key, false), Acquire(q), Check(q), ttl);
  }

  /** From any consistent state: if the cache is cleared while somebody, at whatever stage, uses an entry of
      a key, then a newcomer can be made to fetch that key beside another reader. */
  lemma {:induction false} ClearMeetsReader(s: State, ttl: real, r: nat, q: nat)
    returns (acts: seq<Action>, f: nat)
    requires Inv(s, ttl) && r in s.readers && q !in s.readers
    ensures Clear !in acts
    ensures var key, t := s.entries[s.readers[r].entry].key, After(Step(s, Clear, ttl), acts, ttl);
      && f != q && IsFetching(t, f) && IsFetching(t, q)
      && t.entries[t.readers[f].entry].key == key == t.entries[t.readers[q].entry].key
  {
    var e := s.readers[r].entry;
    var key, s1 := s.entries[e].key, Step(s, Clear, ttl);
    StepKeepsInv(s, Clear, ttl);
    var before;
    before, f := SomeoneFetches(s1, ttl, r);
    var s2 := After(s1, before, ttl);
    AfterInv(s1, before, ttl);
    var joins := [Request(q, key, false), Acquire(q), Check(q)];
    NewcomerFetches(s2, ttl, q, key);
    acts := before + joins;
    AfterBoth(s1, before, joins, ttl);
  }

  // ---- a clear before both fetches, that met a reader ----

  lemma {:induction false} AfterOneMore(s: State, acts: seq<Action>, a: Action, ttl: real)
    requires InRange(s)
    ensures After(s, acts + [a], ttl) == Step(After(s, acts, ttl), a, ttl)
  {
    assert (acts + [a])[..|acts|] == acts;
  }

  /** A first reader has asked for a key, the cache has been cleared, and a second reader has asked too. */
  lemma {:induction false} LeftBehind(ttl: real, key: string) returns (t: State, acts: seq<Action>)
    ensures acts == [Request(1, key, false), Clear, Request(2, key, false)]
    ensures t == After(Initial(0.0), acts, ttl)
    ensures t == State(0.0, [Entry(key, None, 0.0, None), Entry(key, None, 0.0, None)], map[key := 1],
                       map[1 := Waiting(0, false)][2 := Waiting(1, false)], [])
  {
    acts := [Request(1, key, false), Clear, Request(2, key, false)];
    AfterThree(Initial(0.0), acts[0], acts[1], acts[2], ttl);
    var s1 := State(0.0, [Entry(key, None, 0.0, None)], map[key := 0], map[1 := Waiting(0, false)], []);
    assert Step(Initial(0.0), acts[0], ttl) == s1;
    var s2 := s1.(cache := map[]);
    assert Step(s1, Clear, ttl) == s2;
    t := State(0.0, s2.entries + [Entry(key, None, 0.0, None)], map[key := 1], s2.readers[2 := Waiting(1, false)], []);
    assert s2.cache[key := 1] == map[key := 1];
    assert Step(s2, acts[2], ttl) == t;
  }

  /** The second reader fetches. */
  lemma {:induction false} SecondFetched(s: State, ttl: real, key: string, v: Payload) returns (t: State)
    requires s == State(0.0, [Entry(key, None, 0.0, None), Entry(key, None, 0.0, None)], map[key := 1],
                        map[1 := Waiting(0, false)][2 := Waiting(1, false)], [])
    ensures t == After(s, [Acquire(2), Check(2), Finish(2, v)], ttl)
    ensures t.now == 0.0 && |t.entries| == 2 && t.entries[0] == Entry(key, None, 0.0, None) && t.entries[1].key == key
    ensures t.readers == map[1 := Waiting(0, false)] && t.log == [Started(1, 0.0, false), Finished(1, 0.0, v)]
  {
    AfterThree(s, Acquire(2), Check(2), Finish(2, v), ttl);
    var s1 := s.(entries := s.entries[1 := Entry(key, None, 0.0, Some(2))],
                 readers := s.readers[2 := Holding(1, false)]);
    assert Step(s, Acquire(2), ttl) == s1;
    var s2 := s1.(readers := s1.readers[2 := Fetching(1, false)], log := [Started(1, 0.0, false)]);
    assert Step(s1, Check(2), ttl) == s2;
    t := Step(s2, Finish(2, v), ttl);
    assert s2.readers - {2} == map[1 := Waiting(0, false)];
  }

  lemma {:induction false} AfterTwo(s: State, a: Action, b: Action, ttl: real)
    requires InRange(s)
    ensures After(s, [a, b], ttl) == Step(Step(s, a, ttl), b, ttl)
  {
    assert [a, b][..1] == [a] && [a][..0] == [];
    assert After(s, [a], ttl) == Step(After(s, [], ttl), a, ttl);
  }

  /** The first reader goes on, on its own entry. */
  lemma {:induction false} FirstFetchesToo(s: State, ttl: real) returns (t: State)
    requires InRange(s) && s.entries != [] && s.readers == map[1 := Waiting(0, false)] && s.now == 0.0
    requires s.entries[0].holder == None && s.entries[0].value == None
    ensures t == After(s, [Acquire(1), Check(1)], ttl)
    ensures t.log == s.log + [Started(0, 0.0, false)]
    ensures |t.entries| == |s.entries| && forall e :: 0 <= e < |s.entries| ==> t.entries[e].key == s.entries[e].key
  {
    AfterTwo(s, Acquire(1), Check(1), ttl);
    t := Step(Step(s, Acquire(1), ttl), Check(1), ttl);
  }

  /** The condition of `FetchesOfKeyAreSpaced` is needed: in this run there is one clear, before either fetch
      began, but it met a reader, and the key is fetched twice in one moment although the first fetch returned. */
  lemma {:induction false} EarlierClearSpoilsSpacing(ttl: real, key: string, v: Payload)
    returns (t: State, acts: seq<Action>)
    ensures acts == [Request(1, key, false), Clear, Request(2, key, false), Acquire(2), Check(2), Finish(2, v),
                     Acquire(1), Check(1)]
    ensures t == After(Initial(0.0), acts, ttl)
    ensures t.log == [Started(1, 0.0, false), Finished(1, 0.0, v), Started(0, 0.0, false)]
    ensures |t.entries| == 2 && t.entries[0].key == key == t.entries[1].key
  {
    var s1, first := LeftBehind(ttl, key);
    var second, third := [Acquire(2), Check(2), Finish(2, v)], [Acquire(1), Check(1)];
    var s2 := SecondFetched(s1, ttl, key, v);
    t := FirstFetchesToo(s2, ttl);
    acts := first + (second + third);
    AfterBoth(Initial(0.0), first, second + third, ttl);
    AfterBoth(s1, second, third, ttl);
  }
}

/**
 The sliding-window limiter on public writes (apps/api/app/utils/ratelimit.py).

 The limiter prunes old hits and forgets idle keys. Its reference is a limiter that keeps every
 accepted hit forever.
 */
module RateLimiter {

  datatype Hit = Hit(key: string, at: real)

  const MAX_KEYS := 10_000

  // ---- the reference: nothing is ever forgotten ----

  /** How many accepted hits of this key are younger than the window at time `now`. */
  function InWindow(history: seq<Hit>, key: string, now: real, window: real): nat {
    if history == [] then 0
    else
      var h := history[|history| - 1];
      InWindow(history[..|history| - 1], key, now, window) + (if h.key == key && now - h.at < window then 1 else 0)
  }

  /** Every hit was accepted because fewer than `limit` of its key were in the window before it,
      and the clock never ran backwards. */
  ghost predicate AcceptedByRule(history: seq<Hit>, limit: int, window: real) {
    && (forall i :: 0 <= i < |history| ==>
         InWindow(history[..i], history[i].key, history[i].at, window) < limit)
    && Ordered(history)
  }

  ghost predicate Ordered(history: seq<Hit>) {
    forall i, j :: 0 <= i <= j < |history| ==> history[i].at <= history[j].at
  }

  /** Hits of one key in the half-open interval from `start`, `window` long. */
  function InInterval(history: seq<Hit>, key: string, start: real, window: real): nat {
    if history == [] then 0
    else
      var h := history[|history| - 1];
      InInterval(history[..|history| - 1], key, start, window)
      + (if h.key == key && start <= h.at < start + window then 1 else 0)
  }

  /** Whatever the interval, no more than `limit` hits of a key are accepted within one window length. */
  lemma {:induction false} AnyWindowHoldsAtMostLimit(
      history: seq<Hit>, key: string, start: real, limit: int, window: real)
    requires AcceptedByRule(history, limit, window)
    ensures InInterval(history, key, start, window) <= if limit > 0 then limit else 0
  {
    if history != [] {
      var n := |history| - 1;
      var h := history[n];
      assert InWindow(history[..n], h.key, h.at, window) < limit;
      PrefixAccepted(history, n, limit, window);
      AnyWindowHoldsAtMostLimit(history[..n], key, start, limit, window);
      if h.key == key && start <= h.at < start + window {
        IntervalIsInWindow(history[..n], key, start, h.at, window);
      }
    }
  }

  lemma {:induction false} PrefixAccepted(history: seq<Hit>, n: nat, limit: int, window: real)
    requires AcceptedByRule(history, limit, window) && n <= |history|
    ensures AcceptedByRule(history[..n], limit, window)
  {
    forall i | 0 <= i < n ensures InWindow(history[..n][..i], history[..n][i].key, history[..n][i].at, window) < limit {
      assert history[..n][..i] == history[..i];
    }
  }

  lemma {:induction false} IntervalIsInWindow(history: seq<Hit>, key: string, start: real, now: real, window: real)
    requires start <= now < start + window
    ensures InInterval(history, key, start, window) <= InWindow(history, key, now, window)
  {
    if history != [] {
      IntervalIsInWindow(history[..|history| - 1], key, start, now, window);
    }
  }

  // ---- one key's queue against the history ----

  function TimesOf(history: seq<Hit>, key: string): seq<real> {
    if history == [] then []
    else
      var h := history[|history| - 1];
      TimesOf(history[..|history| - 1], key) + (if h.key == key then [h.at] else [])
  }

  function Younger(times: seq<real>, now: real, window: real): nat {
    if times == [] then 0
    else
      Younger(times[..|times| - 1], now, window) + (if now - times[|times| - 1] < window then 1 else 0)
  }

  lemma {:induction false} InWindowCountsTimes(history: seq<Hit>, key: string, now: real, window: real)
    ensures InWindow(history, key, now, window) == Younger(TimesOf(history, key), now, window)
  {
    if history != [] {
      var n := |history| - 1;
      InWindowCountsTimes(history[..n], key, now, window);
      var ts, h := TimesOf(history[..n], key), history[n];
      if h.key == key {
        assert TimesOf(history, key) == ts + [h.at];
        assert (ts + [h.at])[..|ts|] == ts;
      } else {
        assert TimesOf(history, key) == ts + [] == ts;
      }
    }
  }

  lemma {:induction false} YoungerSplit(a: seq<real>, b: seq<real>, now: real, window: real)
    requires forall i :: 0 <= i < |a| ==> now - a[i] >= window
    requires forall i :: 0 <= i < |b| ==> now - b[i] < window
    ensures Younger(a + b, now, window) == |b|
  {
    if b != [] {
      YoungerSplit(a, b[..|b| - 1], now, window);
      assert (a + b)[..|a + b| - 1] == a + b[..|b| - 1];
    } else if a != [] {
      YoungerSplit(a[..|a| - 1], [], now, window);
      assert (a + b)[..|a| - 1] == a[..|a| - 1] + [];
    }
  }

  ghost predicate Ascending(ts: seq<real>) {
    forall i, j :: 0 <= i <= j < |ts| ==> ts[i] <= ts[j]
  }

  lemma {:induction false} TimesBounded(history: seq<Hit>, key: string, bound: real)
    requires forall i :: 0 <= i < |history| ==> history[i].at <= bound
    ensures forall i :: 0 <= i < |TimesOf(history, key)| ==> TimesOf(history, key)[i] <= bound
  {
    if history != [] {
      TimesBounded(history[..|history| - 1], key, bound);
    }
  }

  lemma {:induction false} TimesAreOrdered(history: seq<Hit>, key: string)
    requires Ordered(history)
    ensures Ascending(TimesOf(history, key))
  {
    if history != [] {
      var n := |history| - 1;
      TimesAreOrdered(history[..n], key);
      TimesBounded(history[..n], key, history[n].at);
    }
  }

  /** `queue` is what is left of a key's accepted hits after dropping only ones that have left the window. */
  ghost predicate Represents(queue: seq<real>, times: seq<real>, now: real, window: real) {
    |queue| <= |times|
    && var cut := |times| - |queue|;
    && queue == times[cut..]
    && forall i :: 0 <= i < cut ==> now - times[i] >= window
  }

  lemma {:induction false} RepresentsLater(queue: seq<real>, times: seq<real>, now: real, later: real, window: real)
    requires Represents(queue, times, now, window) && now <= later
    ensures Represents(queue, times, later, window)
  {
  }

  // ---- the limiter ----

  function Stored(hits: map<string, seq<real>>, key: string): seq<real> {
    if key in hits then hits[key] else []
  }

  predicate Idle(queue: seq<real>, now: real, window: real) {
    queue == [] || now - queue[|queue| - 1] >= window
  }

  /** The stored queues against the whole history, at the time of the last call. */
  ghost predicate Agrees(hits: map<string, seq<real>>, history: seq<Hit>, now: real, window: real) {
    forall key :: Represents(Stored(hits, key), TimesOf(history, key), now, window)
  }

  /** A queue without the hits at its front that have left the window. */
  function Pruned(q: seq<real>, now: real, window: real): seq<real> {
    if q == [] then []
    else
      var n := |q| - 1;
      var kept := Pruned(q[..n], now, window);
      if kept != [] then kept + [q[n]]
      else if now - q[n] < window then [q[n]]
      else []
  }

  /** An old hit at the front goes. */
  lemma {:induction false} PrunedFront(q: seq<real>, now: real, window: real)
    requires q != [] && now - q[0] >= window
    ensures Pruned(q, now, window) == Pruned(q[1..], now, window)
  {
    var n := |q| - 1;
    if n > 0 {
      PrunedFront(q[..n], now, window);
      assert q[..n][1..] == q[1..][..n - 1];
    }
  }

  /** Behind a young one everything stays. */
  lemma {:induction false} NothingPruned(q: seq<real>, now: real, window: real)
    requires q == [] || now - q[0] < window
    ensures Pruned(q, now, window) == q
  {
    if |q| > 1 {
      NothingPruned(q[..|q| - 1], now, window);
    }
  }

  function Swept(hits: map<string, seq<real>>, now: real, window: real): map<string, seq<real>> {
    map key | key in hits && !Idle(hits[key], now, window) :: hits[key]
  }

  /** `allow`: the answer is yes exactly when the pruned queue is shorter than the limit. */
  predicate Accepts(hits: map<string, seq<real>>, key: string, now: real, limit: int, window: real) {
    |Pruned(Stored(hits, key), now, window)| < limit
  }

  function Next(hits: map<string, seq<real>>, key: string, now: real, limit: int, window: real)
    : map<string, seq<real>>
  {
    var q := Pruned(Stored(hits, key), now, window);
    if !Accepts(hits, key, now, limit, window) then hits[key := q]
    else
      var more := hits[key := q + [now]];
      if |more| > MAX_KEYS then Swept(more, now, window) else more
  }

  class SlidingWindowLimiter {
    const limit: int
    const window: real
    var hits: map<string, seq<real>>

    ghost var history: seq<Hit>
    ghost var clock: real

    ghost predicate Valid()
      reads this
    {
      Refines(hits, history, clock, limit, window)
    }

    constructor (limit: int, window: real, ghost start: real)
      ensures Valid() && history == [] && clock == start
      ensures this.limit == limit && this.window == window
    {
      this.limit, this.window := limit, window;
      hits, history, clock := map[], [], start;
    }

    /** Under a clock that does not run backwards, the answer is that of a limiter with an unbounded memory. */
    method Allow(key: string, now: real) returns (ok: bool)
      modifies this
      ensures ok <==> Accepts(old(hits), key, now, limit, window)
      ensures hits == Next(old(hits), key, now, limit, window)
      ensures history == old(history) + (if ok then [Hit(key, now)] else []) && clock == now
      ensures old(Valid()) && old(clock) <= now ==>
        Valid() && (ok <==> InWindow(old(history), key, now, window) < limit)
    {
      if Valid() && clock <= now {
        NextRefines(hits, history, clock, key, now, limit, window);
      }
      ok := Admit(key, now);
      history, clock := history + (if ok then [Hit(key, now)] else []), now;
    }

    /** What happens while the lock is held. */
    method Admit(key: string, now: real) returns (ok: bool)
      modifies this`hits
      ensures ok <==> Accepts(old(hits), key, now, limit, window)
      ensures hits == Next(old(hits), key, now, limit, window)
    {
      var q := Prune(key, now);
      if |q| >= limit {
        return false;
      }
      hits := hits[key := q + [now]];
      assert hits == old(hits)[key := q + [now]];
      if |hits| > MAX_KEYS {
        Sweep(now);
      }
      return true;
    }

    /** Make sure the key has a queue and drop its hits that have left the window. */
    method Prune(key: string, now: real) returns (q: seq<real>)
      modifies this`hits
      ensures q == Pruned(Stored(old(hits), key), now, window)
      ensures hits == old(hits)[key := q]
    {
      q := Stored(hits, key);
      while q != [] && now - q[0] >= window
        invariant Pruned(q, now, window) == Pruned(Stored(hits, key), now, window)
        invariant hits == old(hits)
        decreases |q|
      {
        PrunedFront(q, now, window);
        q := q[1..];
      }
      NothingPruned(q, now, window);
      hits := hits[key := q];
    }

    /** Forget the keys whose last hit has left the window. */
    method Sweep(now: real)
      modifies this`hits
      ensures hits == Swept(old(hits), now, window)
    {
      var idle := set key | key in hits && Idle(hits[key], now, window);
      ghost var all := hits;
      while idle != {}
        invariant idle <= hits.Keys
        invariant forall key :: key in hits ==> key in all && hits[key] == all[key]
        invariant forall key :: key in all && key !in hits ==> Idle(all[key], now, window)
        invariant forall key :: key in hits && Idle(hits[key], now, window) ==> key in idle
        invariant forall key :: key in idle ==> Idle(hits[key], now, window)
        decreases idle
      {
        var k :| k in idle;
        hits := hits - {k};
        idle := idle - {k};
      }
      assert hits == Swept(all, now, window);
    }
  }

  // ---- the limiter against the history ----

  /** The stored queues are what is left of a history of rightly accepted hits, at the time of the last call. */
  ghost predicate Refines(hits: map<string, seq<real>>, history: seq<Hit>, clock: real, limit: int, window: real) {
    && AcceptedByRule(history, limit, window)
    && (forall i :: 0 <= i < |history| ==> history[i].at <= clock)
    && Agrees(hits, history, clock, window)
  }

  lemma {:induction false} PrunedRepresents(q: seq<real>, times: seq<real>, now: real, window: real)
    requires Represents(q, times, now, window)
    ensures var p := Pruned(q, now, window);
      Represents(p, times, now, window) && (p == [] || now - p[0] < window)
  {
    if q != [] && now - q[0] >= window {
      var cut := |times| - |q|;
      assert times[cut] == q[0];
      PrunedFront(q, now, window);
      PrunedRepresents(q[1..], times, now, window);
    } else {
      NothingPruned(q, now, window);
    }
  }

  /** Pruning one queue at a later time, and what is then left of it. */
  lemma {:induction false} PruningRefines(
      hits: map<string, seq<real>>, history: seq<Hit>, clock: real, key: string, now: real, limit: int, window: real)
    requires Refines(hits, history, clock, limit, window) && clock <= now
    ensures var q := Pruned(Stored(hits, key), now, window);
      && |q| == InWindow(history, key, now, window)
      && Represents(q, TimesOf(history, key), now, window)
      && Refines(hits[key := q], history, now, limit, window)
  {
    LaterAgrees(hits, history, clock, now, window);
    var q := Pruned(Stored(hits, key), now, window);
    PrunedRepresents(Stored(hits, key), TimesOf(history, key), now, window);
    QueueIsWindow(q, history, key, now, window);
    forall k ensures Represents(Stored(hits[key := q], k), TimesOf(history, k), now, window) {
      assert Represents(Stored(hits, k), TimesOf(history, k), now, window);
    }
  }

  lemma {:induction false} AppendRefines(
      hits: map<string, seq<real>>, q: seq<real>, history: seq<Hit>, key: string, now: real, limit: int, window: real)
    requires Refines(hits[key := q], history, now, limit, window)
    requires Represents(q, TimesOf(history, key), now, window)
    requires InWindow(history, key, now, window) < limit
    ensures Refines(hits[key := q + [now]], history + [Hit(key, now)], now, limit, window)
  {
    var more := hits[key := q + [now]];
    assert more[key][..|q|] == q;
    forall k | k != key ensures Represents(Stored(more, k), TimesOf(history, k), now, window) {
      assert Represents(Stored(hits[key := q], k), TimesOf(history, k), now, window);
    }
    AppendAgrees(more, history, key, now, window);
    AppendIsAccepted(history, key, now, limit, window);
  }

  lemma {:induction false} SweptRefines(
      hits: map<string, seq<real>>, history: seq<Hit>, now: real, limit: int, window: real)
    requires Refines(hits, history, now, limit, window)
    ensures Refines(Swept(hits, now, window), history, now, limit, window)
  {
    ForgettingIsSafe(hits, history, now, window);
  }

  /** From a state that refines the history, at a time that is not before the last call, the answer is the one
      the whole history gives, and the next state refines the next history. */
  lemma {:induction false} NextRefines(
      hits: map<string, seq<real>>, history: seq<Hit>, clock: real, key: string, now: real, limit: int, window: real)
    requires Refines(hits, history, clock, limit, window) && clock <= now
    ensures var ok := Accepts(hits, key, now, limit, window);
      && (ok <==> InWindow(history, key, now, window) < limit)
      && Refines(Next(hits, key, now, limit, window), history + (if ok then [Hit(key, now)] else []),
                 now, limit, window)
  {
    PruningRefines(hits, history, clock, key, now, limit, window);
    var q := Pruned(Stored(hits, key), now, window);
    if |q| < limit {
      var more := hits[key := q + [now]];
      AppendRefines(hits, q, history, key, now, limit, window);
      SweptRefines(more, history + [Hit(key, now)], now, limit, window);
    } else {
      assert history + [] == history;
    }
  }

  // ---- runs of calls, at any times ----

  /** What the limiter stores, beside the accepted hits it has seen. */
  datatype Memory = Memory(hits: map<string, seq<real>>, history: seq<Hit>)

  const EMPTY := Memory(map[], [])

  function Called(m: Memory, h: Hit, limit: int, window: real): Memory {
    Memory(Next(m.hits, h.key, h.at, limit, window),
           m.history + if Accepts(m.hits, h.key, h.at, limit, window) then [h] else [])
  }

  function After(m: Memory, calls: seq<Hit>, limit: int, window: real): Memory {
    if calls == [] then m
    else Called(After(m, calls[..|calls| - 1], limit, window), calls[|calls| - 1], limit, window)
  }

  /** The limiter answers as one with an unbounded memory would. */
  predicate Agreeing(m: Memory, key: string, now: real, limit: int, window: real) {
    Accepts(m.hits, key, now, limit, window) <==> InWindow(m.history, key, now, window) < limit
  }

  lemma {:induction false} AfterOneMore(m: Memory, calls: seq<Hit>, h: Hit, limit: int, window: real)
    ensures After(m, calls + [h], limit, window) == Called(After(m, calls, limit, window), h, limit, window)
  {
    assert (calls + [h])[..|calls|] == calls;
  }

  /** With a limit of nought or less both refuse, whatever was called before and at whatever times. */
  lemma {:induction false} NoLimitAgrees(m: Memory, key: string, now: real, limit: int, window: real)
    requires limit <= 0
    ensures Agreeing(m, key, now, limit, window)
    ensures !Accepts(m.hits, key, now, limit, window)
  {
  }

  // ---- times that never decrease ----

  lemma {:induction false} AfterRefines(
      m: Memory, clock: real, calls: seq<Hit>, now: real, limit: int, window: real)
    requires Refines(m.hits, m.history, clock, limit, window) && clock <= now
    requires Ordered(calls) && forall i :: 0 <= i < |calls| ==> clock <= calls[i].at <= now
    ensures var t := After(m, calls, limit, window);
      Refines(t.hits, t.history, now, limit, window)
  {
    if calls == [] {
      LaterRefines(m.hits, m.history, clock, now, limit, window);
    } else {
      var n := |calls| - 1;
      var h := calls[n];
      AfterRefines(m, clock, calls[..n], h.at, limit, window);
      var s := After(m, calls[..n], limit, window);
      NextRefines(s.hits, s.history, h.at, h.key, h.at, limit, window);
      var t := Called(s, h, limit, window);
      LaterRefines(t.hits, t.history, h.at, now, limit, window);
    }
  }

  /** After calls in order the limiter agrees with one with an unbounded memory about every key. */
  lemma {:induction false} OrderedCallsAgree(calls: seq<Hit>, key: string, now: real, limit: int, window: real)
    requires Ordered(calls) && forall i :: 0 <= i < |calls| ==> calls[i].at <= now
    ensures Agreeing(After(EMPTY, calls, limit, window), key, now, limit, window)
  {
    var start := if calls == [] then now else calls[0].at;
    assert Refines(EMPTY.hits, EMPTY.history, start, limit, window);
    AfterRefines(EMPTY, start, calls, now, limit, window);
    var t := After(EMPTY, calls, limit, window);
    NextRefines(t.hits, t.history, now, key, now, limit, window);
  }

  lemma {:induction false} LaterRefines(
      hits: map<string, seq<real>>, history: seq<Hit>, clock: real, now: real, limit: int, window: real)
    requires Refines(hits, history, clock, limit, window) && clock <= now
    ensures Refines(hits, history, now, limit, window)
  {
    LaterAgrees(hits, history, clock, now, window);
  }

  // ---- a clock that steps back ----

  lemma {:induction false} AllExpired(q: seq<real>, now: real, window: real)
    requires forall i :: 0 <= i < |q| ==> now - q[i] >= window
    ensures Pruned(q, now, window) == []
  {
    if q != [] {
      AllExpired(q[..|q| - 1], now, window);
    }
  }

  lemma {:induction false} InWindowOneMore(history: seq<Hit>, h: Hit, key: string, now: real, window: real)
    ensures InWindow(history + [h], key, now, window)
         == InWindow(history, key, now, window) + if h.key == key && now - h.at < window then 1 else 0
  {
    assert (history + [h])[..|history|] == history;
  }

  /** One accepted hit of a key, whatever else is forgotten with it, and what it counts for at time `now`. */
  lemma {:induction false} OneHit(
      m: Memory, key: string, at: real, q: seq<real>, limit: int, window: real, now: real)
    requires window > 0.0 && Pruned(Stored(m.hits, key), at, window) == q && |q| < limit
    ensures var t := Called(m, Hit(key, at), limit, window);
      && Stored(t.hits, key) == q + [at]
      && InWindow(t.history, key, now, window)
         == InWindow(m.history, key, now, window) + if now - at < window then 1 else 0
  {
    var more := m.hits[key := q + [at]];
    assert !Idle(more[key], at, window);
    InWindowOneMore(m.history, Hit(key, at), key, now, window);
  }

  /** A hit of a key at one time and some more at another. */
  function Burst(key: string, first: real, at: real, n: nat): (calls: seq<Hit>)
    ensures |calls| == n + 1
  {
    if n == 0 then [Hit(key, first)] else Burst(key, first, at, n - 1) + [Hit(key, at)]
  }

  lemma {:induction false} BurstCalls(key: string, first: real, at: real, n: nat)
    ensures Burst(key, first, at, n)[0] == Hit(key, first)
    ensures forall i :: 0 < i <= n ==> Burst(key, first, at, n)[i] == Hit(key, at)
  {
    if n > 0 {
      BurstCalls(key, first, at, n - 1);
    }
  }

  /** The times of these calls. */
  function BurstTimes(first: real, at: real, n: nat): (q: seq<real>)
    ensures |q| == n + 1 && q[0] == first
  {
    if n == 0 then [first] else BurstTimes(first, at, n - 1) + [at]
  }

  lemma {:induction false} BurstExpires(at: real, n: nat, now: real, window: real)
    requires now - at >= window
    ensures Pruned(BurstTimes(at, at, n), now, window) == []
  {
    BurstTimesSame(at, n);
    AllExpired(BurstTimes(at, at, n), now, window);
  }

  lemma {:induction false} BurstTimesSame(at: real, n: nat)
    ensures forall i :: 0 <= i < |BurstTimes(at, at, n)| ==> BurstTimes(at, at, n)[i] == at
  {
    if n > 0 {
      BurstTimesSame(at, n - 1);
    }
  }

  /** `t` is `m` after these hits of the key were accepted. */
  ghost predicate BurstTaken(
      m: Memory, t: Memory, key: string, first: real, at: real, n: nat, window: real, now: real)
  {
    && Stored(t.hits, key) == BurstTimes(first, at, n)
    && InWindow(t.history, key, now, window)
       == InWindow(m.history, key, now, window)
          + (if now - first < window then 1 else 0) + (if now - at < window then n else 0)
  }

  lemma {:induction false} OneMoreTaken(
      m: Memory, s: Memory, key: string, first: real, at: real, n: nat, limit: int, window: real, now: real)
    requires window > 0.0 && at - first < window && n + 1 < limit && BurstTaken(m, s, key, first, at, n, window, now)
    ensures BurstTaken(m, Called(s, Hit(key, at), limit, window), key, first, at, n + 1, window, now)
  {
    NothingPruned(Stored(s.hits, key), at, window);
    OneHit(s, key, at, Stored(s.hits, key), limit, window, now);
  }

  /** What the calls of a burst make of `m`, one after the other. */
  function AfterBurst(m: Memory, key: string, first: real, at: real, n: nat, limit: int, window: real): Memory {
    if n == 0 then Called(m, Hit(key, first), limit, window)
    else Called(AfterBurst(m, key, first, at, n - 1, limit, window), Hit(key, at), limit, window)
  }

  lemma {:induction false} BurstIsRun(
      m: Memory, key: string, first: real, at: real, n: nat, limit: int, window: real)
    ensures After(m, Burst(key, first, at, n), limit, window) == AfterBurst(m, key, first, at, n, limit, window)
  {
    if n == 0 {
      assert Burst(key, first, at, 0)[..0] == [];
    } else {
      BurstIsRun(m, key, first, at, n - 1, limit, window);
      AfterOneMore(m, Burst(key, first, at, n - 1), Hit(key, at), limit, window);
    }
  }

  /** A burst of a key that has nothing stored at its beginning, the first hit of which stays young. */
  lemma {:induction false} BurstIsTaken(
      m: Memory, key: string, first: real, at: real, n: nat, limit: int, window: real, now: real)
    requires window > 0.0 && at - first < window && n < limit
    requires Pruned(Stored(m.hits, key), first, window) == []
    ensures BurstTaken(m, AfterBurst(m, key, first, at, n, limit, window), key, first, at, n, window, now)
  {
    if n == 0 {
      OneHit(m, key, first, [], limit, window, now);
    } else {
      BurstIsTaken(m, key, first, at, n - 1, limit, window, now);
      var s := AfterBurst(m, key, first, at, n - 1, limit, window);
      OneMoreTaken(m, s, key, first, at, n - 1, limit, window, now);
    }
  }

  lemma {:induction false} NothingInWindow(history: seq<Hit>, key: string, now: real, window: real)
    requires forall i :: 0 <= i < |history| ==> now - history[i].at >= window
    ensures InWindow(history, key, now, window) == 0
  {
    if history != [] {
      NothingInWindow(history[..|history| - 1], key, now, window);
    }
  }

  /** From `start` on, the limiter has nothing young stored for this key, and there is nothing young to store. */
  ghost predicate Rested(m: Memory, key: string, start: real, window: real) {
    forall now :: now >= start ==>
      Pruned(Stored(m.hits, key), now, window) == [] && InWindow(m.history, key, now, window) == 0
  }

  /** Every key of every limiter that agrees with its history rests a window after the last call. */
  lemma {:induction false} EveryKeyRests(m: Memory, clock: real, key: string, limit: int, window: real)
    requires Refines(m.hits, m.history, clock, limit, window)
    ensures Rested(m, key, clock + window, window)
  {
    assert Represents(Stored(m.hits, key), TimesOf(m.history, key), clock, window);
    TimesBounded(m.history, key, clock);
    forall now | now >= clock + window
      ensures Pruned(Stored(m.hits, key), now, window) == [] && InWindow(m.history, key, now, window) == 0
    {
      AllExpired(Stored(m.hits, key), now, window);
      NothingInWindow(m.history, key, now, window);
    }
  }

  /** Calls of one key, in order, none before `start`. */
  ghost predicate CallsFrom(calls: seq<Hit>, key: string, start: real) {
    && calls != [] && Ordered(calls)
    && forall i :: 0 <= i < |calls| ==> calls[i].key == key && start <= calls[i].at
  }

  /** Accepted although the limit is reached. */
  predicate WronglyAccepts(m: Memory, key: string, now: real, limit: int, window: real) {
    Accepts(m.hits, key, now, limit, window) && InWindow(m.history, key, now, window) >= limit
  }

  /** Refused although the limit is not reached. */
  predicate WronglyRefuses(m: Memory, key: string, now: real, limit: int, window: real) {
    !Accepts(m.hits, key, now, limit, window) && InWindow(m.history, key, now, window) < limit
  }

  /** A burst to one below the limit, and one more hit when all of it is old. */
  function BurstAndOne(key: string, at: real, limit: int, window: real): (calls: seq<Hit>)
    requires limit >= 2
    ensures |calls| == limit && calls[limit - 1] == Hit(key, at + window)
  {
    Burst(key, at, at, limit - 2) + [Hit(key, at + window)]
  }

  lemma {:induction false} BurstAndOneInOrder(key: string, start: real, at: real, limit: int, window: real)
    requires limit >= 2 && window > 0.0 && start <= at
    ensures CallsFrom(BurstAndOne(key, at, limit, window), key, start)
  {
    BurstCalls(key, at, at, limit - 2);
  }

  lemma {:induction false} LastReplaces(
      m: Memory, s: Memory, key: string, at: real, limit: int, window: real, now: real)
    requires limit >= 2 && window > 0.0 && now < at + window
    requires BurstTaken(m, s, key, at, at, limit - 2, window, now)
    ensures WronglyAccepts(Called(s, Hit(key, at + window), limit, window), key, now, limit, window)
  {
    BurstExpires(at, limit - 2, at + window, window);
    OneHit(s, key, at + window, [], limit, window, now);
  }

  lemma {:induction false} BurstAndOneTaken(
      m: Memory, key: string, at: real, limit: int, window: real, now: real)
    returns (t: Memory)
    requires limit >= 2 && window > 0.0 && Pruned(Stored(m.hits, key), at, window) == [] && now < at + window
    ensures t == After(m, BurstAndOne(key, at, limit, window), limit, window)
    ensures WronglyAccepts(t, key, now, limit, window)
  {
    BurstIsTaken(m, key, at, at, limit - 2, limit, window, now);
    BurstIsRun(m, key, at, at, limit - 2, limit, window);
    AfterOneMore(m, Burst(key, at, at, limit - 2), Hit(key, at + window), limit, window);
    var s := AfterBurst(m, key, at, at, limit - 2, limit, window);
    t := Called(s, Hit(key, at + window), limit, window);
    LastReplaces(m, s, key, at, limit, window, now);
  }

  /** With a limit of two or more, any step back of the clock, however small, can make the limiter accept too
      much: whenever a key has rested there are calls in order after which the next one, that much earlier, is
      accepted although the limit is reached. */
  lemma {:induction false} BackwardsClockForgets(
      m: Memory, key: string, start: real, back: real, limit: int, window: real)
    returns (calls: seq<Hit>, t: Memory)
    requires limit >= 2 && window > 0.0 && back > 0.0 && Rested(m, key, start, window)
    ensures CallsFrom(calls, key, start) && t == After(m, calls, limit, window)
    ensures WronglyAccepts(t, key, calls[|calls| - 1].at - back, limit, window)
  {
    calls := BurstAndOne(key, start, limit, window);
    BurstAndOneInOrder(key, start, start, limit, window);
    t := BurstAndOneTaken(m, key, start, limit, window, start + window - back);
  }

  /** Calls of one key with one step back, from the first to the second, none of them after `end`. */
  ghost predicate OneStepBack(calls: seq<Hit>, key: string, back: real, end: real) {
    && |calls| >= 2 && calls[1].at == calls[0].at - back
    && (forall i :: 0 <= i < |calls| ==> calls[i].key == key && calls[i].at <= end)
    && forall i, j :: 1 <= i <= j < |calls| ==> calls[i].at <= calls[j].at
  }

  lemma {:induction false} BurstStepsBack(key: string, at: real, back: real, n: nat, end: real)
    requires n >= 1 && back > 0.0 && at <= end
    ensures OneStepBack(Burst(key, at, at - back, n), key, back, end)
  {
    BurstCalls(key, at, at - back, n);
  }

  /** A full queue whose first hit is young is not pruned. */
  lemma {:induction false} FullQueueRefuses(
      m: Memory, t: Memory, key: string, at: real, late: real, limit: int, window: real, now: real)
    requires limit >= 2 && BurstTaken(m, t, key, at, late, limit - 1, window, now)
    requires InWindow(m.history, key, now, window) == 0 && now - at < window && now - late >= window
    ensures WronglyRefuses(t, key, now, limit, window)
  {
    NothingPruned(Stored(t.hits, key), now, window);
  }

  lemma {:induction false} LateBurstTaken(
      m: Memory, calls: seq<Hit>, key: string, at: real, late: real, limit: int, window: real, now: real)
    returns (t: Memory)
    requires limit >= 2 && window > 0.0 && late < at && now - at < window && now - late >= window
    requires Pruned(Stored(m.hits, key), at, window) == [] && InWindow(m.history, key, now, window) == 0
    requires calls == Burst(key, at, late, limit - 1)
    ensures t == After(m, calls, limit, window)
    ensures WronglyRefuses(t, key, now, limit, window)
  {
    var n: nat := limit - 1;
    var s := AfterBurst(m, key, at, late, n, limit, window);
    BurstIsTaken(m, key, at, late, n, limit, window, now);
    FullQueueRefuses(m, s, key, at, late, limit, window, now);
    BurstIsRun(m, key, at, late, n, limit, window);
    t := s;
  }

  /** And too little: there are calls with one such step back among them after which a call that is not before
      any of them is refused although the limit is not reached. */
  lemma {:induction false} BackwardsClockRefuses(
      m: Memory, key: string, start: real, back: real, limit: int, window: real)
    returns (calls: seq<Hit>, now: real, t: Memory)
    requires limit >= 2 && window > 0.0 && back > 0.0 && Rested(m, key, start, window)
    ensures OneStepBack(calls, key, back, now) && t == After(m, calls, limit, window)
    ensures WronglyRefuses(t, key, now, limit, window)
  {
    now := start + if back < window then window - back else 0.0;
    calls := Burst(key, start, start - back, limit - 1);
    BurstStepsBack(key, start, back, limit - 1, now);
    t := LateBurstTaken(m, calls, key, start, start - back, limit, window, now);
  }

  /** The first of these in numbers: with two hits a window, hits at nought and one window later; any earlier
      than that both are in the window, but the third hit is accepted. */
  lemma {:induction false} ForgottenInNumbers(window: real, back: real)
    requires window > 0.0 && back > 0.0
    ensures var h1 := Next(map[], "k", 0.0, 2, window);
      var h2 := Next(h1, "k", window, 2, window);
      && Accepts(map[], "k", 0.0, 2, window) && Accepts(h1, "k", window, 2, window)
      && Accepts(h2, "k", window - back, 2, window)
      && InWindow([Hit("k", 0.0), Hit("k", window)], "k", window - back, window) == 2
  {
    var h1, h2 := map["k" := [0.0]], map["k" := [window]];
    assert Stored(map[], "k") == [] && [] + [0.0] == [0.0];
    assert map[]["k" := [0.0]] == h1 && |h1| == 1;
    assert Next(map[], "k", 0.0, 2, window) == h1;
    PrunedOne([0.0], window, window);
    PrunedOne([window], window - back, window);
    assert [] + [window] == [window] && h1["k" := [window]] == h2 && |h2| == 1;
    assert Next(h1, "k", window, 2, window) == h2;
    InWindowOneMore([], Hit("k", 0.0), "k", window - back, window);
    InWindowOneMore([Hit("k", 0.0)], Hit("k", window), "k", window - back, window);
    assert [] + [Hit("k", 0.0)] == [Hit("k", 0.0)];
    assert [Hit("k", 0.0)] + [Hit("k", window)] == [Hit("k", 0.0), Hit("k", window)];
  }

  /** The second in numbers: with two hits a minute, hits at 10 and then at 5 seconds; at 66 seconds only the
      first of them is in the window, but the third hit is refused. */
  lemma {:induction false} RefusedInNumbers()
    ensures var h1 := Next(map[], "k", 10.0, 2, 60.0);
      var h2 := Next(h1, "k", 5.0, 2, 60.0);
      && Accepts(map[], "k", 10.0, 2, 60.0) && Accepts(h1, "k", 5.0, 2, 60.0)
      && !Accepts(h2, "k", 66.0, 2, 60.0)
      && InWindow([Hit("k", 10.0), Hit("k", 5.0)], "k", 66.0, 60.0) == 1
  {
    var h1, h2 := map["k" := [10.0]], map["k" := [10.0, 5.0]];
    assert [] + [10.0] == [10.0] && map[]["k" := [10.0]] == h1 && |h1| == 1;
    assert Next(map[], "k", 10.0, 2, 60.0) == h1;
    assert [10.0] + [5.0] == [10.0, 5.0] && h1["k" := [10.0, 5.0]] == h2 && |h2| == 1;
    assert Next(h1, "k", 5.0, 2, 60.0) == h2;
    var history := [Hit("k", 10.0), Hit("k", 5.0)];
    assert history[..1] == [Hit("k", 10.0)] && history[..1][..0] == [];
    assert InWindow(history[..1], "k", 66.0, 60.0) == 1;
  }

  // ---- a limit of one ----

  /** With a limit of one, as long as nothing was swept, a queue is the latest accepted hit of its key, and the
      accepted hits of a key are in order whatever the clock did. */
  ghost predicate KeepsLatest(m: Memory) {
    forall key :: LatestOnly(Stored(m.hits, key), TimesOf(m.history, key))
  }

  ghost predicate LatestOnly(q: seq<real>, times: seq<real>) {
    Ascending(times) && q == if times == [] then [] else [times[|times| - 1]]
  }

  lemma {:induction false} NoneYounger(times: seq<real>, now: real, window: real)
    requires Ascending(times) && (times == [] || now - times[|times| - 1] >= window)
    ensures Younger(times, now, window) == 0
  {
    if times != [] {
      assert times[..|times| - 1] == [] || times[|times| - 2] <= times[|times| - 1];
      NoneYounger(times[..|times| - 1], now, window);
    }
  }

  lemma {:induction false} PrunedOne(q: seq<real>, now: real, window: real)
    requires |q| <= 1
    ensures Pruned(q, now, window) == if q != [] && now - q[0] >= window then [] else q
  {
    if q != [] {
      assert Pruned(q[..|q| - 1], now, window) == [];
      assert q == [q[0]];
    }
  }

  lemma {:induction false} LatestAgrees(m: Memory, key: string, now: real, window: real)
    requires KeepsLatest(m)
    ensures Agreeing(m, key, now, 1, window)
  {
    var q, times := Stored(m.hits, key), TimesOf(m.history, key);
    assert LatestOnly(q, times);
    InWindowCountsTimes(m.history, key, now, window);
    PrunedOne(q, now, window);
    if times == [] || now - times[|times| - 1] >= window {
      NoneYounger(times, now, window);
    }
  }

  lemma {:induction false} TimesOneMore(history: seq<Hit>, h: Hit, key: string)
    ensures TimesOf(history + [h], key) == TimesOf(history, key) + if h.key == key then [h.at] else []
  {
    assert (history + [h])[..|history|] == history;
  }

  lemma {:induction false} LatestReplaced(q: seq<real>, times: seq<real>, at: real, window: real)
    requires LatestOnly(q, times) && window >= 0.0 && Pruned(q, at, window) == []
    ensures LatestOnly([at], times + [at])
  {
    PrunedOne(q, at, window);
  }

  lemma {:induction false} AcceptedKeepsOne(m: Memory, h: Hit, window: real, key: string)
    requires KeepsLatest(m) && window >= 0.0 && Pruned(Stored(m.hits, h.key), h.at, window) == []
    ensures LatestOnly(Stored(m.hits[h.key := [h.at]], key), TimesOf(m.history + [h], key))
  {
    var q, times := Stored(m.hits, key), TimesOf(m.history, key);
    assert LatestOnly(q, times);
    TimesOneMore(m.history, h, key);
    if key == h.key {
      assert TimesOf(m.history + [h], key) == times + [h.at];
      LatestReplaced(q, times, h.at, window);
    } else {
      assert TimesOf(m.history + [h], key) == times + [] == times;
    }
  }

  lemma {:induction false} AcceptedKeepsLatest(m: Memory, h: Hit, window: real)
    requires KeepsLatest(m) && window >= 0.0 && Pruned(Stored(m.hits, h.key), h.at, window) == []
    ensures KeepsLatest(Memory(m.hits[h.key := [h.at]], m.history + [h]))
  {
    forall key ensures LatestOnly(Stored(m.hits[h.key := [h.at]], key), TimesOf(m.history + [h], key)) {
      AcceptedKeepsOne(m, h, window, key);
    }
  }

  lemma {:induction false} RefusedKeepsLatest(m: Memory, h: Hit)
    requires KeepsLatest(m)
    ensures KeepsLatest(Memory(m.hits[h.key := Stored(m.hits, h.key)], m.history))
  {
    forall key ensures LatestOnly(Stored(m.hits[h.key := Stored(m.hits, h.key)], key), TimesOf(m.history, key)) {
      assert LatestOnly(Stored(m.hits, key), TimesOf(m.history, key));
    }
  }

  lemma {:induction false} CalledKeepsLatest(m: Memory, h: Hit, window: real)
    requires KeepsLatest(m) && window >= 0.0 && |m.hits.Keys + {h.key}| <= MAX_KEYS
    ensures KeepsLatest(Called(m, h, 1, window)) && Called(m, h, 1, window).hits.Keys == m.hits.Keys + {h.key}
  {
    var q := Stored(m.hits, h.key);
    assert LatestOnly(q, TimesOf(m.history, h.key));
    PrunedOne(q, h.at, window);
    if Pruned(q, h.at, window) == [] {
      var more := m.hits[h.key := [h.at]];
      assert [] + [h.at] == [h.at] && more.Keys == m.hits.Keys + {h.key} && |more| == |more.Keys|;
      assert Called(m, h, 1, window) == Memory(more, m.history + [h]);
      AcceptedKeepsLatest(m, h, window);
    } else {
      assert m.history + [] == m.history;
      assert Called(m, h, 1, window) == Memory(m.hits[h.key := q], m.history);
      RefusedKeepsLatest(m, h);
    }
  }

  function KeysOf(calls: seq<Hit>): set<string> {
    set h | h in calls :: h.key
  }

  /** With a limit of one the limiter answers as one with an unbounded memory at any times, forwards or
      backwards, as long as no more keys have called than it keeps. */
  lemma {:induction false} LimitOneAgrees(calls: seq<Hit>, key: string, now: real, window: real)
    requires window >= 0.0 && |KeysOf(calls)| <= MAX_KEYS
    ensures Agreeing(After(EMPTY, calls, 1, window), key, now, 1, window)
  {
    LimitOneKeeps(calls, window);
    LatestAgrees(After(EMPTY, calls, 1, window), key, now, window);
  }

  lemma {:induction false} LimitOneKeeps(calls: seq<Hit>, window: real)
    requires window >= 0.0 && |KeysOf(calls)| <= MAX_KEYS
    ensures KeepsLatest(After(EMPTY, calls, 1, window))
    ensures After(EMPTY, calls, 1, window).hits.Keys == KeysOf(calls)
  {
    if calls != [] {
      var n := |calls| - 1;
      assert calls == calls[..n] + [calls[n]];
      assert KeysOf(calls) == KeysOf(calls[..n]) + {calls[n].key};
      FewerKeys(KeysOf(calls[..n]), KeysOf(calls));
      LimitOneKeeps(calls[..n], window);
      CalledKeepsLatest(After(EMPTY, calls[..n], 1, window), calls[n], window);
    }
  }

  lemma {:induction false} FewerKeys(a: set<string>, b: set<string>)
    requires a <= b
    ensures |a| <= |b|
  {
    assert b == a + (b - a);
  }

  /** A hit of each key, all at the beginning. */
  function OnceEach(keys: seq<string>): seq<Hit> {
    if keys == [] then [] else OnceEach(keys[..|keys| - 1]) + [Hit(keys[|keys| - 1], 0.0)]
  }

  ghost predicate Different(keys: seq<string>) {
    forall i, j :: 0 <= i < j < |keys| ==> keys[i] != keys[j]
  }

  lemma {:induction false} NewClient(m: Memory, key: string, at: real, window: real)
    requires key !in m.hits && |m.hits| < MAX_KEYS
    ensures Called(m, Hit(key, at), 1, window) == Memory(m.hits[key := [at]], m.history + [Hit(key, at)])
  {
    assert [] + [at] == [at];
    assert |m.hits[key := [at]]| == |m.hits| + 1;
  }

  /** The queues of clients that have each called once, at the beginning. */
  ghost predicate OneHitEach(hits: map<string, seq<real>>, keys: seq<string>) {
    && |hits| == |keys| && (keys != [] ==> keys[0] in hits)
    && forall k :: k in hits ==> k in keys && hits[k] == [0.0]
  }

  function AfterEach(keys: seq<string>, window: real): Memory {
    if keys == [] then EMPTY
    else Called(AfterEach(keys[..|keys| - 1], window), Hit(keys[|keys| - 1], 0.0), 1, window)
  }

  lemma {:induction false} EachIsRun(keys: seq<string>, window: real)
    ensures After(EMPTY, OnceEach(keys), 1, window) == AfterEach(keys, window)
  {
    if keys != [] {
      var n := |keys| - 1;
      EachIsRun(keys[..n], window);
      AfterOneMore(EMPTY, OnceEach(keys[..n]), Hit(keys[n], 0.0), 1, window);
    }
  }

  lemma {:induction false} OneKeyMore(hits: map<string, seq<real>>, keys: seq<string>)
    requires keys != [] && Different(keys) && OneHitEach(hits, keys[..|keys| - 1])
    ensures keys[|keys| - 1] !in hits && OneHitEach(hits[keys[|keys| - 1] := [0.0]], keys)
  {
    var n := |keys| - 1;
    assert forall k <- keys[..n] :: k in keys;
    assert keys[n] !in keys[..n];
    assert n > 0 ==> keys[..n][0] == keys[0];
  }

  /** As many clients as are kept, one hit each. */
  lemma {:induction false} EachIsKept(keys: seq<string>, window: real)
    requires |keys| <= MAX_KEYS && Different(keys)
    ensures OneHitEach(AfterEach(keys, window).hits, keys)
    ensures AfterEach(keys, window).history == OnceEach(keys)
  {
    if keys != [] {
      var n := |keys| - 1;
      EachIsKept(keys[..n], window);
      OneKeyMore(AfterEach(keys[..n], window).hits, keys);
      NewClient(AfterEach(keys[..n], window), keys[n], 0.0, window);
    }
  }

  lemma {:induction false} EachInOrder(keys: seq<string>, h: Hit)
    requires h.at >= 0.0
    ensures forall i :: 0 <= i < |OnceEach(keys)| ==> OnceEach(keys)[i].at == 0.0
    ensures keys != [] ==> OnceEach(keys) != [] && OnceEach(keys)[0] == Hit(keys[0], 0.0)
    ensures Ordered(OnceEach(keys) + [h])
  {
    if keys != [] {
      EachInOrder(keys[..|keys| - 1], h);
    }
  }

  /** What the newcomer's call sweeps away. */
  lemma {:induction false} NewcomerSweeps(
      hits: map<string, seq<real>>, keys: seq<string>, key: string, window: real)
    requires window > 0.0 && |keys| == MAX_KEYS && OneHitEach(hits, keys) && key !in hits
    ensures Accepts(hits, key, window, 1, window) && Stored(Next(hits, key, window, 1, window), keys[0]) == []
  {
    var more := hits[key := [window]];
    assert [] + [window] == [window] && |more| == |keys| + 1;
    assert keys[0] in more && Idle(more[keys[0]], window, window);
  }

  lemma {:induction false} NewcomerForgets(m: Memory, keys: seq<string>, key: string, window: real, now: real)
    requires |keys| == MAX_KEYS && key !in keys && window > 0.0 && now < window
    requires OneHitEach(m.hits, keys) && m.history == OnceEach(keys)
    ensures WronglyAccepts(Called(m, Hit(key, window), 1, window), keys[0], now, 1, window)
  {
    NewcomerSweeps(m.hits, keys, key, window);
    EachInOrder(keys, Hit(key, window));
    FirstStays(OnceEach(keys), now, window);
    InWindowOneMore(OnceEach(keys), Hit(key, window), keys[0], now, window);
  }

  /** With a limit of one and one client more than are kept, a sweep forgets a hit that any step back of the
      clock, however small, brings into the window again. */
  lemma {:induction false} SweepForgets(keys: seq<string>, key: string, window: real, back: real)
    returns (t: Memory)
    requires |keys| == MAX_KEYS && Different(keys) && key !in keys && window > 0.0 && back > 0.0
    ensures Ordered(OnceEach(keys) + [Hit(key, window)])
    ensures t == After(EMPTY, OnceEach(keys) + [Hit(key, window)], 1, window)
    ensures WronglyAccepts(t, keys[0], window - back, 1, window)
  {
    EachInOrder(keys, Hit(key, window));
    t := NewcomerForgotten(keys, key, window, window - back);
    EachAndOneIsRun(keys, Hit(key, window), window);
  }

  lemma {:induction false} NewcomerForgotten(keys: seq<string>, key: string, window: real, now: real)
    returns (t: Memory)
    requires |keys| == MAX_KEYS && Different(keys) && key !in keys && window > 0.0 && now < window
    ensures t == Called(AfterEach(keys, window), Hit(key, window), 1, window)
    ensures WronglyAccepts(t, keys[0], now, 1, window)
  {
    EachIsKept(keys, window);
    t := Called(AfterEach(keys, window), Hit(key, window), 1, window);
    NewcomerForgets(AfterEach(keys, window), keys, key, window, now);
  }

  lemma {:induction false} EachAndOneIsRun(keys: seq<string>, h: Hit, window: real)
    ensures After(EMPTY, OnceEach(keys) + [h], 1, window) == Called(AfterEach(keys, window), h, 1, window)
  {
    EachIsRun(keys, window);
    AfterOneMore(EMPTY, OnceEach(keys), h, 1, window);
  }

  lemma {:induction false} FirstStays(history: seq<Hit>, now: real, window: real)
    requires history != [] && now - history[0].at < window
    ensures InWindow(history, history[0].key, now, window) >= 1
  {
    if |history| > 1 {
      FirstStays(history[..|history| - 1], now, window);
    } else {
      assert history[..0] == [];
    }
  }

  lemma {:induction false} LaterAgrees(
      hits: map<string, seq<real>>, history: seq<Hit>, now: real, later: real, window: real)
    requires Agrees(hits, history, now, window) && now <= later
    ensures Agrees(hits, history, later, window)
  {
    forall key ensures Represents(Stored(hits, key), TimesOf(history, key), later, window) {
      RepresentsLater(Stored(hits, key), TimesOf(history, key), now, later, window);
    }
  }

  lemma {:induction false} YoungPart(q: seq<real>, times: seq<real>, now: real, window: real)
    requires Ascending(times) && Represents(q, times, now, window)
    requires q == [] || now - q[0] < window
    ensures Younger(times, now, window) == |q|
  {
    var cut := |times| - |q|;
    assert times == times[..cut] + q;
    forall i | 0 <= i < |q| ensures now - q[i] < window {
      assert q[i] == times[cut + i] && q[0] == times[cut];
    }
    YoungerSplit(times[..cut], q, now, window);
  }

  /** After pruning, the length of the queue is the number of hits in the window. */
  lemma {:induction false} QueueIsWindow(q: seq<real>, history: seq<Hit>, key: string, now: real, window: real)
    requires Ordered(history)
    requires Represents(q, TimesOf(history, key), now, window)
    requires q == [] || now - q[0] < window
    ensures InWindow(history, key, now, window) == |q|
  {
    TimesAreOrdered(history, key);
    InWindowCountsTimes(history, key, now, window);
    YoungPart(q, TimesOf(history, key), now, window);
  }

  lemma {:induction false} AppendAgrees(
      hits: map<string, seq<real>>, history: seq<Hit>, key: string, now: real, window: real)
    requires key in hits && hits[key] != [] && hits[key][|hits[key]| - 1] == now
    requires Represents(hits[key][..|hits[key]| - 1], TimesOf(history, key), now, window)
    requires forall k :: k != key ==> Represents(Stored(hits, k), TimesOf(history, k), now, window)
    ensures Agrees(hits, history + [Hit(key, now)], now, window)
  {
    var longer := history + [Hit(key, now)];
    assert longer[..|history|] == history;
    forall k ensures Represents(Stored(hits, k), TimesOf(longer, k), now, window) {
      if k == key {
        var q, times := hits[key][..|hits[key]| - 1], TimesOf(history, key);
        var cut := |times| - |q|;
        assert TimesOf(longer, key) == times + [now];
        assert (times + [now])[cut..] == q + [now] == hits[key];
      } else {
        assert TimesOf(longer, k) == TimesOf(history, k);
      }
    }
  }

  lemma {:induction false} AppendIsAccepted(history: seq<Hit>, key: string, now: real, limit: int, window: real)
    requires AcceptedByRule(history, limit, window)
    requires forall i :: 0 <= i < |history| ==> history[i].at <= now
    requires InWindow(history, key, now, window) < limit
    ensures AcceptedByRule(history + [Hit(key, now)], limit, window)
  {
    var longer := history + [Hit(key, now)];
    forall i | 0 <= i < |longer| ensures InWindow(longer[..i], longer[i].key, longer[i].at, window) < limit {
      assert longer[..i] == history[..i];
      assert history[..|history|] == history;
    }
  }

  /** Sweeping forgets only hits that have left the window. */
  lemma {:induction false} ForgettingIsSafe(
      hits: map<string, seq<real>>, history: seq<Hit>, now: real, window: real)
    requires Agrees(hits, history, now, window) && Ordered(history)
    ensures Agrees(Swept(hits, now, window), history, now, window)
  {
    var kept := Swept(hits, now, window);
    forall key ensures Represents(Stored(kept, key), TimesOf(history, key), now, window) {
      assert Represents(Stored(hits, key), TimesOf(history, key), now, window);
      if key in hits && key !in kept {
        var times := TimesOf(history, key);
        TimesAreOrdered(history, key);
        if hits[key] != [] {
          assert times[|times| - 1] == hits[key][|hits[key]| - 1];
        }
      }
    }
  }
}

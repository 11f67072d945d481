/**
 The matching rules and the recount of the clustering engine
 (apps/api/app/services/cluster_service.py), without the tables.
 */
module Clustering {
  import opened Wrappers
  import opened Categories

  datatype Pos = Pos(lat: real, lon: real)

  datatype Policy = Policy(required: int, radius: real, windowMinutes: int, countAnonymous: bool)

  /** Times are counted in microseconds. */
  function Window(p: Policy): int {
    p.windowMinutes * 60_000_000
  }

  /** The two geometric tests. Nothing is assumed about either of them. */
  datatype Geo = Geo(distance: (Pos, Pos) -> real, inBox: (Pos, Pos, real) -> bool)

  // ---- choosing a cluster ----

  datatype Candidate = Candidate(id: nat, category: string, at: Pos, last: int)

  datatype Query = Query(pos: Pos, category: string, at: int)

  predicate Accepts(c: Candidate, q: Query, p: Policy, g: Geo) {
    && AreSimilar(c.category, q.category)
    && q.at - c.last <= Window(p)
    && c.last - q.at <= Window(p)
    && g.distance(q.pos, c.at) <= p.radius
  }

  /** Strictly nearer, or as near and more recent. */
  predicate Better(c: Candidate, d: Candidate, q: Query, g: Geo) {
    var dc, dd := g.distance(q.pos, c.at), g.distance(q.pos, d.at);
    dc < dd || (dc == dd && d.last < c.last)
  }

  function Pick(cs: seq<Candidate>, q: Query, p: Policy, g: Geo): Option<Candidate> {
    if cs == [] then None
    else
      var n := |cs| - 1;
      var best := Pick(cs[..n], q, p, g);
      if !Accepts(cs[n], q, p, g) then best
      else if best.None? || Better(cs[n], best.value, q, g) then Some(cs[n])
      else best
  }

  method PickCluster(cs: seq<Candidate>, q: Query, p: Policy, g: Geo) returns (choice: Option<Candidate>)
    ensures choice == Pick(cs, q, p, g)
    ensures choice.None? <==> NoneSuits(cs, q, p, g)
    ensures choice.Some? ==> NearestIn(cs, choice.value, q, p, g)
  {
    var best: Option<(real, int, Candidate)> := None;
    for i := 0 to |cs|
      invariant best.None? ==> Pick(cs[..i], q, p, g) == None
      invariant best.Some? ==>
        var (d, r, c) := best.value;
        Pick(cs[..i], q, p, g) == Some(c) && d == g.distance(q.pos, c.at) && r == -c.last
    {
      var c := cs[i];
      assert cs[..i + 1][..i] == cs[..i];
      if !AreSimilar(c.category, q.category) {
        continue;
      }
      if q.at - c.last > Window(p) {
        continue;
      }
      if c.last - q.at > Window(p) {
        continue;
      }
      var d := g.distance(q.pos, c.at);
      if d > p.radius {
        continue;
      }
      var r := -c.last;
      if best.None? || d < best.value.0 || (d == best.value.0 && r < best.value.1) {
        best := Some((d, r, c));
      }
    }
    assert cs[..|cs|] == cs;
    choice := if best.Some? then Some(best.value.2) else None;
    PickIsFirstNearest(cs, q, p, g);
  }

  /** What a cluster must meet to take the report, in distances in metres and times in microseconds. */
  ghost predicate Suits(category: string, at: Pos, last: int, q: Query, p: Policy, g: Geo) {
    && AreSimilar(category, q.category)
    && g.distance(q.pos, at) <= p.radius
    && q.at - p.windowMinutes * 60_000_000 <= last <= q.at + p.windowMinutes * 60_000_000
  }

  ghost predicate NoneSuits(cs: seq<Candidate>, q: Query, p: Policy, g: Geo) {
    forall c <- cs :: !Suits(c.category, c.at, c.last, q, p, g)
  }

  /** Candidate `i` suits, and every other one that does is farther, or as far and less recent,
      or as far and as recent and later in the list. */
  ghost predicate IsNearest(cs: seq<Candidate>, i: nat, q: Query, p: Policy, g: Geo)
    requires i < |cs|
  {
    && Suits(cs[i].category, cs[i].at, cs[i].last, q, p, g)
    && forall j :: 0 <= j < |cs| && j != i && Suits(cs[j].category, cs[j].at, cs[j].last, q, p, g) ==>
         || g.distance(q.pos, cs[i].at) < g.distance(q.pos, cs[j].at)
         || (g.distance(q.pos, cs[i].at) == g.distance(q.pos, cs[j].at)
             && (cs[i].last > cs[j].last || (cs[i].last == cs[j].last && i < j)))
  }

  ghost predicate NearestIn(cs: seq<Candidate>, c: Candidate, q: Query, p: Policy, g: Geo) {
    exists i: nat :: i < |cs| && cs[i] == c && IsNearest(cs, i, q, p, g)
  }

  /** Nothing is chosen exactly when no candidate passes all four tests; otherwise the choice is the
      first candidate that is minimal in distance and, among equally near ones, most recent. */
  lemma {:induction false} PickIsFirstNearest(cs: seq<Candidate>, q: Query, p: Policy, g: Geo)
    ensures Pick(cs, q, p, g).None? <==> NoneSuits(cs, q, p, g)
    ensures Pick(cs, q, p, g).Some? ==> NearestIn(cs, Pick(cs, q, p, g).value, q, p, g)
  {
    if cs != [] {
      var n := |cs| - 1;
      PickIsFirstNearest(cs[..n], q, p, g);
      assert cs == cs[..n] + [cs[n]];
      if Pick(cs[..n], q, p, g).Some? {
        OneMoreCandidate(cs[..n], Pick(cs[..n], q, p, g).value, cs[n], q, p, g);
      } else {
        FirstThatSuits(cs[..n], cs[n], q, p, g);
      }
    }
  }

  lemma {:induction false} OneMoreCandidate(
      cs: seq<Candidate>, best: Candidate, c: Candidate, q: Query, p: Policy, g: Geo)
    requires NearestIn(cs, best, q, p, g)
    ensures !NoneSuits(cs + [c], q, p, g)
    ensures NearestIn(cs + [c], if Accepts(c, q, p, g) && Better(c, best, q, g) then c else best, q, p, g)
  {
    var i: nat :| i < |cs| && cs[i] == best && IsNearest(cs, i, q, p, g);
    assert forall j :: 0 <= j < |cs| ==> (cs + [c])[j] == cs[j];
    assert best in cs + [c];
    assert IsNearest(cs + [c], if Accepts(c, q, p, g) && Better(c, cs[i], q, g) then |cs| else i, q, p, g);
  }

  lemma {:induction false} FirstThatSuits(cs: seq<Candidate>, c: Candidate, q: Query, p: Policy, g: Geo)
    requires NoneSuits(cs, q, p, g)
    ensures NoneSuits(cs + [c], q, p, g) <==> !Accepts(c, q, p, g)
    ensures Accepts(c, q, p, g) ==> NearestIn(cs + [c], c, q, p, g)
  {
    assert forall d :: d in cs + [c] <==> d in cs || d == c;
    if Accepts(c, q, p, g) {
      assert (cs + [c])[|cs|] == c;
      assert forall j :: 0 <= j < |cs| ==> (cs + [c])[j] == cs[j] && cs[j] in cs;
      assert IsNearest(cs + [c], |cs|, q, p, g);
    }
  }

  /** The candidates that the time condition of the database query lets through. */
  function Recent(cs: seq<Candidate>, since: int): seq<Candidate> {
    if cs == [] then []
    else
      var n := |cs| - 1;
      Recent(cs[..n], since) + (if cs[n].last >= since then [cs[n]] else [])
  }

  /** The one-sided time condition of the query changes no choice. */
  lemma {:induction false} TimePrefilterIsHarmless(cs: seq<Candidate>, q: Query, p: Policy, g: Geo)
    ensures Pick(Recent(cs, q.at - p.windowMinutes * 60_000_000), q, p, g) == Pick(cs, q, p, g)
  {
    if cs != [] {
      var n := |cs| - 1;
      TimePrefilterIsHarmless(cs[..n], q, p, g);
      var r := Recent(cs[..n], q.at - p.windowMinutes * 60_000_000);
      assert (r + [cs[n]])[..|r|] == r && r + [] == r;
    }
  }

  // ---- counting people ----

  predicate Keyed(k: Option<string>) {
    k.Some? && k.value != ""
  }

  function People(keys: seq<Option<string>>): set<string> {
    set k | k in keys && Keyed(k) :: k.value
  }

  function Anonymous(keys: seq<Option<string>>): nat {
    if keys == [] then 0
    else Anonymous(keys[..|keys| - 1]) + (if Keyed(keys[|keys| - 1]) then 0 else 1)
  }

  /** `count_unique_reporters`. */
  function CountUnique(keys: seq<Option<string>>, countAnonymous: bool): nat {
    |People(keys)| + if countAnonymous then Anonymous(keys) else 0
  }

  /** `reps` holds one report of every person who gave a key, and each report without one exactly when those
      count as people of their own. An empty key is no key. */
  ghost predicate OnePerPerson(keys: seq<Option<string>>, countAnonymous: bool, reps: set<nat>) {
    && (forall i <- reps :: i < |keys|)
    && (forall i <- reps, j <- reps :: i < |keys| && j < |keys| && keys[i] == keys[j] && i != j ==>
         keys[i] == None || keys[i] == Some(""))
    && (forall k :: k in keys && k != None && k != Some("") ==> Represented(keys, reps, k))
    && (forall i: nat :: i < |keys| && (keys[i] == None || keys[i] == Some("")) ==> (i in reps <==> countAnonymous))
  }

  ghost predicate Represented(keys: seq<Option<string>>, reps: set<nat>, k: Option<string>) {
    exists i <- reps :: i < |keys| && keys[i] == k
  }

  /** `n` people are behind these reports. */
  ghost predicate IsHeadcount(keys: seq<Option<string>>, countAnonymous: bool, n: nat) {
    exists reps :: OnePerPerson(keys, countAnonymous, reps) && n == |reps|
  }

  lemma {:induction false} AnonymousSplit(a: seq<Option<string>>, b: seq<Option<string>>)
    ensures Anonymous(a + b) == Anonymous(a) + Anonymous(b)
  {
    if b == [] {
      assert a + b == a;
    } else {
      var n := |b| - 1;
      AnonymousSplit(a, b[..n]);
      assert (a + b)[..|a + b| - 1] == a + b[..n];
    }
  }

  lemma {:induction false} PeopleWithOneMore(a: seq<Option<string>>, k: Option<string>, b: seq<Option<string>>)
    ensures People(a + [k] + b) == People(a + b) + if Keyed(k) then {k.value} else {}
  {
    assert forall x :: x in a + [k] + b <==> x in a + b || x == k;
  }

  /** What one report more adds, wherever it lands in the row order: nothing when its key is there already,
      one person when its key is new, and without a key one exactly when such reports count. */
  lemma {:induction false} OneMoreReport(
      a: seq<Option<string>>, k: Option<string>, b: seq<Option<string>>, countAnonymous: bool)
    ensures CountUnique([], countAnonymous) == 0
    ensures k == None || k == Some("") ==>
      CountUnique(a + [k] + b, countAnonymous) == CountUnique(a + b, countAnonymous) + if countAnonymous then 1 else 0
    ensures k.Some? && k.value != "" ==>
      CountUnique(a + [k] + b, countAnonymous) == CountUnique(a + b, countAnonymous) + if k in a + b then 0 else 1
  {
    AnonymousSplit(a, b);
    AnonymousSplit(a + [k], b);
    AnonymousSplit(a, [k]);
    assert [k][..0] == [];
    assert Anonymous([k]) == if Keyed(k) then 0 else 1;
    PeopleWithOneMore(a, k, b);
    if Keyed(k) {
      var before := People(a + b);
      assert k.value in before <==> k in a + b;
      if k in a + b {
        assert before + {k.value} == before;
      }
    }
  }

  lemma {:induction false} OneMoreRow(keys: seq<Option<string>>, k: Option<string>, countAnonymous: bool)
    ensures CountUnique(keys + [k], countAnonymous) == CountUnique(keys, countAnonymous)
      + if Keyed(k) then (if k in keys then 0 else 1) else if countAnonymous then 1 else 0
  {
    OneMoreReport(keys, k, [], countAnonymous);
    assert keys + [k] + [] == keys + [k] && keys + [] == keys;
  }

  /** Where the last report stands for a person who reported before, an earlier one can take its place. */
  lemma {:induction false} OtherRepresentative(
      keys: seq<Option<string>>, k: Option<string>, countAnonymous: bool, reps: set<nat>, j: nat)
    returns (other: set<nat>)
    requires OnePerPerson(keys + [k], countAnonymous, reps)
    requires Keyed(k) && |keys| in reps && j < |keys| && keys[j] == k
    ensures OnePerPerson(keys + [k], countAnonymous, other) && |other| == |reps| && |keys| !in other
  {
    var all := keys + [k];
    assert all[|keys|] == k && all[j] == k;
    other := reps - {|keys|} + {j};
    assert j !in reps;
    forall x | x in all && x != None && x != Some("") ensures Represented(all, other, x) {
      assert Represented(all, reps, x);
      if x != k {
        var i :| i in reps && i < |all| && all[i] == x;
        assert i in other;
      }
    }
  }

  /** Representatives of the rows without the last one, given those of all rows. */
  lemma {:induction false} FewerRepresentatives(
      keys: seq<Option<string>>, k: Option<string>, countAnonymous: bool, reps: set<nat>) returns (fewer: set<nat>)
    requires OnePerPerson(keys + [k], countAnonymous, reps)
    ensures OnePerPerson(keys, countAnonymous, fewer)
    ensures |reps| == |fewer| + if Keyed(k) then (if k in keys then 0 else 1) else if countAnonymous then 1 else 0
  {
    var chosen := reps;
    if Keyed(k) && |keys| in reps && k in keys {
      var j: nat :| j < |keys| && keys[j] == k;
      chosen := OtherRepresentative(keys, k, countAnonymous, reps, j);
    }
    LastPicked(keys, k, countAnonymous, chosen);
    WithoutLast(keys, k, countAnonymous, chosen);
    fewer := chosen - {|keys|};
  }

  /** Whether the last report is picked. */
  lemma {:induction false} LastPicked(
      keys: seq<Option<string>>, k: Option<string>, countAnonymous: bool, reps: set<nat>)
    requires OnePerPerson(keys + [k], countAnonymous, reps)
    requires !(Keyed(k) && |keys| in reps && k in keys)
    ensures |keys| in reps <==> if Keyed(k) then k !in keys else countAnonymous
  {
    var n, all := |keys|, keys + [k];
    assert all[n] == k && k in all;
    if Keyed(k) {
      assert Represented(all, reps, k);
      var i :| i in reps && i < |all| && all[i] == k;
      assert i < n ==> keys[i] == k;
    }
  }

  lemma {:induction false} WithoutLast(
      keys: seq<Option<string>>, k: Option<string>, countAnonymous: bool, reps: set<nat>)
    requires OnePerPerson(keys + [k], countAnonymous, reps)
    requires !(Keyed(k) && |keys| in reps && k in keys)
    ensures OnePerPerson(keys, countAnonymous, reps - {|keys|})
  {
    var n, all, fewer := |keys|, keys + [k], reps - {|keys|};
    assert forall i :: 0 <= i < n ==> all[i] == keys[i];
    forall x | x in keys && x != None && x != Some("") ensures Represented(keys, fewer, x) {
      assert x in all && Represented(all, reps, x);
      var i :| i in reps && i < |all| && all[i] == x;
      assert i != n;
    }
  }

  lemma {:induction false} MoreRepresentatives(
      keys: seq<Option<string>>, k: Option<string>, countAnonymous: bool, fewer: set<nat>) returns (reps: set<nat>)
    requires OnePerPerson(keys, countAnonymous, fewer)
    ensures OnePerPerson(keys + [k], countAnonymous, reps)
  {
    var n := |keys|;
    var all := keys + [k];
    assert forall i :: 0 <= i < n ==> all[i] == keys[i];
    reps := fewer + if (if Keyed(k) then k !in keys else countAnonymous) then {n} else {};
    forall x | x in all && x != None && x != Some("") ensures Represented(all, reps, x) {
      if x in keys {
        assert Represented(keys, fewer, x);
        var i :| i in fewer && i < n && keys[i] == x;
        assert i in reps && all[i] == x;
      } else {
        assert n in reps && all[n] == x;
      }
    }
  }

  lemma {:induction false} Representatives(keys: seq<Option<string>>, countAnonymous: bool) returns (reps: set<nat>)
    ensures OnePerPerson(keys, countAnonymous, reps)
  {
    if keys == [] {
      reps := {};
    } else {
      var n := |keys| - 1;
      assert keys == keys[..n] + [keys[n]];
      var fewer := Representatives(keys[..n], countAnonymous);
      reps := MoreRepresentatives(keys[..n], keys[n], countAnonymous, fewer);
    }
  }

  lemma {:induction false} RepresentativesCounted(keys: seq<Option<string>>, countAnonymous: bool, reps: set<nat>)
    requires OnePerPerson(keys, countAnonymous, reps)
    ensures |reps| == CountUnique(keys, countAnonymous)
  {
    if keys == [] {
      assert reps == {};
    } else {
      var n := |keys| - 1;
      assert keys == keys[..n] + [keys[n]];
      var fewer := FewerRepresentatives(keys[..n], keys[n], countAnonymous, reps);
      RepresentativesCounted(keys[..n], countAnonymous, fewer);
      OneMoreRow(keys[..n], keys[n], countAnonymous);
    }
  }

  /** However one report of every person is picked, there are as many as `count_unique_reporters` says. */
  lemma {:induction false} CountIsHeadcount(keys: seq<Option<string>>, countAnonymous: bool)
    ensures forall n: nat :: IsHeadcount(keys, countAnonymous, n) <==> n == CountUnique(keys, countAnonymous)
  {
    var some := Representatives(keys, countAnonymous);
    RepresentativesCounted(keys, countAnonymous, some);
    forall n: nat | IsHeadcount(keys, countAnonymous, n) ensures n == CountUnique(keys, countAnonymous) {
      var reps :| OnePerPerson(keys, countAnonymous, reps) && n == |reps|;
      RepresentativesCounted(keys, countAnonymous, reps);
    }
  }

  /** The order in which the database returns the rows does not matter. */
  lemma {:induction false} UniqueIsOrderIndependent(
      a: seq<Option<string>>, b: seq<Option<string>>, countAnonymous: bool)
    requires multiset(a) == multiset(b)
    ensures CountUnique(a, countAnonymous) == CountUnique(b, countAnonymous)
  {
    forall k ensures k in a <==> k in b {
      assert k in a <==> k in multiset(a);
      assert k in b <==> k in multiset(b);
    }
    assert People(a) == People(b);
    AnonymousOrderIndependent(a, b);
  }

  lemma {:induction false} AnonymousOrderIndependent(a: seq<Option<string>>, b: seq<Option<string>>)
    requires multiset(a) == multiset(b)
    ensures Anonymous(a) == Anonymous(b)
  {
    if a == [] {
      assert |multiset(b)| == |b|;
    } else {
      var n := |a| - 1;
      var k := a[n];
      assert a == a[..n] + [k];
      assert k in multiset(b);
      var i :| 0 <= i < |b| && b[i] == k;
      assert b == b[..i] + [k] + b[i + 1..];
      assert multiset(a[..n]) == multiset(a) - multiset{k};
      assert multiset(b[..i] + b[i + 1..]) == multiset(b) - multiset{k};
      assert multiset(a[..n]) == multiset(b[..i] + b[i + 1..]);
      AnonymousOrderIndependent(a[..n], b[..i] + b[i + 1..]);
      AnonymousSplit(b[..i], b[i + 1..]);
      AnonymousSplit(b[..i] + [k], b[i + 1..]);
      AnonymousSplit(b[..i], [k]);
      assert [k][..0] == [];
    }
  }

  // ---- recounting a cluster ----

  datatype ClusterStatus = Open | Promoted | Closed | Dismissed

  datatype Cluster = Cluster(
    category: string,
    severity: Severity,
    centroid: Pos,
    reportCount: nat,
    uniqueCount: nat,
    status: ClusterStatus,
    caseId: Option<nat>,
    first: int,
    last: int)

  /** The columns that `_recount` selects of one non-rejected report. */
  datatype Row = Row(key: Option<string>, pos: Option<Pos>, severity: Severity, at: int)

  function Keys(rows: seq<Row>): seq<Option<string>> {
    seq(|rows|, i requires 0 <= i < |rows| => rows[i].key)
  }

  function Severities(rows: seq<Row>): seq<Severity> {
    seq(|rows|, i requires 0 <= i < |rows| => rows[i].severity)
  }

  function Points(rows: seq<Row>): seq<Pos> {
    if rows == [] then []
    else
      var n := |rows| - 1;
      Points(rows[..n]) + (if rows[n].pos.Some? then [rows[n].pos.value] else [])
  }

  function SumLat(ps: seq<Pos>): real {
    if ps == [] then 0.0 else SumLat(ps[..|ps| - 1]) + ps[|ps| - 1].lat
  }

  function SumLon(ps: seq<Pos>): real {
    if ps == [] then 0.0 else SumLon(ps[..|ps| - 1]) + ps[|ps| - 1].lon
  }

  function Mean(ps: seq<Pos>): Pos
    requires ps != []
  {
    Pos(SumLat(ps) / |ps| as real, SumLon(ps) / |ps| as real)
  }

  function Earliest(rows: seq<Row>): (t: int)
    requires rows != []
    ensures forall r <- rows :: t <= r.at
    ensures exists r <- rows :: r.at == t
  {
    var n := |rows| - 1;
    assert rows == rows[..n] + [rows[n]];
    if n == 0 then assert rows[0] in rows; rows[0].at
    else
      var t := Earliest(rows[..n]);
      assert rows[n] in rows;
      if rows[n].at < t then rows[n].at else t
  }

  function Latest(rows: seq<Row>): (t: int)
    requires rows != []
    ensures forall r <- rows :: r.at <= t
    ensures exists r <- rows :: r.at == t
  {
    var n := |rows| - 1;
    assert rows == rows[..n] + [rows[n]];
    if n == 0 then assert rows[0] in rows; rows[0].at
    else
      var t := Latest(rows[..n]);
      assert rows[n] in rows;
      if rows[n].at > t then rows[n].at else t
  }

  /** `_recount`, given the rows it selects. */
  function Recounted(rows: seq<Row>, c: Cluster, p: Policy): Cluster {
    var ps := Points(rows);
    c.(reportCount := |rows|,
       uniqueCount := CountUnique(Keys(rows), p.countAnonymous),
       centroid := if ps != [] then Mean(ps) else c.centroid,
       severity := if rows != [] then Highest(Severities(rows)) else c.severity,
       first := if rows != [] then Earliest(rows) else c.first,
       last := if rows != [] then Latest(rows) else c.last)
  }

  /** The summary a cluster carries says the truth about its non-rejected reports. */
  ghost predicate Accurate(rows: seq<Row>, c: Cluster, p: Policy) {
    && c.reportCount == |rows|
    && IsHeadcount(Keys(rows), p.countAnonymous, c.uniqueCount)
    && (rows != [] ==>
         && (forall r <- rows :: Rank(r.severity) <= Rank(c.severity) && c.first <= r.at <= c.last)
         && (exists r <- rows :: r.severity == c.severity)
         && (exists r <- rows :: r.at == c.first)
         && (exists r <- rows :: r.at == c.last))
    && (Points(rows) != [] ==> c.centroid == Mean(Points(rows)))
  }

  /** What a recount leaves as it was when no live report remains. */
  ghost predicate SameProfile(c: Cluster, d: Cluster) {
    d.severity == c.severity && d.first == c.first && d.last == c.last && d.centroid == c.centroid
  }

  lemma {:induction false} RecountIsAccurate(rows: seq<Row>, c: Cluster, p: Policy)
    ensures Accurate(rows, Recounted(rows, c, p), p)
    ensures rows == [] ==> SameProfile(c, Recounted(rows, c, p))
  {
    CountIsHeadcount(Keys(rows), p.countAnonymous);
    if rows != [] {
      var vs := Severities(rows);
      var d := Recounted(rows, c, p);
      forall r | r in rows ensures Rank(r.severity) <= Rank(d.severity) {
        var i :| 0 <= i < |rows| && rows[i] == r;
        assert vs[i] == r.severity && vs[i] in vs;
      }
      assert vs[0] in vs;
      if d.severity in vs {
        var i :| 0 <= i < |vs| && vs[i] == d.severity;
        assert rows[i] in rows;
      } else {
        assert vs[0] == Low;
      }
    }
  }

  lemma {:induction false} KeysSplit(a: seq<Row>, r: Row, b: seq<Row>)
    ensures Keys(a + [r] + b) == Keys(a) + [r.key] + Keys(b)
    ensures Keys(a + b) == Keys(a) + Keys(b)
  {
  }

  // ---- the row order of a recount ----

  lemma {:induction false} SumsSplit(a: seq<Pos>, b: seq<Pos>)
    ensures SumLat(a + b) == SumLat(a) + SumLat(b) && SumLon(a + b) == SumLon(a) + SumLon(b)
  {
    if b == [] {
      assert a + b == a;
    } else {
      var n := |b| - 1;
      SumsSplit(a, b[..n]);
      assert (a + b)[..|a + b| - 1] == a + b[..n];
    }
  }

  lemma {:induction false} PointsSplit(a: seq<Row>, b: seq<Row>)
    ensures Points(a + b) == Points(a) + Points(b)
  {
    if b == [] {
      assert a + b == a && Points(a) + [] == Points(a);
    } else {
      var n := |b| - 1;
      PointsSplit(a, b[..n]);
      assert (a + b)[..|a + b| - 1] == a + b[..n];
    }
  }

  /** What a recount takes from the positions and the reporters of the rows. */
  ghost predicate SameTotals(a: seq<Row>, b: seq<Row>) {
    && |Points(a)| == |Points(b)|
    && SumLat(Points(a)) == SumLat(Points(b)) && SumLon(Points(a)) == SumLon(Points(b))
    && multiset(Keys(a)) == multiset(Keys(b))
  }

  /** `after` is the mean of `n` positions with mean `before`, and of `x`. */
  ghost predicate Pulled(before: Pos, n: nat, x: Pos, after: Pos) {
    && after.lat * (n + 1) as real == before.lat * n as real + x.lat
    && after.lon * (n + 1) as real == before.lon * n as real + x.lon
  }

  /** The centroid is the mean of the positions: one row more with a position pulls it there by its share, wherever
      the row lands; one without leaves it where it was. */
  lemma {:induction false} CentroidAfterOneMore(a: seq<Row>, r: Row, b: seq<Row>, c: Cluster, p: Policy)
    ensures var before, after := Recounted(a + b, c, p).centroid, Recounted(a + [r] + b, c, p).centroid;
      var n := |Points(a + b)|;
      && |Points(a + [r] + b)| == n + (if r.pos.Some? then 1 else 0)
      && (r.pos.None? ==> after == before)
      && (r.pos.Some? && n == 0 ==> before == c.centroid && after == r.pos.value)
      && (r.pos.Some? && n > 0 ==> Pulled(before, n, r.pos.value, after))
  {
    PointsAround(a, r, b);
    if r.pos.Some? {
      MeanAfterOneMore(Points(a), r.pos.value, Points(b));
    }
  }

  lemma {:induction false} PointsAround(a: seq<Row>, r: Row, b: seq<Row>)
    ensures Points(a + b) == Points(a) + Points(b)
    ensures Points(a + [r] + b) == if r.pos.Some? then Points(a) + [r.pos.value] + Points(b) else Points(a + b)
  {
    PointsSplit(a + [r], b);
    PointsSplit(a, [r]);
    PointsSplit(a, b);
    PointsOfOne(r);
    if r.pos.None? {
      assert Points(a) + [] == Points(a);
    }
  }

  lemma {:induction false} PointsOfOne(r: Row)
    ensures Points([r]) == if r.pos.Some? then [r.pos.value] else []
  {
    assert [r][..0] == [];
  }

  lemma {:induction false} MeanAfterOneMore(a: seq<Pos>, x: Pos, b: seq<Pos>)
    ensures a + b == [] ==> Mean(a + [x] + b) == x
    ensures a + b != [] ==> Pulled(Mean(a + b), |a + b|, x, Mean(a + [x] + b))
  {
    var n := |a + b|;
    SumsInMiddle(a, [x], b);
    OnePointMore(a + b, x);
    assert |a + [x] + b| == n + 1;
    if n > 0 {
      Share(SumLat(a + b), x.lat, n);
      Share(SumLon(a + b), x.lon, n);
    }
  }

  lemma {:induction false} Share(sum: real, x: real, n: nat)
    requires n > 0
    ensures (sum + x) / (n + 1) as real * (n + 1) as real == sum / n as real * n as real + x
  {
    DivideBack(sum, n);
    DivideBack(sum + x, n + 1);
  }

  lemma {:induction false} OnePointMore(ps: seq<Pos>, x: Pos)
    ensures SumLat(ps + [x]) == SumLat(ps) + x.lat && SumLon(ps + [x]) == SumLon(ps) + x.lon
    ensures ps == [] ==> SumLat(ps) == 0.0 && SumLon(ps) == 0.0
  {
    assert (ps + [x])[..|ps|] == ps;
  }

  lemma {:induction false} DivideBack(x: real, n: nat)
    requires n > 0
    ensures x / n as real * n as real == x
  {
  }

  lemma {:induction false} SumsInMiddle(a: seq<Pos>, b: seq<Pos>, c: seq<Pos>)
    ensures SumLat(a + b + c) == SumLat(a + c + b) && SumLon(a + b + c) == SumLon(a + c + b)
  {
    SumsSplit(a + b, c);
    SumsSplit(a, b);
    SumsSplit(a + c, b);
    SumsSplit(a, c);
  }

  lemma {:induction false} PutInMiddle(a: seq<Row>, r: Row, b: seq<Row>)
    ensures SameTotals(a + [r] + b, a + b + [r])
  {
    PointsSplit(a + [r], b);
    PointsSplit(a, [r]);
    PointsSplit(a + b, [r]);
    PointsSplit(a, b);
    SumsInMiddle(Points(a), Points([r]), Points(b));
    assert multiset(Keys(a + [r] + b)) == multiset(Keys(a + b + [r])) by {
      KeysSplit(a, r, b);
      KeysSplit(a + b, r, []);
      assert a + b + [r] + [] == a + b + [r];
    }
  }

  lemma {:induction false} SameTotalsWith(a: seq<Row>, b: seq<Row>, r: Row)
    requires SameTotals(a, b)
    ensures SameTotals(a + [r], b + [r])
  {
    PointsSplit(a, [r]);
    PointsSplit(b, [r]);
    SumsSplit(Points(a), Points([r]));
    SumsSplit(Points(b), Points([r]));
    KeysSplit(a, r, []);
    KeysSplit(b, r, []);
    assert a + [r] + [] == a + [r] && b + [r] + [] == b + [r];
  }

  lemma {:induction false} TotalsAreOrderIndependent(a: seq<Row>, b: seq<Row>)
    requires multiset(a) == multiset(b)
    ensures SameTotals(a, b)
  {
    if a == [] {
      assert |multiset(b)| == |b|;
    } else {
      var n := |a| - 1;
      var r := a[n];
      assert a == a[..n] + [r];
      assert r in multiset(b);
      var i :| 0 <= i < |b| && b[i] == r;
      var rest := b[..i] + b[i + 1..];
      assert b == b[..i] + [r] + b[i + 1..];
      assert multiset(a[..n]) == multiset(a) - multiset{r} == multiset(b) - multiset{r} == multiset(rest);
      TotalsAreOrderIndependent(a[..n], rest);
      SameTotalsWith(a[..n], rest, r);
      PutInMiddle(b[..i], r, b[i + 1..]);
    }
  }

  lemma {:induction false} SameMembers<T>(a: seq<T>, b: seq<T>)
    requires multiset(a) == multiset(b)
    ensures |a| == |b| && forall x :: x in a <==> x in b
  {
    assert |multiset(a)| == |multiset(b)|;
    forall x ensures x in a <==> x in b {
      assert x in a <==> x in multiset(a);
      assert x in b <==> x in multiset(b);
    }
  }

  lemma {:induction false} SeverityMembers(rows: seq<Row>)
    ensures forall v :: v in Severities(rows) <==> exists r <- rows :: r.severity == v
  {
    var vs := Severities(rows);
    forall v ensures v in vs <==> exists r <- rows :: r.severity == v {
      if v in vs {
        var i :| 0 <= i < |vs| && vs[i] == v;
        assert rows[i] in rows;
      }
      if r :| r in rows && r.severity == v {
        var i :| 0 <= i < |rows| && rows[i] == r;
        assert vs[i] == v;
      }
    }
  }

  lemma {:induction false} HighestIsOrderIndependent(a: seq<Severity>, b: seq<Severity>)
    requires forall v :: v in a <==> v in b
    ensures Highest(a) == Highest(b)
  {
    assert Rank(Highest(a)) == Rank(Highest(b));
  }

  /** In whatever order the database returns the rows, a recount gives the same summary. */
  lemma {:induction false} RecountIsOrderIndependent(a: seq<Row>, b: seq<Row>, c: Cluster, p: Policy)
    requires multiset(a) == multiset(b)
    ensures Recounted(a, c, p) == Recounted(b, c, p)
  {
    SameMembers(a, b);
    TotalsAreOrderIndependent(a, b);
    UniqueIsOrderIndependent(Keys(a), Keys(b), p.countAnonymous);
    SeverityMembers(a);
    SeverityMembers(b);
    HighestIsOrderIndependent(Severities(a), Severities(b));
    if a != [] {
      TimesAreOrderIndependent(a, b);
    }
  }

  lemma {:induction false} TimesAreOrderIndependent(a: seq<Row>, b: seq<Row>)
    requires a != [] && b != [] && forall r :: r in a <==> r in b
    ensures Earliest(a) == Earliest(b) && Latest(a) == Latest(b)
  {
  }
}

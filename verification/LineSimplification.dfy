/**
 Ramer-Douglas-Peucker simplification (`rdp` inside `simplify_line`, apps/api/app/utils/geo.py)
 for an arbitrary measure of how far a point is from a chord. `Polyline` supplies the geometric one.
 */
module LineSimplification {

  /** How far the first point is from the chord between the other two. */
  type Metric<!P> = (P, P, P) -> real

  // ---- the farthest interior vertex ----

  function Chord<P>(ps: seq<P>, i: nat, d: Metric<P>): real
    requires i < |ps|
  {
    d(ps[i], ps[0], ps[|ps| - 1])
  }

  /** The scan over vertices 1 to k - 1: the largest squared distance and where it is first attained. */
  function Scan<P>(ps: seq<P>, k: nat, d: Metric<P>): (real, nat)
    requires 1 <= k < |ps|
  {
    if k == 1 then (0.0, 0)
    else
      var (worst, index) := Scan(ps, k - 1, d);
      var here := Chord(ps, k - 1, d);
      if here > worst then (here, k - 1) else (worst, index)
  }

  /** `index` is the first farthest of the vertices 1 to k - 1; it is 0 when none is off the chord. */
  ghost predicate FirstFarthest<P>(ps: seq<P>, k: nat, worst: real, index: nat, d: Metric<P>)
    requires 1 <= k < |ps|
  {
    && worst >= 0.0
    && (forall i :: 1 <= i < k ==> Chord(ps, i, d) <= worst)
    && (index == 0 ==> worst == 0.0)
    && (index != 0 ==> index < k && Chord(ps, index, d) == worst && worst > 0.0
                       && forall i :: 1 <= i < index ==> Chord(ps, i, d) < worst)
  }

  lemma {:induction false} ScanFindsFirstFarthest<P>(ps: seq<P>, k: nat, d: Metric<P>)
    requires 1 <= k < |ps|
    ensures var (worst, index) := Scan(ps, k, d); FirstFarthest(ps, k, worst, index, d)
  {
    if k > 1 {
      ScanFindsFirstFarthest(ps, k - 1, d);
    }
  }

  lemma {:induction false} FirstFarthestIsScan<P>(ps: seq<P>, k: nat, worst: real, index: nat, d: Metric<P>)
    requires 1 <= k < |ps| && FirstFarthest(ps, k, worst, index, d) && index != 0
    ensures Scan(ps, k, d) == (worst, index)
  {
    ScanFindsFirstFarthest(ps, k, d);
    var (w, i) := Scan(ps, k, d);
    assert w == worst;
    assert i != 0;
    assert Chord(ps, i, d) == worst == Chord(ps, index, d);
  }

  // ---- rdp ----

  /** Two lines that meet in a vertex, as one. */
  function Spliced<P>(left: seq<P>, right: seq<P>): seq<P>
    requires left != []
  {
    left[..|left| - 1] + right
  }

  lemma {:induction false} SpliceShape<P>(left: seq<P>, right: seq<P>)
    requires |left| >= 2 && |right| >= 2 && left[|left| - 1] == right[0]
    ensures var out, m := Spliced(left, right), |left| - 1;
      && 0 < m < |out| - 1 && |out| == |left| + |right| - 1
      && out[..m + 1] == left && out[m..] == right
      && out[0] == left[0] && out[m] == right[0] && out[|out| - 1] == right[|right| - 1]
  {
  }

  /** The index at which `rdp` splits the line. */
  function SplitIndex<P>(ps: seq<P>, d: Metric<P>): nat
    requires |ps| >= 3
  {
    Scan(ps, |ps| - 1, d).1
  }

  predicate Splits<P>(ps: seq<P>, limit: real, d: Metric<P>) {
    |ps| >= 3 && Scan(ps, |ps| - 1, d).0 > limit
  }

  lemma {:induction false} SplitInside<P>(ps: seq<P>, limit: real, d: Metric<P>)
    requires limit >= 0.0 && Splits(ps, limit, d)
    ensures 0 < SplitIndex(ps, d) < |ps| - 1
  {
    ScanFindsFirstFarthest(ps, |ps| - 1, d);
  }

  /** The inner `rdp`; `limit` is the square of the tolerance. */
  function Rdp<P>(ps: seq<P>, limit: real, d: Metric<P>): (out: seq<P>)
    requires limit >= 0.0
    ensures |ps| >= 2 ==> |out| >= 2 && out[0] == ps[0] && out[|out| - 1] == ps[|ps| - 1]
    ensures |out| <= |ps|
    decreases |ps|
  {
    if |ps| < 3 then ps
    else if !Splits(ps, limit, d) then [ps[0], ps[|ps| - 1]]
    else
      SplitInside(ps, limit, d);
      var index := SplitIndex(ps, d);
      Spliced(Rdp(ps[..index + 1], limit, d), Rdp(ps[index..], limit, d))
  }

  // ---- idempotence ----

  /** Every interior vertex of the output is an interior vertex of the input. */
  lemma {:induction false} InteriorStaysInterior<P>(ps: seq<P>, limit: real, d: Metric<P>, j: nat) returns (i: nat)
    requires limit >= 0.0 && 0 < j < |Rdp(ps, limit, d)| - 1
    ensures 0 < i < |ps| - 1 && ps[i] == Rdp(ps, limit, d)[j]
    decreases |ps|
  {
    if !Splits(ps, limit, d) {
      i := j;
    } else {
      SplitInside(ps, limit, d);
      var index := SplitIndex(ps, d);
      var left := Rdp(ps[..index + 1], limit, d);
      var m := |left| - 1;
      if j < m {
        i := InteriorStaysInterior(ps[..index + 1], limit, d, j);
      } else if j == m {
        i := index;
      } else {
        i := InteriorStaysInterior(ps[index..], limit, d, j - m);
        assert ps[index..][i] == ps[index + i];
        i := index + i;
      }
    }
  }

  /** No interior vertex is farther from the chord than the split vertex; those before it are nearer. */
  lemma {:induction false} SplitIsFarthest<P>(ps: seq<P>, d: Metric<P>, i: nat)
    requires |ps| >= 3 && 0 < i < |ps| - 1
    ensures d(ps[i], ps[0], ps[|ps| - 1]) <= Scan(ps, |ps| - 1, d).0
    ensures i < SplitIndex(ps, d) ==> d(ps[i], ps[0], ps[|ps| - 1]) < Scan(ps, |ps| - 1, d).0
  {
    ScanFindsFirstFarthest(ps, |ps| - 1, d);
    assert Chord(ps, i, d) <= Scan(ps, |ps| - 1, d).0;
  }

  /** Every interior vertex of `part` is one of the vertices 1 to k - 1 of `ps`. */
  ghost predicate InteriorFrom<P>(part: seq<P>, ps: seq<P>, k: nat)
    requires k <= |ps|
  {
    forall j :: 0 < j < |part| - 1 ==> exists i :: 0 < i < k && ps[i] == part[j]
  }

  /** Where `left` and `right` are made of vertices of `ps` on their side of its split vertex,
      their splice has the same first farthest vertex. */
  lemma {:induction false} SplitSurvives<P>(ps: seq<P>, d: Metric<P>, left: seq<P>, right: seq<P>)
    requires |ps| >= 3 && 0 < SplitIndex(ps, d) < |ps| - 1
    requires |left| >= 2 && |right| >= 2 && left[|left| - 1] == right[0] == ps[SplitIndex(ps, d)]
    requires left[0] == ps[0] && right[|right| - 1] == ps[|ps| - 1]
    requires InteriorFrom(left, ps, SplitIndex(ps, d)) && InteriorFrom(right, ps, |ps| - 1)
    ensures var out := Spliced(left, right);
      |out| >= 3 && Scan(out, |out| - 1, d) == (Scan(ps, |ps| - 1, d).0, |left| - 1)
  {
    var out := Spliced(left, right);
    SpliceShape(left, right);
    ScanFindsFirstFarthest(ps, |ps| - 1, d);
    var worst, index, m := Scan(ps, |ps| - 1, d).0, SplitIndex(ps, d), |left| - 1;
    forall j | 1 <= j < |out| - 1 ensures Chord(out, j, d) <= worst && (j < m ==> Chord(out, j, d) < worst) {
      if j < m {
        var i :| 0 < i < index && ps[i] == left[j];
        SplitIsFarthest(ps, d, i);
      } else if j > m {
        assert out[j] == right[j - m];
        var i :| 0 < i < |ps| - 1 && ps[i] == right[j - m];
        SplitIsFarthest(ps, d, i);
      }
    }
    assert Chord(out, m, d) == Chord(ps, index, d);
    FirstFarthestIsScan(out, |out| - 1, worst, m, d);
  }

  lemma {:induction false} LeftInterior<P>(ps: seq<P>, index: nat, limit: real, d: Metric<P>)
    requires limit >= 0.0 && 0 < index < |ps| - 1
    ensures InteriorFrom(Rdp(ps[..index + 1], limit, d), ps, index)
  {
    var left := Rdp(ps[..index + 1], limit, d);
    forall j | 0 < j < |left| - 1 ensures exists i :: 0 < i < index && ps[i] == left[j] {
      var i := InteriorStaysInterior(ps[..index + 1], limit, d, j);
      assert ps[i] == left[j];
    }
  }

  lemma {:induction false} RightInterior<P>(ps: seq<P>, index: nat, limit: real, d: Metric<P>)
    requires limit >= 0.0 && 0 < index < |ps| - 1
    ensures InteriorFrom(Rdp(ps[index..], limit, d), ps, |ps| - 1)
  {
    var right := Rdp(ps[index..], limit, d);
    forall j | 0 < j < |right| - 1 ensures exists i :: 0 < i < |ps| - 1 && ps[i] == right[j] {
      var i := InteriorStaysInterior(ps[index..], limit, d, j);
      assert ps[index + i] == right[j];
    }
  }

  lemma {:induction false} SpliceSplits<P>(ps: seq<P>, limit: real, d: Metric<P>, left: seq<P>, right: seq<P>)
    requires Splits(ps, limit, d) && 0 < SplitIndex(ps, d) < |ps| - 1
    requires |left| >= 2 && |right| >= 2 && left[|left| - 1] == right[0] == ps[SplitIndex(ps, d)]
    requires left[0] == ps[0] && right[|right| - 1] == ps[|ps| - 1]
    requires InteriorFrom(left, ps, SplitIndex(ps, d)) && InteriorFrom(right, ps, |ps| - 1)
    ensures Splits(Spliced(left, right), limit, d) && SplitIndex(Spliced(left, right), d) == |left| - 1
  {
    SplitSurvives(ps, d, left, right);
  }

  /** The first farthest vertex of the input is the first farthest vertex of the output. */
  lemma {:induction false} RdpKeepsSplit<P>(ps: seq<P>, limit: real, d: Metric<P>)
    requires limit >= 0.0 && Splits(ps, limit, d)
    requires 0 < SplitIndex(ps, d) < |ps| - 1
    ensures var left, right := Rdp(ps[..SplitIndex(ps, d) + 1], limit, d), Rdp(ps[SplitIndex(ps, d)..], limit, d);
      && |left| >= 2 && |right| >= 2 && left[|left| - 1] == right[0]
      && var out := Spliced(left, right);
      && Splits(out, limit, d) && SplitIndex(out, d) == |left| - 1
  {
    var index := SplitIndex(ps, d);
    LeftInterior(ps, index, limit, d);
    RightInterior(ps, index, limit, d);
    SpliceSplits(ps, limit, d, Rdp(ps[..index + 1], limit, d), Rdp(ps[index..], limit, d));
  }

  lemma {:induction false} RdpOfSplit<P>(ps: seq<P>, limit: real, d: Metric<P>)
    requires limit >= 0.0 && Splits(ps, limit, d)
    ensures 0 < SplitIndex(ps, d) < |ps| - 1
    ensures Rdp(ps, limit, d)
         == Spliced(Rdp(ps[..SplitIndex(ps, d) + 1], limit, d), Rdp(ps[SplitIndex(ps, d)..], limit, d))
  {
    SplitInside(ps, limit, d);
  }

  /** Two simplified halves, spliced, are simplified to the splice of what they are simplified to. */
  lemma {:induction false} RdpOfSplice<P>(ps: seq<P>, limit: real, d: Metric<P>)
    requires limit >= 0.0 && Splits(ps, limit, d) && 0 < SplitIndex(ps, d) < |ps| - 1
    ensures var left, right := Rdp(ps[..SplitIndex(ps, d) + 1], limit, d), Rdp(ps[SplitIndex(ps, d)..], limit, d);
      && |left| >= 2 && |right| >= 2
      && Rdp(Spliced(left, right), limit, d) == Spliced(Rdp(left, limit, d), Rdp(right, limit, d))
  {
    var index := SplitIndex(ps, d);
    var left, right := Rdp(ps[..index + 1], limit, d), Rdp(ps[index..], limit, d);
    RdpKeepsSplit(ps, limit, d);
    SpliceShape(left, right);
    RdpOfSplit(Spliced(left, right), limit, d);
  }

  /** Simplifying a simplified line changes nothing, whatever the line and the tolerance. */
  lemma {:induction false} RdpIsIdempotent<P>(ps: seq<P>, limit: real, d: Metric<P>)
    requires limit >= 0.0
    ensures Rdp(Rdp(ps, limit, d), limit, d) == Rdp(ps, limit, d)
    decreases |ps|
  {
    if Splits(ps, limit, d) {
      RdpOfSplit(ps, limit, d);
      var index := SplitIndex(ps, d);
      RdpOfSplice(ps, limit, d);
      RdpIsIdempotent(ps[..index + 1], limit, d);
      RdpIsIdempotent(ps[index..], limit, d);
    }
  }

  // ---- tolerance ----

  /** `ks` are positions of `s` in increasing order, from the first to the last. */
  ghost predicate Selects(ks: seq<nat>, n: nat) {
    && |ks| >= 2 && ks[0] == 0 && ks[|ks| - 1] == n - 1
    && forall i :: 0 < i < |ks| ==> ks[i - 1] < ks[i]
  }

  /** Every vertex skipped between two consecutive kept ones is within the limit of their line. */
  ghost predicate GapsWithin<P>(ps: seq<P>, ks: seq<nat>, limit: real, d: Metric<P>)
    requires Selects(ks, |ps|)
  {
    forall j, i :: 0 < j < |ks| && ks[j - 1] < i < ks[j] && ks[j] < |ps| ==>
      d(ps[i], ps[ks[j - 1]], ps[ks[j]]) <= limit
  }

  ghost predicate Kept<P>(ps: seq<P>, ks: seq<nat>, out: seq<P>) {
    |out| == |ks| && forall j :: 0 <= j < |ks| ==> ks[j] < |ps| && out[j] == ps[ks[j]]
  }

  function Shifted(ks: seq<nat>, offset: nat): seq<nat> {
    seq(|ks|, j requires 0 <= j < |ks| => ks[j] + offset)
  }

  /** The output is a subsequence with both ends of the input, and every dropped vertex lies within the
      tolerance of the line through the kept vertices around it. */
  lemma {:induction false} RdpStaysWithinTolerance<P>(ps: seq<P>, limit: real, d: Metric<P>) returns (ks: seq<nat>)
    requires limit >= 0.0 && |ps| >= 2
    ensures Selects(ks, |ps|) && Kept(ps, ks, Rdp(ps, limit, d)) && GapsWithin(ps, ks, limit, d)
    decreases |ps|
  {
    if |ps| < 3 {
      ks := [0, 1];
      return;
    }
    if !Splits(ps, limit, d) {
      ks := [0, |ps| - 1];
      FlatIsWithin(ps, limit, d);
      return;
    }
    SplitInside(ps, limit, d);
    var index := SplitIndex(ps, d);
    var ls := RdpStaysWithinTolerance(ps[..index + 1], limit, d);
    var rs := RdpStaysWithinTolerance(ps[index..], limit, d);
    ks := Joined(ps, index, ls, rs, limit, d);
    KeptSplices(ps, index, ls, rs, Rdp(ps[..index + 1], limit, d), Rdp(ps[index..], limit, d));
  }

  lemma {:induction false} FlatIsWithin<P>(ps: seq<P>, limit: real, d: Metric<P>)
    requires |ps| >= 3 && !Splits(ps, limit, d)
    ensures GapsWithin(ps, [0, |ps| - 1], limit, d)
  {
    ScanFindsFirstFarthest(ps, |ps| - 1, d);
    forall i | 0 < i < |ps| - 1 ensures d(ps[i], ps[0], ps[|ps| - 1]) <= limit {
      assert Chord(ps, i, d) <= Scan(ps, |ps| - 1, d).0;
    }
  }

  lemma {:induction false} KeptSplices<P>(
      ps: seq<P>, index: nat, ls: seq<nat>, rs: seq<nat>, left: seq<P>, right: seq<P>)
    requires index < |ps| && ls != []
    requires Kept(ps[..index + 1], ls, left) && Kept(ps[index..], rs, right)
    ensures Kept(ps, ls[..|ls| - 1] + Shifted(rs, index), Spliced(left, right))
  {
  }

  lemma {:induction false} JoinedSelects(index: nat, n: nat, ls: seq<nat>, rs: seq<nat>)
    requires 0 < index < n - 1 && Selects(ls, index + 1) && Selects(rs, n - index)
    ensures Selects(ls[..|ls| - 1] + Shifted(rs, index), n)
  {
    var m := |ls| - 1;
    var ks := ls[..m] + Shifted(rs, index);
    forall j | 0 < j < |ks| ensures ks[j - 1] < ks[j] {
      if j < m {
        assert ks[j - 1] == ls[j - 1] && ks[j] == ls[j];
      } else if j == m {
        assert ks[j - 1] == ls[j - 1] && ks[j] == index == ls[m];
      } else {
        assert ks[j - 1] == rs[j - 1 - m] + index && ks[j] == rs[j - m] + index;
      }
    }
  }

  /** The gap before position `j` of the joined selection is a gap of one of its halves. */
  lemma {:induction false} JoinedGap<P>(
      ps: seq<P>, index: nat, ls: seq<nat>, rs: seq<nat>, limit: real, d: Metric<P>, ks: seq<nat>, j: nat, i: nat)
    requires 0 < index < |ps| - 1 && Selects(ls, index + 1) && Selects(rs, |ps| - index)
    requires GapsWithin(ps[..index + 1], ls, limit, d) && GapsWithin(ps[index..], rs, limit, d)
    requires ks == ls[..|ls| - 1] + Shifted(rs, index)
    requires 0 < j < |ks| && ks[j - 1] < i < ks[j] < |ps|
    ensures d(ps[i], ps[ks[j - 1]], ps[ks[j]]) <= limit
  {
    var m := |ls| - 1;
    if j <= m {
      assert ks[j - 1] == ls[j - 1];
      assert ks[j] == ls[j] by {
        assert j == m ==> ks[j] == index;
      }
      Ascending(ls, index + 1, j);
      var q := ps[..index + 1];
      assert q[i] == ps[i] && q[ls[j]] == ps[ks[j]] && q[ls[j - 1]] == ps[ks[j - 1]];
    } else {
      var q := ps[index..];
      assert ks[j - 1] == rs[j - 1 - m] + index && ks[j] == rs[j - m] + index;
      assert q[i - index] == ps[i] && q[rs[j - m]] == ps[ks[j]] && q[rs[j - 1 - m]] == ps[ks[j - 1]];
    }
  }

  lemma {:induction false} Ascending(ks: seq<nat>, n: nat, j: nat)
    requires Selects(ks, n) && j < |ks|
    ensures ks[j] < n
    decreases |ks| - j
  {
    if j < |ks| - 1 {
      Ascending(ks, n, j + 1);
    }
  }

  lemma {:induction false} Joined<P>(ps: seq<P>, index: nat, ls: seq<nat>, rs: seq<nat>, limit: real, d: Metric<P>)
    returns (ks: seq<nat>)
    requires 0 < index < |ps| - 1
    requires Selects(ls, index + 1) && Selects(rs, |ps| - index)
    requires GapsWithin(ps[..index + 1], ls, limit, d) && GapsWithin(ps[index..], rs, limit, d)
    ensures ks == ls[..|ls| - 1] + Shifted(rs, index)
    ensures Selects(ks, |ps|) && GapsWithin(ps, ks, limit, d)
  {
    ks := ls[..|ls| - 1] + Shifted(rs, index);
    JoinedSelects(index, |ps|, ls, rs);
    forall j, i | 0 < j < |ks| && ks[j - 1] < i < ks[j] && ks[j] < |ps|
      ensures d(ps[i], ps[ks[j - 1]], ps[ks[j]]) <= limit
    {
      JoinedGap(ps, index, ls, rs, limit, d, ks, j, i);
    }
  }

  // ---- a negative tolerance ----

  /** Every piece of three or more vertices that splitting at farthest vertices leads to has a vertex off its
      chord. */
  predicate NowhereFlat<P>(ps: seq<P>, d: Metric<P>)
    decreases |ps|
  {
    |ps| < 3 ||
    (&& SplitIndex(ps, d) != 0
     && (ScanFindsFirstFarthest(ps, |ps| - 1, d);
         NowhereFlat(ps[..SplitIndex(ps, d) + 1], d) && NowhereFlat(ps[SplitIndex(ps, d)..], d)))
  }

  /** Under a negative limit no piece is near enough to its chord, so `rdp` splits all of them and keeps every
      vertex; that ends exactly when the line is nowhere flat. */
  function Simplification<P>(ps: seq<P>, limit: real, d: Metric<P>): seq<P>
    requires limit >= 0.0 || NowhereFlat(ps, d)
  {
    if limit >= 0.0 then Rdp(ps, limit, d) else ps
  }

  lemma {:induction false} NowhereFlatSplits<P>(ps: seq<P>, d: Metric<P>)
    requires NowhereFlat(ps, d) && |ps| >= 3
    ensures var index := SplitIndex(ps, d);
      && 0 < index < |ps| - 1 && NowhereFlat(ps[..index + 1], d) && NowhereFlat(ps[index..], d)
      && Spliced(ps[..index + 1], ps[index..]) == ps
  {
    ScanFindsFirstFarthest(ps, |ps| - 1, d);
  }

  /** What the recursion does with a line that it splits, and with one that it does not. */
  lemma {:induction false} SimplificationSplits<P>(ps: seq<P>, limit: real, d: Metric<P>)
    requires limit >= 0.0 || NowhereFlat(ps, d)
    requires Splits(ps, limit, d)
    ensures 0 < SplitIndex(ps, d) < |ps| - 1
    ensures var index := SplitIndex(ps, d);
      && (limit >= 0.0 || (NowhereFlat(ps[..index + 1], d) && NowhereFlat(ps[index..], d)))
      && var left := Simplification(ps[..index + 1], limit, d);
      && left != [] && Simplification(ps, limit, d) == Spliced(left, Simplification(ps[index..], limit, d))
  {
    if limit < 0.0 {
      NowhereFlatSplits(ps, d);
    } else {
      SplitInside(ps, limit, d);
    }
  }

  lemma {:induction false} SimplificationStops<P>(ps: seq<P>, limit: real, d: Metric<P>)
    requires limit >= 0.0 || NowhereFlat(ps, d)
    requires |ps| >= 3 && !Splits(ps, limit, d)
    ensures Simplification(ps, limit, d) == [ps[0], ps[|ps| - 1]]
  {
    ScanFindsFirstFarthest(ps, |ps| - 1, d);
  }

  /** A piece of three or more vertices without one off its chord, under a negative limit: `rdp` splits it at
      its first vertex and is called for the same piece again. */
  ghost predicate ComesBack<P>(piece: seq<P>, limit: real, d: Metric<P>) {
    && Splits(piece, limit, d) && SplitIndex(piece, d) == 0 && piece[SplitIndex(piece, d)..] == piece
    && forall i :: 0 < i < |piece| - 1 ==> Chord(piece, i, d) <= 0.0
  }

  lemma {:induction false} FlatComesBack<P>(piece: seq<P>, limit: real, d: Metric<P>)
    requires limit < 0.0 && |piece| >= 3 && SplitIndex(piece, d) == 0
    ensures ComesBack(piece, limit, d)
  {
    ScanFindsFirstFarthest(piece, |piece| - 1, d);
    assert piece[0..] == piece;
  }

  /** On any other line `rdp` comes to such a piece. */
  lemma {:induction false} FlatPieceComesBack<P>(ps: seq<P>, limit: real, d: Metric<P>) returns (lo: nat, hi: nat)
    requires limit < 0.0 && !NowhereFlat(ps, d)
    ensures lo + 3 <= hi <= |ps| && ComesBack(ps[lo..hi], limit, d)
  {
    assert ps[0..|ps|] == ps;
    lo, hi := FlatPieceWithin(ps, 0, |ps|, limit, d);
  }

  lemma {:induction false} SomewhereFlat<P>(ps: seq<P>, d: Metric<P>)
    requires !NowhereFlat(ps, d)
    ensures |ps| >= 3
    ensures var index := SplitIndex(ps, d);
      || index == 0
      || (0 < index < |ps| - 1 && (!NowhereFlat(ps[..index + 1], d) || !NowhereFlat(ps[index..], d)))
  {
    ScanFindsFirstFarthest(ps, |ps| - 1, d);
  }

  lemma {:induction false} FlatPieceWithin<P>(ps: seq<P>, begin: nat, end: nat, limit: real, d: Metric<P>)
    returns (lo: nat, hi: nat)
    requires begin <= end <= |ps| && limit < 0.0 && !NowhereFlat(ps[begin..end], d)
    ensures lo + 3 <= hi <= |ps| && ComesBack(ps[lo..hi], limit, d)
    decreases end - begin
  {
    var piece := ps[begin..end];
    SomewhereFlat(piece, d);
    var index := SplitIndex(piece, d);
    if index == 0 {
      lo, hi := begin, end;
      FlatComesBack(piece, limit, d);
    } else if !NowhereFlat(piece[..index + 1], d) {
      assert piece[..index + 1] == ps[begin..begin + index + 1];
      lo, hi := FlatPieceWithin(ps, begin, begin + index + 1, limit, d);
    } else {
      assert piece[index..] == ps[begin + index..end];
      lo, hi := FlatPieceWithin(ps, begin + index, end, limit, d);
    }
  }
}

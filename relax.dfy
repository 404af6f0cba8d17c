/**
 * The specification of `averageRelax`: Jacobi-style neighbour averaging.
 * One sweep moves every vertex towards the mean of its ring, reading only the
 * positions the previous sweep produced; `Relaxed` is `k` such sweeps.
 */
module Relax {
  import opened VectorMath
  import opened Topology

  /** Sum of the positions of the first `m` ring entries, accumulated in ring order. */
  function RingSum(s: seq<Vec3>, ring: seq<int>, m: nat): Vec3
    requires m <= |ring| && forall j :: 0 <= j < |ring| ==> 0 <= ring[j] < |s|
  {
    if m == 0 then Zero() else Add(RingSum(s, ring, m - 1), s[ring[m - 1]])
  }

  /** Arithmetic mean of a non-empty ring's positions. */
  function Mean(s: seq<Vec3>, ring: seq<int>): Vec3
    requires RingOk(ring, |s|)
  {
    Div(RingSum(s, ring, |ring|), |ring| as real)
  }

  /** The sum of `m` ring entries that all sit at `p` is `m` copies of `p`. */
  lemma {:induction false} RingSumOfCoincident(s: seq<Vec3>, ring: seq<int>, m: nat, p: Vec3)
    requires m <= |ring| && forall j :: 0 <= j < |ring| ==> 0 <= ring[j] < |s|
    requires forall j :: 0 <= j < m ==> s[ring[j]] == p
    ensures RingSum(s, ring, m) == Scale(p, m as real)
  {
    if m > 0 {
      RingSumOfCoincident(s, ring, m - 1, p);
      ScaleSucc(p, (m - 1) as real);
    }
  }

  /** A ring whose neighbours all sit at the same position `p` averages to `p`. */
  lemma MeanOfCoincident(s: seq<Vec3>, ring: seq<int>, p: Vec3)
    requires RingOk(ring, |s|) && forall j :: 0 <= j < |ring| ==> s[ring[j]] == p
    ensures Mean(s, ring) == p
  {
    RingSumOfCoincident(s, ring, |ring|, p);
    DivScale(p, |ring| as real, |ring| as real);
  }

  /** One relaxed point: the old point moved by `amount` of the way to the ring mean. */
  function RelaxPoint(c: Vec3, m: Vec3, amount: real): (r: Vec3)
    ensures amount == 0.0 ==> r == c
    ensures amount == 1.0 ==> r == m
    ensures Sub(r, c) == Scale(Sub(m, c), amount)
  {
    Add(c, Scale(Sub(m, c), amount))
  }

  /** The first `n` points of one sweep over the positions `s`. */
  function StepPrefix(recs: seq<PointData>, s: seq<Vec3>, amount: real, n: nat): (r: seq<Vec3>)
    requires |recs| == |s| && Ready(recs) && n <= |s|
    ensures |r| == n
  {
    if n == 0 then []
    else StepPrefix(recs, s, amount, n - 1) + [RelaxPoint(s[n - 1], Mean(s, recs[n - 1].neighbours), amount)]
  }

  /** One Jacobi sweep over all vertices. */
  function Step(recs: seq<PointData>, s: seq<Vec3>, amount: real): (r: seq<Vec3>)
    requires |recs| == |s| && Ready(recs)
    ensures |r| == |s|
  {
    StepPrefix(recs, s, amount, |s|)
  }

  /**
   * Every point of a sweep is computed from the previous positions `s` alone:
   * its own old position and the old positions of its ring, never a point the
   * same sweep has already moved.
   */
  lemma {:induction false} StepPrefixAt(recs: seq<PointData>, s: seq<Vec3>, amount: real, n: nat, i: int)
    requires |recs| == |s| && Ready(recs) && n <= |s| && 0 <= i < n
    ensures StepPrefix(recs, s, amount, n)[i] == RelaxPoint(s[i], Mean(s, recs[i].neighbours), amount)
  {
    if i < n - 1 {
      StepPrefixAt(recs, s, amount, n - 1, i);
    }
  }

  /** `k` sweeps; zero or fewer sweeps leave the positions as they are. */
  function Relaxed(recs: seq<PointData>, s: seq<Vec3>, k: int, amount: real): (r: seq<Vec3>)
    requires |recs| == |s| && Ready(recs)
    ensures |r| == |s|
    decreases k
  {
    if k <= 0 then s else Step(recs, Relaxed(recs, s, k - 1, amount), amount)
  }

  /**
   * `MPointArray::setLength`: the first `n` entries are kept and missing
   * entries are filled with the origin.
   */
  function Resized(t: seq<Vec3>, n: nat): (r: seq<Vec3>)
    ensures |r| == n
    ensures forall j :: 0 <= j < n && j < |t| ==> r[j] == t[j]
    ensures forall j :: |t| <= j < n ==> r[j] == Zero()
  {
    if n <= |t| then t[..n] else t + Zeros(n - |t|)
  }

  /**
   * What `averageRelax(source, target, iter, amount)` leaves in `target`:
   * `iter` sweeps starting from `source` when `iter` is positive, and
   * otherwise the old `target`, only resized to the length of `source`.
   */
  function Smoothed(recs: seq<PointData>, source: seq<Vec3>, target: seq<Vec3>, iter: int, amount: real): (r: seq<Vec3>)
    requires |recs| == |source| && Ready(recs)
    ensures |r| == |source|
  {
    if iter > 0 then Relaxed(recs, source, iter, amount) else Resized(target, |source|)
  }

  /**
   * When `target` starts as a copy of `source`, as the bind's `back` buffer
   * does, the result is the relaxed positions for every iteration count,
   * including zero.
   */
  lemma SmoothedFromCopy(recs: seq<PointData>, s: seq<Vec3>, iter: int, amount: real)
    requires |recs| == |s| && Ready(recs)
    ensures Smoothed(recs, s, s, iter, amount) == Relaxed(recs, s, iter, amount)
  {
    if iter <= 0 {
      assert Resized(s, |s|) == s;
    }
  }

  /** Relaxation reads only the rings of the records, not their offsets or lengths. */
  lemma {:induction false} RelaxedSameRings(a: seq<PointData>, b: seq<PointData>, s: seq<Vec3>, k: int, amount: real)
    requires |a| == |s| && Ready(a) && Ready(b) && SameRings(a, b)
    ensures Relaxed(a, s, k, amount) == Relaxed(b, s, k, amount)
    decreases k
  {
    if k > 0 {
      RelaxedSameRings(a, b, s, k - 1, amount);
      var t := Relaxed(a, s, k - 1, amount);
      forall i | 0 <= i < |t|
        ensures Step(a, t, amount)[i] == Step(b, t, amount)[i]
      {
        StepPrefixAt(a, t, amount, |t|, i);
        StepPrefixAt(b, t, amount, |t|, i);
        assert a[i].neighbours == b[i].neighbours;
      }
    }
  }

  /** Sweeps compose: `k` sweeps after `j` sweeps are `j + k` sweeps. */
  lemma {:induction false} RelaxedCompose(recs: seq<PointData>, s: seq<Vec3>, j: nat, k: nat, amount: real)
    requires |recs| == |s| && Ready(recs)
    ensures Relaxed(recs, Relaxed(recs, s, j, amount), k, amount) == Relaxed(recs, s, j + k, amount)
    decreases k
  {
    if k > 0 {
      RelaxedCompose(recs, s, j, k - 1, amount);
    }
  }

  /** With `amount` zero no sweep moves any point, however many sweeps run. */
  lemma {:induction false} RelaxedAmountZero(recs: seq<PointData>, s: seq<Vec3>, k: int)
    requires |recs| == |s| && Ready(recs)
    ensures Relaxed(recs, s, k, 0.0) == s
    decreases k
  {
    if k > 0 {
      RelaxedAmountZero(recs, s, k - 1);
      forall i | 0 <= i < |s|
        ensures Step(recs, s, 0.0)[i] == s[i]
      {
        StepPrefixAt(recs, s, 0.0, |s|, i);
      }
    }
  }
}

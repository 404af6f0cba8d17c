/**
 * The specification of binding (`computeDelta`) and of the per-vertex
 * decode-and-blend loop of `deform`.
 *
 * At bind time every vertex stores the length of its detail offset (rest
 * position minus smoothed position) and, for each consecutive pair of ring
 * neighbours, that offset expressed in a local frame built from the pair.
 * At evaluation time the same frames are rebuilt from the smoothed live
 * positions, the stored offsets are decoded through them and averaged, the
 * average is rescaled, added to the smoothed position and blended with the
 * input position by the painted weight and the envelope.
 */
module Delta {
  import opened VectorMath
  import opened Topology
  import opened Relax

  /**
   * `SMALL`, the single-precision constant `(float)1e-6`, written out exactly
   * (it is slightly below one millionth): an envelope or `applyDelta` below it
   * counts as switched off.
   */
  const Small: real := 8796093.0 / 8796093022208.0

  /** The node's attribute values as one evaluation of `deform` reads them. */
  datatype Settings = Settings(
    envelope: real,
    iterations: int,
    applyDelta: real,
    amount: real,
    rebind: bool,
    globalScale: real)

  datatype Option<T> = None | Some(value: T)

  /**
   * The local frame at `c` from two neighbour positions. Its rows are the unit
   * direction `v1` to the first neighbour, `cross ^ v1` and `cross = v1 ^ v2`,
   * where `v2` is the unit direction to the second neighbour. Neither `cross`
   * nor the middle row is normalised, so the frame is orthogonal but in general
   * not orthonormal.
   */
  function Frame(lib: MathLib, c: Vec3, p0: Vec3, p1: Vec3): (m: Mat3)
    ensures Dot(m.r1, m.r0) == 0.0 && Dot(m.r2, m.r0) == 0.0 && Dot(m.r1, m.r2) == 0.0
  {
    var v1 := Normal(lib, Sub(p0, c));
    var v2 := Normal(lib, Sub(p1, c));
    var cr := Cross(v1, v2);
    CrossOrthogonal(v1, v2);
    CrossOrthogonal(cr, v1);
    Mat3(v1, Cross(cr, v1), cr)
  }

  /** The frame of vertex `i` for its ring pair `(n, n + 1)` over the positions `t`. */
  function PairFrame(lib: MathLib, rec: PointData, t: seq<Vec3>, i: int, n: int): Mat3
    requires WellFormed(rec, |t|) && 0 <= i < |t| && 0 <= n < rec.size - 1
  {
    Frame(lib, t[i], t[rec.neighbours[n]], t[rec.neighbours[n + 1]])
  }

  /**
   * The offset slots after binding vertex `i` with detail `d` over the smoothed
   * positions `t`: slot `n` of every pair `(n, n + 1)` holds `d` times the
   * inverse of that pair's frame; the remaining slot keeps its old value.
   */
  function EncodedSlots(lib: MathLib, rec: PointData, t: seq<Vec3>, i: int, d: Vec3): (r: seq<Vec3>)
    requires WellFormed(rec, |t|) && 0 <= i < |t|
    ensures |r| == |rec.delta|
  {
    seq(|rec.delta|, n requires 0 <= n < |rec.delta| =>
      if n < rec.size - 1 then VecMat(d, lib.inverse(PairFrame(lib, rec, t, i, n))) else rec.delta[n])
  }

  /** Vertex `i`'s record after `computeDelta(source, target)`. */
  function BindRecord(lib: MathLib, rec: PointData, source: seq<Vec3>, target: seq<Vec3>, i: int): (r: PointData)
    requires WellFormed(rec, |target|) && |source| == |target| && 0 <= i < |target|
    ensures r.neighbours == rec.neighbours && r.size == rec.size && WellFormed(r, |target|)
  {
    var d := Sub(source[i], target[i]);
    rec.(deltaLen := Length(lib, d), delta := EncodedSlots(lib, rec, target, i, d))
  }

  /** All records after `computeDelta(source, target)`. */
  function BindAll(lib: MathLib, recs: seq<PointData>, source: seq<Vec3>, target: seq<Vec3>): (r: seq<PointData>)
    requires |recs| == |source| == |target| && Ready(recs)
    ensures |r| == |recs| && Ready(r) && SameRings(recs, r)
  {
    seq(|recs|, i requires 0 <= i < |recs| => BindRecord(lib, recs[i], source, target, i))
  }

  /**
   * What binding stores for vertex `i`: `deltaLen` is the length of the detail
   * `source[i] - target[i]`, zero exactly when the two positions coincide;
   * each pair slot `n < size - 1` holds the detail encoded in the pair's frame;
   * the last slot of the array `initData` allocated is left as it was.
   */
  lemma BindStores(lib: MathLib, recs: seq<PointData>, source: seq<Vec3>, target: seq<Vec3>, i: int)
    requires SqrtSound(lib) && |recs| == |source| == |target| && Ready(recs) && 0 <= i < |recs|
    ensures var r := BindAll(lib, recs, source, target)[i];
            var d := Sub(source[i], target[i]);
            0.0 <= r.deltaLen && Sq(r.deltaLen) == Dot(d, d) &&
            (r.deltaLen == 0.0 <==> source[i] == target[i]) &&
            (forall n :: 0 <= n < recs[i].size - 1 ==>
               r.delta[n] == VecMat(d, lib.inverse(PairFrame(lib, recs[i], target, i, n)))) &&
            r.delta[recs[i].size - 1] == recs[i].delta[recs[i].size - 1]
  {
    LengthPositive(lib, Sub(source[i], target[i]));
    SubZero(source[i], target[i]);
  }

  /**
   * Binding against unsmoothed positions (zero iterations, where the bind's
   * `back` buffer is still a copy of the rest positions) stores no detail:
   * every length is zero and every pair slot is the zero vector.
   */
  lemma BindUnsmoothed(lib: MathLib, recs: seq<PointData>, s: seq<Vec3>, i: int)
    requires SqrtSound(lib) && |recs| == |s| && Ready(recs) && 0 <= i < |recs|
    ensures var r := BindAll(lib, recs, s, s)[i];
            r.deltaLen == 0.0 && forall n :: 0 <= n < recs[i].size - 1 ==> r.delta[n] == Zero()
  {
    BindAllAt(lib, recs, s, s, i);
    BindRecordUnsmoothed(lib, recs[i], s, i);
  }

  /** Vertex `i` of `BindAll` is bound on its own, from its own old record. */
  lemma BindAllAt(lib: MathLib, recs: seq<PointData>, source: seq<Vec3>, target: seq<Vec3>, i: int)
    requires |recs| == |source| == |target| && Ready(recs) && 0 <= i < |recs|
    ensures BindAll(lib, recs, source, target)[i] == BindRecord(lib, recs[i], source, target, i)
  {
  }

  /** One record bound against the positions it sits at. */
  lemma BindRecordUnsmoothed(lib: MathLib, rec: PointData, s: seq<Vec3>, i: int)
    requires SqrtSound(lib) && WellFormed(rec, |s|) && 0 <= i < |s|
    ensures var r := BindRecord(lib, rec, s, s, i);
            r.deltaLen == 0.0 && forall n :: 0 <= n < rec.size - 1 ==> r.delta[n] == Zero()
  {
    SubZero(s[i], s[i]);
    LengthPositive(lib, Zero());
    ZeroSlots(lib, rec, s, i);
  }

  /** Encoding the zero detail fills every pair slot with the zero vector. */
  lemma ZeroSlots(lib: MathLib, rec: PointData, t: seq<Vec3>, i: int)
    requires WellFormed(rec, |t|) && 0 <= i < |t|
    ensures forall n :: 0 <= n < rec.size - 1 ==> EncodedSlots(lib, rec, t, i, Zero())[n] == Zero()
  {
    forall n | 0 <= n < rec.size - 1
      ensures EncodedSlots(lib, rec, t, i, Zero())[n] == Zero()
    {
      EncodedSlotAt(lib, rec, t, i, Zero(), n);
      VecMatZero(lib.inverse(PairFrame(lib, rec, t, i, n)));
    }
  }

  /** Pair slot `n` of the encoded slots. */
  lemma EncodedSlotAt(lib: MathLib, rec: PointData, t: seq<Vec3>, i: int, d: Vec3, n: int)
    requires WellFormed(rec, |t|) && 0 <= i < |t| && 0 <= n < rec.size - 1
    ensures EncodedSlots(lib, rec, t, i, d)[n] == VecMat(d, lib.inverse(PairFrame(lib, rec, t, i, n)))
  {
  }

  /**
   * The records `rebindData` leaves: fresh records for the mesh, bound against
   * the mesh relaxed `iter` times from its rest positions.
   */
  function Bound(lib: MathLib, mesh: Mesh, iter: int, amount: real): (r: seq<PointData>)
    requires mesh.Valid()
    ensures |r| == |mesh.points| && Ready(r) && SameRings(InitRecords(mesh), r)
  {
    var recs := InitRecords(mesh);
    BindAll(lib, recs, mesh.points, Smoothed(recs, mesh.points, mesh.points, iter, amount))
  }

  /** Sum of the first `n` decoded offsets of a record, each through its pair's frame over `t`. */
  function DecodeSum(lib: MathLib, rec: PointData, t: seq<Vec3>, i: int, n: nat): Vec3
    requires WellFormed(rec, |t|) && 0 <= i < |t| && n <= rec.size - 1
  {
    if n == 0 then Zero()
    else Add(DecodeSum(lib, rec, t, i, n - 1), VecMat(rec.delta[n - 1], PairFrame(lib, rec, t, i, n - 1)))
  }

  /** The decoded offsets of vertex `i` summed over its pairs; nothing when `applyDelta` is below `Small`. */
  function Decoded(lib: MathLib, rec: PointData, t: seq<Vec3>, i: int, s: Settings): Vec3
    requires WellFormed(rec, |t|) && 0 <= i < |t|
  {
    if s.applyDelta >= Small then DecodeSum(lib, rec, t, i, rec.size - 1) else Zero()
  }

  /** The length the detail is rescaled to: `deltaLen * applyDelta * globalScale`. */
  function Magnitude(rec: PointData, s: Settings): real
  {
    rec.deltaLen * s.applyDelta * s.globalScale
  }

  /**
   * The detail vector `deform` adds to smoothed vertex `i`: the decoded offsets
   * divided by the ring size, normalised, and scaled to the magnitude.
   */
  function Detail(lib: MathLib, rec: PointData, t: seq<Vec3>, i: int, s: Settings): Vec3
    requires WellFormed(rec, |t|) && 0 <= i < |t|
  {
    Scale(Normal(lib, Div(Decoded(lib, rec, t, i, s), rec.size as real)), Magnitude(rec, s))
  }

  /** A length scaled by two factors whose product is one is unchanged. */
  lemma UnitFactors(len: real, a: real, g: real)
    requires a * g == 1.0
    ensures len * a * g == len
  {
    assert len * a * g == len * (a * g);
  }

  /**
   * With the delta switched off the detail is zero; otherwise, when the averaged
   * decoded offset is non-zero and the magnitude non-negative, the detail's
   * length is exactly `deltaLen * applyDelta * globalScale`.
   */
  lemma DetailLength(lib: MathLib, rec: PointData, t: seq<Vec3>, i: int, s: Settings)
    requires SqrtSound(lib) && WellFormed(rec, |t|) && 0 <= i < |t|
    ensures s.applyDelta < Small ==> Detail(lib, rec, t, i, s) == Zero()
    ensures s.applyDelta >= Small && 0.0 <= Magnitude(rec, s) &&
            Div(DecodeSum(lib, rec, t, i, rec.size - 1), rec.size as real) != Zero() ==>
            Length(lib, Detail(lib, rec, t, i, s)) == Magnitude(rec, s)
  {
    var avg := Div(Decoded(lib, rec, t, i, s), rec.size as real);
    var k := Magnitude(rec, s);
    if s.applyDelta < Small {
      ZeroScaled(k, rec.size as real);
      NormalZero(lib);
    } else if 0.0 <= k && avg != Zero() {
      ScaledNormalLength(lib, avg, k);
    }
  }

  /**
   * `pos + (candidate - pos) * weight * envelope`: the candidate itself when
   * weight times envelope is one, the input position when it is zero.
   */
  function Blend(p: Vec3, c: Vec3, w: real, e: real): (r: Vec3)
    ensures w * e == 1.0 ==> r == c
    ensures w * e == 0.0 ==> r == p
    ensures c == p ==> r == p
  {
    var d := Sub(c, p);
    assert (d.x * w) * e == d.x * (w * e);
    assert (d.y * w) * e == d.y * (w * e);
    assert (d.z * w) * e == d.z * (w * e);
    Add(p, Scale(Scale(d, w), e))
  }

  /** The positions the decode loop of `deform` writes, from input positions `pos` and smoothed `t`. */
  function Deformed(lib: MathLib, recs: seq<PointData>, pos: seq<Vec3>, t: seq<Vec3>, weights: seq<real>, s: Settings): (r: seq<Vec3>)
    requires |recs| == |pos| == |t| == |weights| && Ready(recs)
    ensures |r| == |pos|
  {
    seq(|pos|, i requires 0 <= i < |pos| =>
      Blend(pos[i], Add(t[i], Detail(lib, recs[i], t, i, s)), weights[i], s.envelope))
  }

  /** Vertex `i` of `Deformed` depends on vertex `i` of the inputs and the smoothed positions alone. */
  lemma DeformedAt(lib: MathLib, recs: seq<PointData>, pos: seq<Vec3>, t: seq<Vec3>, weights: seq<real>, s: Settings, i: int)
    requires |recs| == |pos| == |t| == |weights| && Ready(recs) && 0 <= i < |pos|
    ensures Deformed(lib, recs, pos, t, weights, s)[i] == Blend(pos[i], Add(t[i], Detail(lib, recs[i], t, i, s)), weights[i], s.envelope)
  {
  }

  /**
   * Two smoothed buffers agree around vertex `i` when they hold the same
   * positions at `i` and at every entry of its ring.
   */
  ghost predicate AgreeAround(rec: PointData, t: seq<Vec3>, u: seq<Vec3>, i: int)
    requires WellFormed(rec, |t|) && |u| == |t| && 0 <= i < |t|
  {
    t[i] == u[i] && forall j :: 0 <= j < rec.size ==> t[rec.neighbours[j]] == u[rec.neighbours[j]]
  }

  /** The decoded sum of vertex `i` reads the smoothed positions only at `i` and its ring. */
  lemma {:induction false} DecodeSumLocal(lib: MathLib, rec: PointData, t: seq<Vec3>, u: seq<Vec3>, i: int, n: nat)
    requires WellFormed(rec, |t|) && |u| == |t| && 0 <= i < |t| && n <= rec.size - 1
    requires AgreeAround(rec, t, u, i)
    ensures DecodeSum(lib, rec, t, i, n) == DecodeSum(lib, rec, u, i, n)
  {
    if n > 0 {
      DecodeSumLocal(lib, rec, t, u, i, n - 1);
      assert t[rec.neighbours[n - 1]] == u[rec.neighbours[n - 1]];
      assert t[rec.neighbours[n]] == u[rec.neighbours[n]];
    }
  }

  /**
   * Locality of the decode loop: vertex `i`'s output position depends only on
   * its own record, input position and weight, and on the smoothed positions of
   * itself and its ring. Every other vertex's record, input position, weight
   * and smoothed position may differ.
   */
  lemma DeformedLocal(lib: MathLib, recs: seq<PointData>, pos: seq<Vec3>, t: seq<Vec3>, weights: seq<real>,
                      recs': seq<PointData>, pos': seq<Vec3>, u: seq<Vec3>, weights': seq<real>, s: Settings, i: int)
    requires |recs| == |pos| == |t| == |weights| && Ready(recs) && 0 <= i < |pos|
    requires |recs'| == |pos'| == |u| == |weights'| == |pos| && Ready(recs')
    requires recs'[i] == recs[i] && pos'[i] == pos[i] && weights'[i] == weights[i]
    requires AgreeAround(recs[i], t, u, i)
    ensures Deformed(lib, recs', pos', u, weights', s)[i] == Deformed(lib, recs, pos, t, weights, s)[i]
  {
    var rec := recs[i];
    DeformedAt(lib, recs, pos, t, weights, s, i);
    DeformedAt(lib, recs', pos', u, weights', s, i);
    if s.applyDelta >= Small {
      DecodeSumLocal(lib, rec, t, u, i, rec.size - 1);
    }
    assert Decoded(lib, rec, t, i, s) == Decoded(lib, rec, u, i, s);
  }

  /**
   * The outcome of one `deform` after the bind check, for records `recs`, input
   * positions `pos` and the previous smoothed buffer `target`: no positions are
   * written when the envelope is below `Small` or the iteration count is zero,
   * and otherwise the decoded and blended positions.
   */
  function Evaluate(lib: MathLib, recs: seq<PointData>, pos: seq<Vec3>, target: seq<Vec3>, weights: seq<real>, s: Settings): (r: Option<seq<Vec3>>)
    requires |recs| == |pos| == |weights| && Ready(recs)
    ensures r.None? <==> (s.envelope < Small || s.iterations == 0)
    ensures r.Some? ==> |r.value| == |pos|
  {
    if s.envelope < Small || s.iterations == 0 then None
    else Some(Deformed(lib, recs, pos, Smoothed(recs, pos, target, s.iterations, s.amount), weights, s))
  }

  /** A vertex whose painted weight is zero keeps its input position. */
  lemma ZeroWeightKeepsPosition(lib: MathLib, recs: seq<PointData>, pos: seq<Vec3>, target: seq<Vec3>, weights: seq<real>, s: Settings, i: int)
    requires |recs| == |pos| == |weights| && Ready(recs) && 0 <= i < |pos| && weights[i] == 0.0
    requires s.envelope >= Small && s.iterations != 0
    ensures Evaluate(lib, recs, pos, target, weights, s).value[i] == pos[i]
  {
    assert weights[i] * s.envelope == 0.0;
  }

  /** Every pair frame of every vertex over the positions `t` is invertible. */
  ghost predicate FramesInvertible(lib: MathLib, recs: seq<PointData>, t: seq<Vec3>)
    requires |recs| == |t| && Ready(recs)
  {
    forall i, n :: 0 <= i < |recs| && 0 <= n < recs[i].size - 1 ==> Det(PairFrame(lib, recs[i], t, i, n)) != 0.0
  }

  /**
   * A record holds detail `d` of vertex `i` encoded over the positions `t`: its
   * length and, in each pair slot, `d` times the inverse of that pair's frame.
   */
  ghost predicate Encodes(lib: MathLib, rec: PointData, t: seq<Vec3>, i: int, d: Vec3)
    requires WellFormed(rec, |t|) && 0 <= i < |t|
  {
    rec.deltaLen == Length(lib, d) &&
    forall n :: 0 <= n < rec.size - 1 ==> rec.delta[n] == VecMat(d, lib.inverse(PairFrame(lib, rec, t, i, n)))
  }

  /**
   * Decoding the first `n` slots of a record that encodes `d`, through the same
   * invertible frames, gives `d` back once per decoded pair.
   */
  lemma {:induction false} DecodeSumOfEncoded(lib: MathLib, rec: PointData, t: seq<Vec3>, i: int, d: Vec3, n: nat)
    requires InverseSound(lib) && WellFormed(rec, |t|) && 0 <= i < |t| && n <= rec.size - 1
    requires Encodes(lib, rec, t, i, d)
    requires forall m :: 0 <= m < rec.size - 1 ==> Det(PairFrame(lib, rec, t, i, m)) != 0.0
    ensures DecodeSum(lib, rec, t, i, n) == Scale(d, n as real)
  {
    if n > 0 {
      DecodeSumOfEncoded(lib, rec, t, i, d, n - 1);
      DecodeUndoesEncode(lib, d, PairFrame(lib, rec, t, i, n - 1));
      ScaleSucc(d, (n - 1) as real);
    }
  }

  /**
   * Over the positions it was encoded against, a record whose ring has at least
   * two entries reproduces its detail exactly, provided the delta is applied at
   * full strength (`applyDelta * globalScale` is one).
   */
  lemma DetailOfEncoded(lib: MathLib, rec: PointData, t: seq<Vec3>, i: int, d: Vec3, s: Settings)
    requires SqrtSound(lib) && InverseSound(lib) && WellFormed(rec, |t|) && 0 <= i < |t| && rec.size >= 2
    requires Encodes(lib, rec, t, i, d)
    requires forall m :: 0 <= m < rec.size - 1 ==> Det(PairFrame(lib, rec, t, i, m)) != 0.0
    requires s.applyDelta >= Small && s.applyDelta * s.globalScale == 1.0
    ensures Detail(lib, rec, t, i, s) == d
  {
    var c := AverageOfEncoded(lib, rec, t, i, d, s);
    UnitFactors(rec.deltaLen, s.applyDelta, s.globalScale);
    RescaledDirection(lib, d, c, Magnitude(rec, s));
  }

  /**
   * The averaged decoded offset of a record that encodes `d` is a positive
   * multiple of `d`: `size - 1` copies of it divided by the ring size.
   */
  lemma AverageOfEncoded(lib: MathLib, rec: PointData, t: seq<Vec3>, i: int, d: Vec3, s: Settings) returns (c: real)
    requires InverseSound(lib) && WellFormed(rec, |t|) && 0 <= i < |t| && rec.size >= 2
    requires Encodes(lib, rec, t, i, d)
    requires forall m :: 0 <= m < rec.size - 1 ==> Det(PairFrame(lib, rec, t, i, m)) != 0.0
    requires s.applyDelta >= Small
    ensures 0.0 < c && Div(Decoded(lib, rec, t, i, s), rec.size as real) == Scale(d, c)
  {
    var m := rec.size - 1;
    c := (m as real) / (rec.size as real);
    DecodeSumOfEncoded(lib, rec, t, i, d, m);
    DivScale(d, m as real, rec.size as real);
  }

  /**
   * The rescale step of the decode: the direction of a positive multiple of
   * `d`, scaled to the length of `d`, is `d` itself.
   */
  lemma RescaledDirection(lib: MathLib, d: Vec3, c: real, k: real)
    requires SqrtSound(lib) && 0.0 < c && k == Length(lib, d)
    ensures Scale(Normal(lib, Scale(d, c)), k) == d
  {
    if d != Zero() {
      NormalOfPositiveMultiple(lib, d, c);
      NormalTimesLength(lib, d);
    } else {
      ZeroScaled(c, 1.0);
      NormalZero(lib);
      LengthPositive(lib, d);
      ZeroScaled(k, 1.0);
    }
  }

  /** `PairFrame` reads only the ring of a record. */
  lemma PairFrameSameRing(lib: MathLib, a: PointData, b: PointData, t: seq<Vec3>, i: int, n: int)
    requires WellFormed(a, |t|) && WellFormed(b, |t|) && a.neighbours == b.neighbours
    requires 0 <= i < |t| && 0 <= n < a.size - 1
    ensures PairFrame(lib, a, t, i, n) == PairFrame(lib, b, t, i, n)
  {
  }

  /** After `computeDelta(source, target)` vertex `i` encodes its detail `source[i] - target[i]` over `target`. */
  lemma BindEncodes(lib: MathLib, recs: seq<PointData>, source: seq<Vec3>, target: seq<Vec3>, i: int)
    requires |recs| == |source| == |target| && Ready(recs) && 0 <= i < |recs|
    ensures Encodes(lib, BindAll(lib, recs, source, target)[i], target, i, Sub(source[i], target[i]))
  {
    BindAllAt(lib, recs, source, target, i);
    var d := Sub(source[i], target[i]);
    var r := BindRecord(lib, recs[i], source, target, i);
    forall n | 0 <= n < r.size - 1
      ensures r.delta[n] == VecMat(d, lib.inverse(PairFrame(lib, r, target, i, n)))
    {
      EncodedSlotAt(lib, recs[i], target, i, d, n);
      PairFrameSameRing(lib, recs[i], r, target, i, n);
    }
  }

  /**
   * A vertex whose record encodes the offset from its smoothed position
   * `t[i]` to `p`, decoded over the same smoothed positions at full strength,
   * lands on `p` whatever its weight and the envelope.
   */
  lemma VertexRestored(lib: MathLib, rec: PointData, p: Vec3, t: seq<Vec3>, i: int, w: real, s: Settings)
    requires SqrtSound(lib) && InverseSound(lib) && WellFormed(rec, |t|) && 0 <= i < |t| && rec.size >= 2
    requires Encodes(lib, rec, t, i, Sub(p, t[i]))
    requires forall m :: 0 <= m < rec.size - 1 ==> Det(PairFrame(lib, rec, t, i, m)) != 0.0
    requires s.applyDelta >= Small && s.applyDelta * s.globalScale == 1.0
    ensures Blend(p, Add(t[i], Detail(lib, rec, t, i, s)), w, s.envelope) == p
  {
    DetailOfEncoded(lib, rec, t, i, Sub(p, t[i]), s);
    assert Add(t[i], Sub(p, t[i])) == p;
  }

  /**
   * The rest-pose round trip: binding a mesh and then evaluating the deformer on
   * the same rest positions, with the same smoothing and the delta at full
   * strength, reproduces the rest positions exactly, for every weight map and
   * every earlier smoothed buffer. It needs rings of at least two vertices (a
   * single neighbour forms no pair and its detail is lost) and invertible pair
   * frames over the smoothed mesh.
   */
  lemma RestPoseRoundTrip(lib: MathLib, mesh: Mesh, target: seq<Vec3>, weights: seq<real>, s: Settings)
    requires SqrtSound(lib) && InverseSound(lib) && mesh.Valid() && |weights| == |mesh.points|
    requires forall i :: 0 <= i < |mesh.rings| ==> |mesh.rings[i]| >= 2
    requires s.envelope >= Small && s.iterations > 0
    requires s.applyDelta >= Small && s.applyDelta * s.globalScale == 1.0
    requires FramesInvertible(lib, InitRecords(mesh), Relaxed(InitRecords(mesh), mesh.points, s.iterations, s.amount))
    ensures Evaluate(lib, Bound(lib, mesh, s.iterations, s.amount), mesh.points, target, weights, s) == Some(mesh.points)
  {
    var recs0 := InitRecords(mesh);
    var t := Relaxed(recs0, mesh.points, s.iterations, s.amount);
    var b := Bound(lib, mesh, s.iterations, s.amount);
    assert b == BindAll(lib, recs0, mesh.points, t);
    RelaxedSameRings(recs0, b, mesh.points, s.iterations, s.amount);
    BoundRestored(lib, recs0, mesh.points, t, weights, s);
  }

  /**
   * Every vertex bound against the smoothed positions `t` and decoded over the
   * same `t` at full strength is restored to its rest position.
   */
  lemma BoundRestored(lib: MathLib, recs: seq<PointData>, pts: seq<Vec3>, t: seq<Vec3>, weights: seq<real>, s: Settings)
    requires SqrtSound(lib) && InverseSound(lib)
    requires |recs| == |pts| == |t| == |weights| && Ready(recs)
    requires forall i :: 0 <= i < |recs| ==> recs[i].size >= 2
    requires FramesInvertible(lib, recs, t)
    requires s.applyDelta >= Small && s.applyDelta * s.globalScale == 1.0
    ensures Deformed(lib, BindAll(lib, recs, pts, t), pts, t, weights, s) == pts
  {
    var out := Deformed(lib, BindAll(lib, recs, pts, t), pts, t, weights, s);
    forall i | 0 <= i < |pts|
      ensures out[i] == pts[i]
    {
      BoundVertexRestored(lib, recs, pts, t, weights, s, i);
    }
  }

  /** One vertex of the rest-pose round trip, bound and decoded over the same smoothed positions `t`. */
  lemma BoundVertexRestored(lib: MathLib, recs: seq<PointData>, pts: seq<Vec3>, t: seq<Vec3>, weights: seq<real>, s: Settings, i: int)
    requires SqrtSound(lib) && InverseSound(lib)
    requires |recs| == |pts| == |t| == |weights| && Ready(recs) && 0 <= i < |pts| && recs[i].size >= 2
    requires forall m :: 0 <= m < recs[i].size - 1 ==> Det(PairFrame(lib, recs[i], t, i, m)) != 0.0
    requires s.applyDelta >= Small && s.applyDelta * s.globalScale == 1.0
    ensures Deformed(lib, BindAll(lib, recs, pts, t), pts, t, weights, s)[i] == pts[i]
  {
    var b := BindAll(lib, recs, pts, t);
    BindEncodes(lib, recs, pts, t, i);
    forall m | 0 <= m < b[i].size - 1
      ensures Det(PairFrame(lib, b[i], t, i, m)) != 0.0
    {
      PairFrameSameRing(lib, recs[i], b[i], t, i, m);
    }
    VertexRestored(lib, b[i], pts[i], t, i, weights[i], s);
  }
}

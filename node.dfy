/**
 * The deformer node itself: the bind flag, the per-vertex records and the
 * smoothed-position buffer it keeps between evaluations, and the methods of
 * `Delta_Mush_CPU` that update them, each proved against the specification
 * functions of `Relax` and `Delta`.
 */
module DeltaMushNode {
  import opened VectorMath
  import opened Topology
  import opened Relax
  import opened Delta

  /** The node's plugs, as `setDependentsDirty` tells them apart. */
  datatype Plug = ReferenceMesh | Rebind | Iterations | ApplyDelta | Amount | GlobalScale | Envelope | OtherPlug

  class DeltaMushCpu {
    /** The smoothed positions of the last evaluation, kept between evaluations. */
    var targetPos: seq<Vec3>
    /** One record per vertex of the bound reference mesh. */
    var dataPoints: seq<PointData>
    /** Whether the records hold a bind that is still current. */
    var initialized: bool

    /** Once bound, the records fit the mesh they were built from. */
    ghost predicate Valid()
      reads this
    {
      initialized ==> Ready(dataPoints)
    }

    constructor ()
      ensures !initialized && targetPos == [] && dataPoints == [] && Valid()
    {
      initialized := false;
      targetPos := [];
      dataPoints := [];
    }

    /**
     * `initData`: one fresh record per vertex of `mesh`, holding its ring, the
     * ring size and a zero offset per ring entry. The record array is first
     * resized to the vertex count, then every entry is overwritten.
     */
    method InitData(mesh: Mesh)
      requires mesh.Valid()
      modifies this`dataPoints
      ensures dataPoints == InitRecords(mesh)
    {
      var size := |mesh.points|;
      if size <= |dataPoints| {
        dataPoints := dataPoints[..size];
      } else {
        dataPoints := dataPoints + seq(size - |dataPoints|, _ => PointData([], [], 0, 0.0));
      }
      var i := 0;
      while i < size
        invariant 0 <= i <= size && |dataPoints| == size
        invariant forall j :: 0 <= j < i ==> dataPoints[j] == InitRecord(mesh.rings[j])
      {
        var pt := PointData(mesh.rings[i], [], |mesh.rings[i]|, 0.0);
        dataPoints := dataPoints[i := pt];
        dataPoints := dataPoints[i := dataPoints[i].(delta := Zeros(pt.size))];
        i := i + 1;
      }
    }

    /**
     * `averageRelax(source, target, iter, amount)`: returns what the source
     * leaves in `target`. The result is resized to the length of `source`;
     * each of the `iter` sweeps reads only the scratch copy and the copy is
     * refreshed after the sweep, so the result is `iter` Jacobi sweeps of
     * `source`, or the resized old `target` when no sweep runs.
     */
    method AverageRelax(source: seq<Vec3>, target: seq<Vec3>, iter: int, amount: real) returns (result: seq<Vec3>)
      requires Ready(dataPoints) && |dataPoints| == |source|
      ensures result == Smoothed(dataPoints, source, target, iter, amount)
    {
      var size := |source|;
      result := Resized(target, size);
      var copy := source;
      var it := 0;
      while it < iter
        invariant 0 <= it && (iter > 0 ==> it <= iter) && (iter <= 0 ==> it == 0)
        invariant copy == Relaxed(dataPoints, source, it, amount)
        invariant |result| == size
        invariant if it == 0 then result == Resized(target, size) else result == copy
      {
        var i := 0;
        while i < size
          invariant 0 <= i <= size && |result| == size
          invariant result[..i] == StepPrefix(dataPoints, copy, amount, i)
        {
          var rec := dataPoints[i];
          var temp := Zero();
          var n := 0;
          while n < rec.size
            invariant 0 <= n <= rec.size
            invariant temp == RingSum(copy, rec.neighbours, n)
          {
            temp := Add(temp, copy[rec.neighbours[n]]);
            n := n + 1;
          }
          temp := Div(temp, rec.size as real);
          result := result[i := Add(copy[i], Scale(Sub(temp, copy[i]), amount))];
          assert result[..i + 1] == result[..i] + [result[i]];
          i := i + 1;
        }
        assert result == result[..size];
        copy := result;
        it := it + 1;
      }
    }

    /**
     * `computeDelta(source, target)`: for every vertex, the length of its detail
     * `source[i] - target[i]` and, in each pair slot, that detail times the
     * inverse of the pair's frame over `target`.
     */
    method ComputeDelta(lib: MathLib, source: seq<Vec3>, target: seq<Vec3>)
      requires Ready(dataPoints) && |dataPoints| == |source| == |target|
      modifies this`dataPoints
      ensures dataPoints == BindAll(lib, old(dataPoints), source, target)
    {
      ghost var recs := dataPoints;
      var size := |source|;
      var i := 0;
      while i < size
        invariant 0 <= i <= size && |dataPoints| == size
        invariant forall j :: 0 <= j < i ==> dataPoints[j] == BindRecord(lib, recs[j], source, target, j)
        invariant forall j :: i <= j < size ==> dataPoints[j] == recs[j]
      {
        EncodeVertex(lib, source, target, i);
        i := i + 1;
      }
      forall j | 0 <= j < size
        ensures dataPoints[j] == BindAll(lib, recs, source, target)[j]
      {
        BindAllAt(lib, recs, source, target, j);
      }
    }

    /**
     * One pass of the outer loop of `computeDelta`: vertex `i`'s `deltaLen`,
     * then its pair slots one by one, written in place; no other record changes.
     */
    method EncodeVertex(lib: MathLib, source: seq<Vec3>, target: seq<Vec3>, i: int)
      requires |dataPoints| == |source| == |target| && 0 <= i < |target| && WellFormed(dataPoints[i], |target|)
      modifies this`dataPoints
      ensures dataPoints == old(dataPoints)[i := BindRecord(lib, old(dataPoints)[i], source, target, i)]
    {
      ghost var rec0 := dataPoints[i];
      var delta := Sub(source[i], target[i]);
      dataPoints := dataPoints[i := dataPoints[i].(deltaLen := Length(lib, delta))];
      ghost var before := dataPoints;
      var n := 0;
      while n < dataPoints[i].size - 1
        invariant 0 <= n <= rec0.size - 1 && |dataPoints| == |target|
        invariant dataPoints == before[i := dataPoints[i]]
        invariant dataPoints[i] == rec0.(deltaLen := Length(lib, delta), delta := dataPoints[i].delta)
        invariant |dataPoints[i].delta| == rec0.size
        invariant forall k :: 0 <= k < n ==> dataPoints[i].delta[k] == VecMat(delta, lib.inverse(PairFrame(lib, rec0, target, i, k)))
        invariant forall k :: n <= k < rec0.size ==> dataPoints[i].delta[k] == rec0.delta[k]
      {
        var rec := dataPoints[i];
        var mat := Frame(lib, target[i], target[rec.neighbours[n]], target[rec.neighbours[n + 1]]);
        dataPoints := dataPoints[i := rec.(delta := rec.delta[n := VecMat(delta, lib.inverse(mat))])];
        n := n + 1;
      }
      forall k | 0 <= k < rec0.size
        ensures dataPoints[i].delta[k] == EncodedSlots(lib, rec0, target, i, delta)[k]
      {
        if k < rec0.size - 1 {
          EncodedSlotAt(lib, rec0, target, i, delta, k);
        }
      }
      assert dataPoints[i] == BindRecord(lib, rec0, source, target, i);
    }

    /**
     * `rebindData`: fresh records for `mesh`, bound against the mesh relaxed
     * `iter` times from a copy of its rest positions.
     */
    method RebindData(lib: MathLib, mesh: Mesh, iter: int, amount: real)
      requires mesh.Valid()
      modifies this`dataPoints
      ensures dataPoints == Bound(lib, mesh, iter, amount)
    {
      InitData(mesh);
      var posRev := mesh.points;
      var back := posRev;
      back := AverageRelax(posRev, back, iter, amount);
      ComputeDelta(lib, posRev, back);
    }

    /**
     * `deform`: rebind first when there is no current bind or `rebind` is set;
     * then return without writing positions when the envelope is below `Small`;
     * otherwise smooth the input positions into `targetPos`, return without
     * writing when the iteration count is zero, and else write the decoded and
     * blended positions. `written` is what `setAllPositions` receives, `None`
     * when it is not called.
     */
    method Deform(lib: MathLib, mesh: Mesh, pos: seq<Vec3>, weights: seq<real>, s: Settings) returns (written: Option<seq<Vec3>>)
      requires Valid() && mesh.Valid() && |pos| == |mesh.points| && |weights| == |pos|
      requires initialized && !s.rebind ==> |dataPoints| == |pos|
      modifies this`dataPoints, this`targetPos, this`initialized
      ensures Valid() && initialized && |dataPoints| == |pos|
      ensures dataPoints == if old(initialized) && !s.rebind then old(dataPoints) else Bound(lib, mesh, s.iterations, s.amount)
      ensures s.envelope < Small ==> targetPos == old(targetPos)
      ensures s.envelope >= Small ==> targetPos == Smoothed(dataPoints, pos, old(targetPos), s.iterations, s.amount)
      ensures written == Evaluate(lib, dataPoints, pos, old(targetPos), weights, s)
    {
      if !initialized || s.rebind {
        RebindData(lib, mesh, s.iterations, s.amount);
        initialized := true;
      }
      if s.envelope < Small {
        return None;
      }
      var size := |pos|;
      targetPos := AverageRelax(pos, targetPos, s.iterations, s.amount);
      if s.iterations == 0 {
        return None;
      }
      var final := DecodeAll(lib, pos, weights, s);
      written := Some(final);
    }

    /**
     * The per-vertex loop of `deform`: starting from a copy of `targetPos`,
     * every vertex is decoded and blended in turn.
     */
    method DecodeAll(lib: MathLib, pos: seq<Vec3>, weights: seq<real>, s: Settings) returns (final: seq<Vec3>)
      requires Ready(dataPoints) && |dataPoints| == |targetPos| == |pos| == |weights|
      ensures final == Deformed(lib, dataPoints, pos, targetPos, weights, s)
    {
      var size := |pos|;
      final := targetPos;
      var i := 0;
      while i < size
        invariant 0 <= i <= size && |final| == size
        invariant forall j :: 0 <= j < i ==> final[j] == Deformed(lib, dataPoints, pos, targetPos, weights, s)[j]
      {
        var p := DecodeVertex(lib, i, pos[i], weights[i], s);
        DeformedAt(lib, dataPoints, pos, targetPos, weights, s, i);
        final := final[i := p];
        i := i + 1;
      }
    }

    /**
     * One pass of the per-vertex loop of `deform`: decode vertex `i`'s offsets
     * through the frames rebuilt over `targetPos` (unless `applyDelta` is below
     * `Small`), average and rescale them, add them to the smoothed position and
     * blend the result with the input position `p` by `weight` and the envelope.
     */
    method DecodeVertex(lib: MathLib, i: int, p: Vec3, weight: real, s: Settings) returns (r: Vec3)
      requires Ready(dataPoints) && |dataPoints| == |targetPos| && 0 <= i < |targetPos|
      ensures r == Blend(p, Add(targetPos[i], Detail(lib, dataPoints[i], targetPos, i, s)), weight, s.envelope)
    {
      var rec := dataPoints[i];
      var delta := Zero();
      if s.applyDelta >= Small {
        var n := 0;
        while n < rec.size - 1
          invariant 0 <= n <= rec.size - 1
          invariant delta == DecodeSum(lib, rec, targetPos, i, n)
        {
          var mat := Frame(lib, targetPos[i], targetPos[rec.neighbours[n]], targetPos[rec.neighbours[n + 1]]);
          delta := Add(delta, VecMat(rec.delta[n], mat));
          n := n + 1;
        }
      }
      assert delta == Decoded(lib, rec, targetPos, i, s);
      delta := Div(delta, rec.size as real);
      delta := Scale(Normal(lib, delta), Magnitude(rec, s));
      r := Add(targetPos[i], delta);
      r := Blend(p, r, weight, s.envelope);
    }

    /**
     * `setDependentsDirty`: a change to `iterations` or `amount` invalidates the
     * bind, so the next evaluation rebinds; every other plug leaves it alone.
     */
    method SetDependentsDirty(plug: Plug)
      requires Valid()
      modifies this`initialized
      ensures Valid()
      ensures initialized == (old(initialized) && plug != Iterations && plug != Amount)
    {
      if plug == Iterations || plug == Amount {
        initialized := false;
      }
    }
  }
}

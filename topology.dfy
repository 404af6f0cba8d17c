/**
 * The per-vertex topology records of the deformer (`point_data`) and the
 * reference mesh they are built from.
 */
module Topology {
  import opened VectorMath

  /**
   * One vertex's record: its ring of connected vertices, one local offset slot
   * per ring entry (only the first `size - 1` are ever filled, one per
   * consecutive neighbour pair), the ring size, and the length of the bind-time
   * detail offset.
   */
  datatype PointData = PointData(neighbours: seq<int>, delta: seq<Vec3>, size: int, deltaLen: real)

  /**
   * The reference mesh as the deformer queries it: a position per vertex and,
   * per vertex, the connected vertices in the order the host's vertex iterator
   * reports them.
   */
  datatype Mesh = Mesh(points: seq<Vec3>, rings: seq<seq<int>>)
  {
    /**
     * Every ring indexes existing vertices and is non-empty: the deformer
     * divides by the ring size when it averages neighbours.
     */
    ghost predicate Valid()
    {
      |rings| == |points| &&
      forall i :: 0 <= i < |rings| ==> RingOk(rings[i], |points|)
    }
  }

  /** A ring with at least one entry, every entry a vertex index below `n`. */
  ghost predicate RingOk(ring: seq<int>, n: int)
  {
    |ring| > 0 && forall j :: 0 <= j < |ring| ==> 0 <= ring[j] < n
  }

  /** The shape `initData` gives every record, with neighbour indices below `n`. */
  ghost predicate WellFormed(rec: PointData, n: int)
  {
    rec.size == |rec.neighbours| && |rec.delta| == rec.size && RingOk(rec.neighbours, n)
  }

  /** Records, one per vertex, each well-formed for a mesh of `|recs|` vertices. */
  ghost predicate Ready(recs: seq<PointData>)
  {
    forall i :: 0 <= i < |recs| ==> WellFormed(recs[i], |recs|)
  }

  /** `n` zero vectors, as a freshly sized `MVectorArray`. */
  function Zeros(n: nat): (r: seq<Vec3>)
    ensures |r| == n && forall k :: 0 <= k < n ==> r[k] == Zero()
  {
    seq(n, _ => Zero())
  }

  /**
   * The record `initData` stores for one ring: the ring, its size, and a
   * zero-filled offset array with one slot per neighbour. The source leaves
   * `deltaLen` uninitialised here; the model sets it to zero, and `computeDelta`
   * overwrites it on every bind.
   */
  function InitRecord(ring: seq<int>): (r: PointData)
    ensures r.neighbours == ring && r.size == |ring| && |r.delta| == |ring|
    ensures forall k :: 0 <= k < |ring| ==> r.delta[k] == Zero()
  {
    PointData(ring, Zeros(|ring|), |ring|, 0.0)
  }

  /** The records `initData` builds from a mesh, one per vertex, independent of any earlier records. */
  function InitRecords(mesh: Mesh): (r: seq<PointData>)
    requires mesh.Valid()
    ensures |r| == |mesh.points| && Ready(r)
    ensures forall i :: 0 <= i < |r| ==> r[i].neighbours == mesh.rings[i]
  {
    seq(|mesh.rings|, i requires 0 <= i < |mesh.rings| => InitRecord(mesh.rings[i]))
  }

  /** Two record sequences with the same rings, vertex by vertex. */
  ghost predicate SameRings(a: seq<PointData>, b: seq<PointData>)
  {
    |a| == |b| && forall i :: 0 <= i < |a| ==> a[i].neighbours == b[i].neighbours
  }
}

# Delta mush deformer, modelled in Dafny

This project models the CPU delta-mush deformer node `Delta_Mush_CPU`. The node smooths
a mesh with Jacobi-style neighbour averaging and, at bind time, stores per vertex the
offset between the rest position and the smoothed rest position. The offset is stored
once per consecutive pair of ring neighbours, in a local frame built from that pair. At
evaluation time the node smooths the live positions, rebuilds the same frames, decodes
and averages the stored offsets, rescales them and adds them back. It then blends the
result with the input positions by the painted weight and the envelope.

The model uses exact `real` arithmetic. It has five modules:

- `VectorMath` (`vector_math.dfy`): vectors, 3x3 row matrices, `VecMat` (a row vector
  times a matrix), length and `normal()`.
  - Square root and matrix inverse are supplied as a `MathLib` value.
  - `SqrtSound` and `InverseSound` state what the proofs rely on of them.
- `Topology` (`topology.dfy`): the `point_data` record (`PointData`), the reference
  mesh, and the records `initData` builds.
- `Relax` (`relax.dfy`): the specification of `averageRelax`. `Relaxed` is `k` Jacobi
  sweeps; `Smoothed` is what the method leaves in its target buffer.
- `Delta` (`delta.dfy`): the specification of `computeDelta`, of `rebindData` and of
  the decode-and-blend loop of `deform`, with the rest-pose round trip.
- `DeltaMushNode` (`node.dfy`): the class `DeltaMushCpu`.
  - Its fields are `targetPos`, `dataPoints` and `initialized`.
  - Its methods carry the source's loops. Each is proved against the functions above.

The headline result is `Delta.RestPoseRoundTrip`. Bind a mesh, then evaluate the
deformer on the same rest positions with the same smoothing. The rest positions come
back exactly, whatever the weights, under these hypotheses:

- the iteration count is positive;
- the envelope is at least `SMALL`;
- `applyDelta` is at least `SMALL`, so the delta is switched on;
- `applyDelta * globalScale == 1`, so the delta is at full strength;
- every ring has at least two entries;
- every pair frame over the smoothed rest positions is invertible.

The `point_data` record of Delta_Mush_CPU_Node.h:13-19 is the datatype
`Topology.PointData`. The constant `SMALL` of Delta_Mush_CPU_Node.cpp:15 is `Delta.Small`.

## Model

| member | source | states |
|---|---|---|
| VectorMath.Div | Delta_Mush_CPU_Node.cpp:280 | component-wise division by a non-zero number, as the ring averages here and at line 192 |
| VectorMath.Cross | Delta_Mush_CPU_Node.cpp:165-166 | the `^` product of two vectors |
| VectorMath.VecMat | Delta_Mush_CPU_Node.cpp:187 | a row vector times a 3x3 matrix, `x * row0 + y * row1 + z * row2`, as the decode here and the encode at line 337 use it |
| VectorMath.Normal | Delta_Mush_CPU_Node.cpp:162-163 | the vector divided by its length, or the vector itself when its length is zero, for `normalize()` here and `normal()` at line 194 |
| VectorMath.Length | Delta_Mush_CPU_Node.cpp:303-305 | with a sound square root, the length is non-negative and its square is the dot product of the vector with itself |
| VectorMath.LengthPositive | Delta_Mush_CPU_Node.cpp:305 | the length is zero for the zero vector and positive for every other vector |
| VectorMath.NormalTimesLength | Delta_Mush_CPU_Node.cpp:162-163 | a normalised non-zero vector scaled by its length is the vector again |
| VectorMath.NormalIsUnit | Delta_Mush_CPU_Node.cpp:162-163 | a non-zero vector normalises to unit length |
| VectorMath.NormalZero | Delta_Mush_CPU_Node.cpp:194 | `normal()` leaves the zero vector as the zero vector |
| VectorMath.NormalOfPositiveMultiple | Delta_Mush_CPU_Node.cpp:192-194 | dividing by the ring size before `normal()` does not change the direction |
| VectorMath.ScaledNormalLength | Delta_Mush_CPU_Node.cpp:194 | a normalised non-zero vector scaled by a non-negative magnitude has exactly that length |
| VectorMath.LengthScale | Delta_Mush_CPU_Node.cpp:192-194 | scaling by a non-negative factor scales the length by that factor |
| VectorMath.VecMatAssociative | Delta_Mush_CPU_Node.cpp:187 | a row vector times two matrices in turn equals the vector times their product |
| VectorMath.DecodeUndoesEncode | Delta_Mush_CPU_Node.cpp:337 | `(d * inverse(m)) * m == d` for every matrix with non-zero determinant |
| VectorMath.CrossOrthogonal | Delta_Mush_CPU_Node.cpp:165-166 | the cross product is orthogonal to both operands |
| Topology.Zeros | Delta_Mush_CPU_Node.cpp:245-246 | a freshly sized offset array has the requested length; its entries are zero vectors, a modelling choice |
| Topology.InitRecord | Delta_Mush_CPU_Node.cpp:236-247 | the record holds the ring, its size, and one zero offset per ring entry |
| Topology.InitRecords | Delta_Mush_CPU_Node.cpp:214-249 | one well-formed record per vertex, carrying that vertex's ring |
| Relax.RingSum | Delta_Mush_CPU_Node.cpp:270-277 | the sum of the positions of the first `m` ring entries, accumulated in ring order |
| Relax.Mean | Delta_Mush_CPU_Node.cpp:270-280 | the ring sum divided by the ring size |
| Relax.RingSumOfCoincident | Delta_Mush_CPU_Node.cpp:270-277 | the sum of `m` ring entries that all sit at `p` is `m` copies of `p` |
| Relax.MeanOfCoincident | Delta_Mush_CPU_Node.cpp:270-280 | a ring whose neighbours all sit at `p` averages to `p` |
| Relax.RelaxPoint | Delta_Mush_CPU_Node.cpp:283 | the moved point minus the old point is `amount` times the mean minus the old point; amount 0 keeps the point and amount 1 gives the mean |
| Relax.StepPrefix | Delta_Mush_CPU_Node.cpp:267-285 | the first `n` points of one sweep, exactly `n` of them; their contents are stated by `StepPrefixAt` |
| Relax.Step | Delta_Mush_CPU_Node.cpp:267-285 | one sweep over all vertices, one point per vertex |
| Relax.Relaxed | Delta_Mush_CPU_Node.cpp:264-288 | `k` sweeps, each starting from the previous sweep's result, with zero or fewer sweeps leaving the positions as they are; one point per vertex |
| Relax.StepPrefixAt | Delta_Mush_CPU_Node.cpp:264-287 | Jacobi ordering: every point of a sweep is computed from the previous sweep's positions alone |
| Relax.Resized | Delta_Mush_CPU_Node.cpp:254-255 | `setLength` keeps the existing prefix and yields exactly the requested length; grown slots are filled with the origin, a modelling choice |
| Relax.Smoothed | Delta_Mush_CPU_Node.cpp:251-290 | the smoothed buffer has exactly `source.length()` entries |
| Relax.SmoothedFromCopy | Delta_Mush_CPU_Node.cpp:349-351 | when the target starts as a copy of the source, the result is the relaxed positions for every iteration count, zero included |
| Relax.RelaxedSameRings | Delta_Mush_CPU_Node.cpp:270-283 | relaxation depends only on the rings of the records, not on their offsets or lengths |
| Relax.RelaxedCompose | Delta_Mush_CPU_Node.cpp:264-288 | `k` sweeps after `j` sweeps are `j + k` sweeps |
| Relax.RelaxedAmountZero | Delta_Mush_CPU_Node.cpp:283 | with `amount` zero no number of sweeps moves any point |
| Delta.PairFrame | Delta_Mush_CPU_Node.cpp:159-184 | the frame of vertex `i` for its ring pair `(n, n + 1)`, built by `Frame` from the positions of the vertex and of the two neighbours |
| Delta.EncodedSlots | Delta_Mush_CPU_Node.cpp:308-338 | one slot per ring entry: pair slot `n` holds the detail times the inverse of that pair's frame, the last slot keeps its old value |
| Delta.Frame | Delta_Mush_CPU_Node.cpp:159-184 | the three frame rows `v1`, `cross ^ v1` and `cross` are mutually orthogonal |
| Delta.BindRecord | Delta_Mush_CPU_Node.cpp:301-339 | binding keeps the ring and its size, and the record stays well-formed |
| Delta.BindAll | Delta_Mush_CPU_Node.cpp:292-340 | binding keeps one well-formed record per vertex with unchanged rings |
| Delta.BindStores | Delta_Mush_CPU_Node.cpp:303-338 | `deltaLen` is non-negative, squares to the detail's squared length and is zero exactly when the two positions coincide; pair slot `n < size - 1` holds the detail times the inverse of that pair's frame; the last slot is untouched |
| Delta.BindEncodes | Delta_Mush_CPU_Node.cpp:308-337 | after binding, each vertex's record encodes its detail over the smoothed positions |
| Delta.BindUnsmoothed | Delta_Mush_CPU_Node.cpp:349-353 | binding against unsmoothed positions stores a zero length and zero pair slots |
| Delta.Bound | Delta_Mush_CPU_Node.cpp:342-354 | `rebindData` leaves one well-formed record per mesh vertex, with the mesh's rings |
| Delta.DecodeSum | Delta_Mush_CPU_Node.cpp:156-188 | the sum of the first `n` stored slots, each decoded through its pair's frame |
| Delta.Decoded | Delta_Mush_CPU_Node.cpp:152-189 | the decoded sum over all `size - 1` pairs, or the zero vector when `applyDelta` is below `SMALL` |
| Delta.Magnitude | Delta_Mush_CPU_Node.cpp:194 | the rescale length `deltaLen * applyDelta * globalScale` |
| Delta.Detail | Delta_Mush_CPU_Node.cpp:152-194 | the decoded sum divided by the ring size, normalised and scaled to `Magnitude` |
| Delta.DetailLength | Delta_Mush_CPU_Node.cpp:150-194 | with `applyDelta` below `SMALL` the detail is zero; otherwise a non-zero averaged offset is rescaled to length exactly `deltaLen * applyDelta * globalScale` when that is non-negative |
| Delta.Blend | Delta_Mush_CPU_Node.cpp:199-204 | weight times envelope 1 gives the candidate, 0 gives the input position, and a candidate equal to the input stays put |
| Delta.Deformed | Delta_Mush_CPU_Node.cpp:150-205 | the positions the decode loop writes, one per input point: each is the blend of its input position with its smoothed position plus its `Detail` |
| Delta.DecodeSumLocal | Delta_Mush_CPU_Node.cpp:156-188 | the decoded sum of vertex `i` reads the smoothed positions only at `i` and at its ring entries |
| Delta.DeformedLocal | Delta_Mush_CPU_Node.cpp:150-205 | vertex `i`'s output depends only on its own record, input position and weight and on the smoothed positions of itself and its ring; every other vertex's inputs may change |
| Delta.Evaluate | Delta_Mush_CPU_Node.cpp:131-147 | no positions are written exactly when the envelope is below `SMALL` or the iteration count is zero; otherwise one position per input point |
| Delta.ZeroWeightKeepsPosition | Delta_Mush_CPU_Node.cpp:199-204 | a vertex painted with weight zero keeps its input position |
| Delta.DecodeSumOfEncoded | Delta_Mush_CPU_Node.cpp:156-188 | decoding `n` encoded pair slots through the same invertible frames gives `n` copies of the detail |
| Delta.AverageOfEncoded | Delta_Mush_CPU_Node.cpp:192 | the averaged decoded offset of an encoded record is a positive multiple of its detail |
| Delta.RescaledDirection | Delta_Mush_CPU_Node.cpp:194 | rescaling the direction of a positive multiple of `d` to the length of `d` gives `d` |
| Delta.DetailOfEncoded | Delta_Mush_CPU_Node.cpp:150-194 | over the positions it was bound against, a record with at least two ring entries reproduces its detail exactly at full strength |
| Delta.VertexRestored | Delta_Mush_CPU_Node.cpp:196-204 | such a vertex lands on its rest position whatever its weight and the envelope |
| Delta.BoundVertexRestored | Delta_Mush_CPU_Node.cpp:150-205 | one vertex of the bind-then-evaluate round trip is restored |
| Delta.BoundRestored | Delta_Mush_CPU_Node.cpp:150-205 | every vertex bound and decoded over the same smoothed positions is restored |
| Delta.RestPoseRoundTrip | Delta_Mush_CPU_Node.cpp:124-205 | binding a mesh and evaluating on its rest positions with the same smoothing and full-strength delta returns exactly the rest positions |
| DeltaMushNode.DeltaMushCpu.constructor | Delta_Mush_CPU_Node.cpp:26-29 | a new node is unbound with empty buffers |
| DeltaMushNode.DeltaMushCpu.InitData | Delta_Mush_CPU_Node.cpp:214-249 | after resizing and filling, the records are exactly the fresh records for the mesh; nothing else changes |
| DeltaMushNode.DeltaMushCpu.AverageRelax | Delta_Mush_CPU_Node.cpp:251-290 | the returned target buffer is `iter` Jacobi sweeps of `source`, or the resized old target when no sweep runs; `source` is not written |
| DeltaMushNode.DeltaMushCpu.ComputeDelta | Delta_Mush_CPU_Node.cpp:292-340 | the records become the bound records of the old ones; nothing else changes |
| DeltaMushNode.DeltaMushCpu.EncodeVertex | Delta_Mush_CPU_Node.cpp:303-338 | vertex `i`'s record becomes its bound record and no other record changes |
| DeltaMushNode.DeltaMushCpu.RebindData | Delta_Mush_CPU_Node.cpp:342-354 | the records become the mesh's records bound against its relaxed rest positions |
| DeltaMushNode.DeltaMushCpu.Deform | Delta_Mush_CPU_Node.cpp:100-212 | rebinds exactly when unbound or `rebind` is set, and before any early exit, leaving the node bound; the envelope exit leaves `targetPos` alone; otherwise `targetPos` is the smoothed input; the written positions are `Evaluate`'s |
| DeltaMushNode.DeltaMushCpu.DecodeAll | Delta_Mush_CPU_Node.cpp:147-205 | the final buffer is the decoded and blended position of every vertex |
| DeltaMushNode.DeltaMushCpu.DecodeVertex | Delta_Mush_CPU_Node.cpp:152-204 | one vertex's final position is the blend of its input with the smoothed position plus its detail |
| DeltaMushNode.DeltaMushCpu.SetDependentsDirty | Delta_Mush_CPU_Node.cpp:356-364 | the bind is invalidated exactly for the `iterations` and `amount` plugs; nothing else changes |

## Left out

- Host I/O is replaced by plain values:
  - `iter.allPositions` and `setAllPositions` become the `pos` argument and the `written` result;
  - `MFnMesh::getPoints` and `getConnectedVertices` become the `Mesh` argument;
  - `weightValue` becomes the `weights` argument;
  - the attribute reads become a `Settings` value.
- The `referenceMesh` connection check and its console message (Delta_Mush_CPU_Node.cpp:103-109) are not modelled. `deform` is modelled as if the reference mesh is connected.
- `initialize()`, `creator()` and `pluginMain.cpp` are not part of this model. They register attributes and the node with the host; there is no deformer behaviour in them. `initialize()` adds `globalScale` twice and never adds `rebind` (Delta_Mush_CPU_Node.cpp:59). The attribute limits it sets are not enforced, so the model covers, for example, negative iteration counts.
- World space versus object space (Delta_Mush_CPU_Node.cpp:122, 348) is not modelled: bind and evaluation see the same kind of coordinates.
- Floating-point rounding is not modelled; all arithmetic is exact. `SMALL` is the exact value of the single-precision constant.
- Square root and matrix inverse are parameters (`MathLib`). The proofs assume only `SqrtSound` (the non-negative square root) and `InverseSound` (a left inverse for every non-singular 3x3 matrix). The 4x4 matrix is reduced to its 3x3 block, because its last row and column are those of the identity.
- `normalize()` and `normal()` treat exactly the zero vector as unnormalisable. The host's own small-length tolerance is not modelled.
- Rings are required to be non-empty (`RingOk`). The source divides by the ring size without a check, so an isolated vertex would divide by zero.
- `Delta.RestPoseRoundTrip` assumes invertible pair frames (`FramesInvertible`). It does not derive them from the geometry, e.g. from non-collinear neighbours.
- `Topology.Zeros` and `Relax.Resized`: the values `MVectorArray::setLength` and `MPointArray::setLength` give grown slots are not stated by the source, and the host may leave them uninitialised. Zero vectors and the origin are a modelling choice. They can be observed only in the last offset slot, which is never read, and when `deform` runs with a negative iteration count and decodes from the resized old `targetPos`.
- The source leaves `deltaLen` of a fresh record uninitialised. `Topology.InitRecord` sets it to zero; `computeDelta` overwrites it before any use.
- `deform` is not checked against a vertex count that differs from the bound records. Its precondition requires the input to have as many points as the reference mesh, and as many as the kept records.
- The per-vertex loops of `deform` and `computeDelta` are split into the helper methods `DecodeAll`, `DecodeVertex` and `EncodeVertex`. The loops are otherwise kept as in the source.
- The header declares `delta_len` and `initData(MObject&, int)`. The model follows the implementation file: `deltaLen` and `initData(MObject&)`.

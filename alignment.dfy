/**
 * The two collector alignment transforms and the constants mesh_generator
 * feeds them. The alignment axis is the last axis (dim - 1): the height of a
 * layer. A collector of height H is meshed with `reps` uniform layers of
 * height H / reps; the transforms move its interior nodes so that they line up
 * with the electrodes of height A, while the two end faces stay put.
 */
module Alignment {
  import opened Mesh

  const Eps: real := 1.0e-15

  /** A last coordinate the transforms leave alone: within Eps of 0 or of maxValue. */
  predicate Pinned(x: real, maxValue: real) {
    x < Eps || x > maxValue - Eps
  }

  /** transform_coll_a: scale the last coordinate of an interior point. */
  function TransformCollA(p: Point, scale: real, maxValue: real): (q: Point)
    requires |p| >= 1
    ensures |q| == |p| && q[..|p| - 1] == p[..|p| - 1]
    ensures Pinned(p[|p| - 1], maxValue) ==> q == p
    ensures !Pinned(p[|p| - 1], maxValue) ==> q[|p| - 1] == p[|p| - 1] * scale
  {
    var last := |p| - 1;
    if Pinned(p[last], maxValue) then p else p[last := p[last] * scale]
  }

  /** transform_coll_c: scale, then translate, the last coordinate of an interior point. */
  function TransformCollC(p: Point, scale: real, maxValue: real, offset: real): (q: Point)
    requires |p| >= 1
    ensures |q| == |p| && q[..|p| - 1] == p[..|p| - 1]
    ensures Pinned(p[|p| - 1], maxValue) ==> q == p
    ensures !Pinned(p[|p| - 1], maxValue) ==> q[|p| - 1] == p[|p| - 1] * scale + offset
  {
    var last := |p| - 1;
    if Pinned(p[last], maxValue) then p else p[last := p[last] * scale + offset]
  }

  /** Both end faces, at 0 and at maxValue, are fixed points of both transforms. */
  lemma EndFacesFixed(p: Point, scale: real, maxValue: real, offset: real)
    requires |p| >= 1 && (p[|p| - 1] == 0.0 || p[|p| - 1] == maxValue)
    ensures TransformCollA(p, scale, maxValue) == p
    ensures TransformCollC(p, scale, maxValue, offset) == p
  {
  }

  /** delta_collector: the height of one collector layer before the transform. */
  function DeltaCollector(collectorHeight: real, reps: nat): (d: real)
    requires reps >= 1
    ensures reps as real * d == collectorHeight
  {
    collectorHeight / reps as real
  }

  /** scale_factor_a and scale_factor_c: electrode height over the collector height less one layer. */
  function ScaleFactor(electrodeHeight: real, collectorHeight: real, reps: nat): (s: real)
    requires reps >= 2 && collectorHeight > 0.0
    ensures (collectorHeight - DeltaCollector(collectorHeight, reps)) * s == electrodeHeight
  {
    var d := DeltaCollector(collectorHeight, reps);
    assert collectorHeight - d == collectorHeight * (reps - 1) as real / reps as real;
    electrodeHeight / (collectorHeight - d)
  }

  /** The additive offset passed to transform_coll_c. */
  function CollectorCOffset(electrodeHeight: real, collectorHeight: real, reps: nat): (r: real)
    requires reps >= 2 && collectorHeight > 0.0
    ensures DeltaCollector(collectorHeight, reps) * ScaleFactor(electrodeHeight, collectorHeight, reps) + r
            + VerticalShift(electrodeHeight, collectorHeight) == 0.0
  {
    collectorHeight - electrodeHeight
      - ScaleFactor(electrodeHeight, collectorHeight, reps) * DeltaCollector(collectorHeight, reps)
  }

  /** The one-time vertical shift of collector_c, also the cathode terminal coordinate. */
  function VerticalShift(electrodeHeight: real, collectorHeight: real): (v: real)
    ensures collectorHeight + v == electrodeHeight
  {
    -(collectorHeight - electrodeHeight)
  }

  /** The height of node k of the uniform collector grid. */
  function Node(collectorHeight: real, reps: nat, k: nat): real
    requires reps >= 1
  {
    k as real * DeltaCollector(collectorHeight, reps)
  }

  /** One scaled layer is the electrode height split into reps - 1 layers. */
  lemma ScaledLayer(electrodeHeight: real, collectorHeight: real, reps: nat)
    requires reps >= 2 && collectorHeight > 0.0
    ensures DeltaCollector(collectorHeight, reps) * ScaleFactor(electrodeHeight, collectorHeight, reps)
         == electrodeHeight / (reps - 1) as real
  {
    var r := reps as real;
    var d := DeltaCollector(collectorHeight, reps);
    assert collectorHeight - d == collectorHeight * (r - 1.0) / r;
    assert d * (electrodeHeight / (collectorHeight * (r - 1.0) / r))
        == (collectorHeight / r) * (electrodeHeight * r / (collectorHeight * (r - 1.0)));
  }

  /** Grid nodes strictly between the end faces are interior once one layer is at least Eps high. */
  lemma InteriorNodes(collectorHeight: real, reps: nat, k: nat)
    requires reps >= 2 && collectorHeight > 0.0 && DeltaCollector(collectorHeight, reps) >= Eps
    requires 1 <= k <= reps - 1
    ensures !Pinned(Node(collectorHeight, reps, k), collectorHeight)
  {
    var d := DeltaCollector(collectorHeight, reps);
    assert collectorHeight == reps as real * d;
    assert Node(collectorHeight, reps, k) >= d;
    assert collectorHeight - Node(collectorHeight, reps, k) == (reps - k) as real * d;
  }

  /**
   * collector_a after transform_coll_a: node 0 and the top node stay at 0 and
   * at the collector height; interior node k lands at k / (reps - 1) of the
   * electrode height, so node reps - 1 lands exactly on the electrode's top.
   */
  lemma {:induction false} CollectorANodeImage(p: Point, electrodeHeight: real, collectorHeight: real, reps: nat, k: nat)
    requires reps >= 2 && collectorHeight > 0.0 && DeltaCollector(collectorHeight, reps) >= Eps
    requires k <= reps && |p| >= 1 && p[|p| - 1] == Node(collectorHeight, reps, k)
    ensures var q := TransformCollA(p, ScaleFactor(electrodeHeight, collectorHeight, reps), collectorHeight);
      q[|p| - 1] == AlignedNodeA(electrodeHeight, collectorHeight, reps, k)
  {
    var s := ScaleFactor(electrodeHeight, collectorHeight, reps);
    var d := DeltaCollector(collectorHeight, reps);
    if k == reps {
      assert Node(collectorHeight, reps, k) == collectorHeight;
    } else if k > 0 {
      InteriorNodes(collectorHeight, reps, k);
      ScaledLayer(electrodeHeight, collectorHeight, reps);
      assert (k as real * d) * s == k as real * (d * s);
      assert k as real * (electrodeHeight / (reps - 1) as real) == k as real * electrodeHeight / (reps - 1) as real;
    }
  }

  /** In particular the node one layer below the top maps to the electrode height. */
  lemma CollectorAMatchesElectrode(p: Point, electrodeHeight: real, collectorHeight: real, reps: nat)
    requires reps >= 2 && collectorHeight > 0.0 && DeltaCollector(collectorHeight, reps) >= Eps
    requires |p| >= 1 && p[|p| - 1] == collectorHeight - DeltaCollector(collectorHeight, reps)
    ensures TransformCollA(p, ScaleFactor(electrodeHeight, collectorHeight, reps), collectorHeight)[|p| - 1]
         == electrodeHeight
  {
    var d := DeltaCollector(collectorHeight, reps);
    assert collectorHeight == reps as real * d;
    assert Node(collectorHeight, reps, reps - 1) == collectorHeight - d;
    CollectorANodeImage(p, electrodeHeight, collectorHeight, reps, reps - 1);
    assert (reps - 1) as real * electrodeHeight / (reps - 1) as real == electrodeHeight;
  }

  /**
   * collector_c after transform_coll_c and the vertical shift: node 0 lands on
   * the cathode target -(H - A), node 1 on 0, interior node k on (k - 1) /
   * (reps - 1) of the electrode height, and the top node on the electrode height.
   */
  lemma {:induction false} CollectorCNodeImage(p: Point, electrodeHeight: real, collectorHeight: real, reps: nat, k: nat)
    requires reps >= 2 && collectorHeight > 0.0 && DeltaCollector(collectorHeight, reps) >= Eps
    requires k <= reps && |p| >= 1 && p[|p| - 1] == Node(collectorHeight, reps, k)
    ensures var q := TransformCollC(p, ScaleFactor(electrodeHeight, collectorHeight, reps), collectorHeight,
                                    CollectorCOffset(electrodeHeight, collectorHeight, reps));
      q[|p| - 1] + VerticalShift(electrodeHeight, collectorHeight)
        == AlignedNodeC(electrodeHeight, collectorHeight, reps, k)
  {
    var s := ScaleFactor(electrodeHeight, collectorHeight, reps);
    var d := DeltaCollector(collectorHeight, reps);
    if k == reps {
      assert Node(collectorHeight, reps, k) == collectorHeight;
    } else if k > 0 {
      InteriorNodes(collectorHeight, reps, k);
      ScaledLayer(electrodeHeight, collectorHeight, reps);
      assert (k as real * d) * s == k as real * (d * s);
      assert k as real * (electrodeHeight / (reps - 1) as real) - electrodeHeight / (reps - 1) as real
          == (k - 1) as real * electrodeHeight / (reps - 1) as real;
    }
  }

  /**
   * With 0 < A < H, consecutive nodes of both aligned collectors stay strictly
   * ordered, so no cell is flattened or inverted.
   */
  lemma AlignedNodesIncrease(electrodeHeight: real, collectorHeight: real, reps: nat, k: nat)
    requires reps >= 2 && 0.0 < electrodeHeight < collectorHeight && k < reps
    ensures AlignedNodeA(electrodeHeight, collectorHeight, reps, k) < AlignedNodeA(electrodeHeight, collectorHeight, reps, k + 1)
    ensures AlignedNodeC(electrodeHeight, collectorHeight, reps, k) < AlignedNodeC(electrodeHeight, collectorHeight, reps, k + 1)
  {
    AlignedNodeAIncreases(electrodeHeight, collectorHeight, reps, k);
    AlignedNodeCIncreases(electrodeHeight, collectorHeight, reps, k);
  }

  lemma AlignedNodeAIncreases(electrodeHeight: real, collectorHeight: real, reps: nat, k: nat)
    requires reps >= 2 && 0.0 < electrodeHeight < collectorHeight && k < reps
    ensures AlignedNodeA(electrodeHeight, collectorHeight, reps, k) < AlignedNodeA(electrodeHeight, collectorHeight, reps, k + 1)
  {
    var r1 := (reps - 1) as real;
    if k == reps - 1 {
      if k > 0 {
        ScaledTop(reps - 1, electrodeHeight, r1);
      }
    } else {
      ScaledStep(k, electrodeHeight, r1);
      if k == 0 {
        assert 0 as real * electrodeHeight / r1 == 0.0;
      }
    }
  }

  lemma AlignedNodeCIncreases(electrodeHeight: real, collectorHeight: real, reps: nat, k: nat)
    requires reps >= 2 && 0.0 < electrodeHeight < collectorHeight && k < reps
    ensures AlignedNodeC(electrodeHeight, collectorHeight, reps, k) < AlignedNodeC(electrodeHeight, collectorHeight, reps, k + 1)
  {
    var r1 := (reps - 1) as real;
    if k == 0 {
      assert 0 as real * electrodeHeight / r1 == 0.0;
    } else if k == reps - 1 {
      ScaledStep(k - 1, electrodeHeight, r1);
      ScaledTop(reps - 1, electrodeHeight, r1);
    } else {
      ScaledStep(k - 1, electrodeHeight, r1);
    }
  }

  /** Consecutive scaled nodes i A / r and (i + 1) A / r increase. */
  lemma ScaledStep(i: nat, a: real, r: real)
    requires a > 0.0 && r > 0.0
    ensures i as real * a / r < (i + 1) as real * a / r
  {
    assert (i + 1) as real * a == i as real * a + a;
    DivMonotone(i as real * a, (i + 1) as real * a, r);
  }

  lemma DivMonotone(x: real, y: real, d: real)
    requires d > 0.0 && x < y
    ensures x / d < y / d
  {
  }

  /** The scaled node r A / r is A itself. */
  lemma ScaledTop(n: nat, a: real, r: real)
    requires r > 0.0 && r == n as real
    ensures n as real * a / r == a
  {
  }

  /** The height of collector_a's node k after its transform. */
  function AlignedNodeA(electrodeHeight: real, collectorHeight: real, reps: nat, k: nat): real
    requires reps >= 2
  {
    if k == 0 then 0.0
    else if k == reps then collectorHeight
    else k as real * electrodeHeight / (reps - 1) as real
  }

  /** The height of collector_c's node k after its transform and the vertical shift. */
  function AlignedNodeC(electrodeHeight: real, collectorHeight: real, reps: nat, k: nat): real
    requires reps >= 2
  {
    if k == 0 then VerticalShift(electrodeHeight, collectorHeight)
    else if k == reps then electrodeHeight
    else (k - 1) as real * electrodeHeight / (reps - 1) as real
  }
}

/** GridTools::transform with the two collector maps, applied to the vertices of every cell. */
module CollectorTransforms {
  import opened Mesh
  import opened Alignment

  function TransformCellA(c: Cell, scale: real, maxValue: real): Cell
    requires |c.lo| >= 1 && |c.hi| >= 1
  {
    c.(lo := TransformCollA(c.lo, scale, maxValue), hi := TransformCollA(c.hi, scale, maxValue))
  }

  function TransformCellC(c: Cell, scale: real, maxValue: real, offset: real): Cell
    requires |c.lo| >= 1 && |c.hi| >= 1
  {
    c.(lo := TransformCollC(c.lo, scale, maxValue, offset), hi := TransformCollC(c.hi, scale, maxValue, offset))
  }

  /**
   * The collector_a mesh after its transform: same cells, materials and face
   * ids, same dimension, and both vertices of every cell moved by
   * transform_coll_a.
   */
  function TransformMeshA(cells: seq<Cell>, dim: nat, scale: real, maxValue: real): (r: seq<Cell>)
    requires dim >= 1 && WellFormed(cells, dim)
    ensures |r| == |cells| && WellFormed(r, dim)
    ensures forall i :: 0 <= i < |r| ==> r[i].material == cells[i].material && r[i].faceIds == cells[i].faceIds
    ensures forall i :: 0 <= i < |r| ==>
      r[i].lo == TransformCollA(cells[i].lo, scale, maxValue) && r[i].hi == TransformCollA(cells[i].hi, scale, maxValue)
  {
    seq(|cells|, i requires 0 <= i < |cells| => TransformCellA(cells[i], scale, maxValue))
  }

  /** The collector_c mesh after its transform, every vertex moved by transform_coll_c. */
  function TransformMeshC(cells: seq<Cell>, dim: nat, scale: real, maxValue: real, offset: real): (r: seq<Cell>)
    requires dim >= 1 && WellFormed(cells, dim)
    ensures |r| == |cells| && WellFormed(r, dim)
    ensures forall i :: 0 <= i < |r| ==> r[i].material == cells[i].material && r[i].faceIds == cells[i].faceIds
    ensures forall i :: 0 <= i < |r| ==>
      r[i].lo == TransformCollC(cells[i].lo, scale, maxValue, offset)
      && r[i].hi == TransformCollC(cells[i].hi, scale, maxValue, offset)
  {
    seq(|cells|, i requires 0 <= i < |cells| => TransformCellC(cells[i], scale, maxValue, offset))
  }

  /** The last coordinate of a point translated by an axis vector moves by the vertical part. */
  lemma AddAxisVectorLast(p: Point, dim: nat, axial: real, vertical: real)
    requires dim >= 2 && |p| == dim
    ensures |AddPoint(p, AxisVector(dim, axial, vertical))| == dim
    ensures AddPoint(p, AxisVector(dim, axial, vertical))[dim - 1] == p[dim - 1] + vertical
  {
  }

  /**
   * A vertex of collector_a's grid on node k of the vertical axis is, after
   * transform_coll_a and any placement along axis 0, at the aligned node k;
   * node reps is the collector top, the anode terminal plane.
   */
  lemma CollectorAMeshNodes(cells: seq<Cell>, dim: nat, a: real, h: real, reps: nat, x: real, i: nat, kLo: nat, kHi: nat)
    requires dim >= 2 && WellFormed(cells, dim)
    requires reps >= 2 && h > 0.0 && DeltaCollector(h, reps) >= Eps
    requires i < |cells| && kLo <= reps && kHi <= reps
    requires cells[i].lo[dim - 1] == Node(h, reps, kLo) && cells[i].hi[dim - 1] == Node(h, reps, kHi)
    ensures var r := ShiftMesh(TransformMeshA(cells, dim, ScaleFactor(a, h, reps), h), AxisVector(dim, x, 0.0));
      && |r| == |cells| && |r[i].lo| == |r[i].hi| == dim
      && r[i].lo[dim - 1] == AlignedNodeA(a, h, reps, kLo)
      && r[i].hi[dim - 1] == AlignedNodeA(a, h, reps, kHi)
      && (kHi == reps ==> r[i].hi[dim - 1] == h)
  {
    var t := TransformMeshA(cells, dim, ScaleFactor(a, h, reps), h);
    CollectorANodeImage(cells[i].lo, a, h, reps, kLo);
    CollectorANodeImage(cells[i].hi, a, h, reps, kHi);
    AddAxisVectorLast(t[i].lo, dim, x, 0.0);
    AddAxisVectorLast(t[i].hi, dim, x, 0.0);
  }

  /**
   * A vertex of collector_c's grid on node k of the vertical axis is, after
   * transform_coll_c, its one-time vertical shift and any placement along
   * axis 0, at the aligned node k; node 0 is on the cathode terminal plane
   * -(H - A) that set_boundary_ids searches.
   */
  lemma CollectorCMeshNodes(cells: seq<Cell>, dim: nat, a: real, h: real, reps: nat, x: real, i: nat, kLo: nat, kHi: nat)
    requires dim >= 2 && WellFormed(cells, dim)
    requires reps >= 2 && h > 0.0 && DeltaCollector(h, reps) >= Eps
    requires i < |cells| && kLo <= reps && kHi <= reps
    requires cells[i].lo[dim - 1] == Node(h, reps, kLo) && cells[i].hi[dim - 1] == Node(h, reps, kHi)
    ensures var r := ShiftMesh(TransformMeshC(cells, dim, ScaleFactor(a, h, reps), h, CollectorCOffset(a, h, reps)),
                               AxisVector(dim, x, VerticalShift(a, h)));
      && |r| == |cells| && |r[i].lo| == |r[i].hi| == dim
      && r[i].lo[dim - 1] == AlignedNodeC(a, h, reps, kLo)
      && r[i].hi[dim - 1] == AlignedNodeC(a, h, reps, kHi)
      && (kLo == 0 ==> r[i].lo[dim - 1] == -(h - a))
  {
    var t := TransformMeshC(cells, dim, ScaleFactor(a, h, reps), h, CollectorCOffset(a, h, reps));
    CollectorCNodeImage(cells[i].lo, a, h, reps, kLo);
    CollectorCNodeImage(cells[i].hi, a, h, reps, kHi);
    AddAxisVectorLast(t[i].lo, dim, x, VerticalShift(a, h));
    AddAxisVectorLast(t[i].hi, dim, x, VerticalShift(a, h));
  }
}

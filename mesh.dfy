/**
 * The coarse mesh, abstracted: a sequence of axis-aligned box cells.
 * A cell is given by two opposite vertices `lo` and `hi`, its material id
 * and the boundary id stored on each face. Faces are numbered as in deal.II:
 * face 2a is the low side along axis a, face 2a+1 the high side.
 */
module Mesh {

  type Point = seq<real>

  datatype Cell = Cell(material: nat, lo: Point, hi: Point, faceIds: seq<nat>)

  function FacesPerCell(dim: nat): nat { 2 * dim }

  predicate WellFormedCell(c: Cell, dim: nat) {
    |c.lo| == dim && |c.hi| == dim && |c.faceIds| == FacesPerCell(dim)
  }

  predicate WellFormed(cells: seq<Cell>, dim: nat) {
    forall i :: 0 <= i < |cells| ==> WellFormedCell(cells[i], dim)
  }

  /** Coordinate k of a translation vector; missing coordinates translate by 0. */
  function Coord(v: Point, k: nat): real {
    if k < |v| then v[k] else 0.0
  }

  /** p translated by v. */
  function AddPoint(p: Point, v: Point): (r: Point) {
    seq(|p|, k requires 0 <= k < |p| => p[k] + Coord(v, k))
  }

  /** The translation vector of dimension dim with `axial` on axis 0 and `vertical` on the last axis. */
  function AxisVector(dim: nat, axial: real, vertical: real): (v: Point) {
    seq(dim, k requires 0 <= k < dim => if k == 0 then axial else if k == dim - 1 then vertical else 0.0)
  }

  function ShiftCell(c: Cell, v: Point): Cell {
    c.(lo := AddPoint(c.lo, v), hi := AddPoint(c.hi, v))
  }

  /** GridTools::shift: every vertex of every cell translated by v. */
  function ShiftMesh(cells: seq<Cell>, v: Point): (r: seq<Cell>) {
    seq(|cells|, i requires 0 <= i < |cells| => ShiftCell(cells[i], v))
  }

  function Zeros(n: nat): (r: seq<nat>) {
    seq(n, _ => 0)
  }

  function ClearCell(c: Cell): Cell {
    c.(faceIds := Zeros(|c.faceIds|))
  }

  /** Every face id reset to deal.II's default boundary id 0. */
  function ClearBoundaryIds(cells: seq<Cell>): (r: seq<Cell>) {
    seq(|cells|, i requires 0 <= i < |cells| => ClearCell(cells[i]))
  }

  /**
   * GridGenerator::merge_triangulations: the cells of both meshes, the first
   * mesh's before the second's; material ids survive, boundary ids do not.
   */
  function MergeTriangulations(a: seq<Cell>, b: seq<Cell>): (r: seq<Cell>)
    ensures |r| == |a| + |b|
    ensures forall i :: 0 <= i < |a| ==> r[i] == ClearCell(a[i])
    ensures forall i :: 0 <= i < |b| ==> r[|a| + i] == ClearCell(b[i])
  {
    ClearBoundaryIds(a) + ClearBoundaryIds(b)
  }

  lemma ClearBoundaryIdsIdempotent(cells: seq<Cell>)
    ensures ClearBoundaryIds(ClearBoundaryIds(cells)) == ClearBoundaryIds(cells)
  {
    forall i | 0 <= i < |cells|
      ensures ClearCell(ClearCell(cells[i])) == ClearCell(cells[i])
    {
      assert Zeros(|Zeros(|cells[i].faceIds|)|) == Zeros(|cells[i].faceIds|);
    }
  }

  lemma ClearBoundaryIdsAppend(a: seq<Cell>, b: seq<Cell>)
    ensures ClearBoundaryIds(a + b) == ClearBoundaryIds(a) + ClearBoundaryIds(b)
  {
  }

  /** Merging into an already merged mesh equals merging everything at once. */
  lemma MergeAssociative(a: seq<Cell>, b: seq<Cell>)
    ensures MergeTriangulations(ClearBoundaryIds(a), b) == ClearBoundaryIds(a + b)
  {
    ClearBoundaryIdsIdempotent(a);
    ClearBoundaryIdsAppend(a, b);
  }

  /** Two successive axis-aligned translations add up. */
  lemma {:induction false} ShiftCompose(cells: seq<Cell>, dim: nat, x1: real, y1: real, x2: real, y2: real)
    ensures ShiftMesh(ShiftMesh(cells, AxisVector(dim, x1, y1)), AxisVector(dim, x2, y2))
         == ShiftMesh(cells, AxisVector(dim, x1 + x2, y1 + y2))
  {
    var a, b, ab := AxisVector(dim, x1, y1), AxisVector(dim, x2, y2), AxisVector(dim, x1 + x2, y1 + y2);
    forall p: Point ensures AddPoint(AddPoint(p, a), b) == AddPoint(p, ab) {
      forall k | 0 <= k < |p| ensures AddPoint(AddPoint(p, a), b)[k] == AddPoint(p, ab)[k] {
        assert Coord(a, k) + Coord(b, k) == Coord(ab, k);
      }
    }
    var lhs := ShiftMesh(ShiftMesh(cells, a), b);
    var rhs := ShiftMesh(cells, ab);
    forall i | 0 <= i < |cells| ensures lhs[i] == rhs[i] {
      assert lhs[i] == ShiftCell(ShiftCell(cells[i], a), b);
    }
  }

  /** Shifting and clearing boundary ids keep a mesh well formed. */
  lemma ShiftClearWellFormed(cells: seq<Cell>, v: Point, dim: nat)
    requires WellFormed(cells, dim)
    ensures WellFormed(ShiftMesh(cells, v), dim) && WellFormed(ClearBoundaryIds(cells), dim)
  {
  }

  /** cell->set_material_id(id) on every cell: the material changes and nothing else. */
  function WithMaterial(cells: seq<Cell>, id: nat): (r: seq<Cell>)
    ensures |r| == |cells|
    ensures forall i :: 0 <= i < |r| ==> r[i].material == id && r[i] == cells[i].(material := id)
  {
    seq(|cells|, i requires 0 <= i < |cells| => cells[i].(material := id))
  }

  lemma WithMaterialWellFormed(cells: seq<Cell>, id: nat, dim: nat)
    ensures WellFormed(WithMaterial(cells, id), dim) <==> WellFormed(cells, dim)
  {
  }

  function Abs(x: real): real { if x < 0.0 then -x else x }

  /** The last coordinate of the centre of face f. */
  function FaceCentreLast(c: Cell, f: nat): real
    requires 1 <= |c.lo| && |c.lo| == |c.hi|
  {
    var last := |c.lo| - 1;
    if f / 2 == last then (if f % 2 == 0 then c.lo[last] else c.hi[last])
    else (c.lo[last] + c.hi[last]) / 2.0
  }

  function ProductOfExtents(lo: Point, hi: Point): real
    requires |lo| == |hi|
  {
    if |lo| == 0 then 1.0 else (hi[0] - lo[0]) * ProductOfExtents(lo[1..], hi[1..])
  }

  /** The cell's area (2D) or volume (3D). */
  function Measure(c: Cell): real
    requires |c.lo| == |c.hi|
  {
    ProductOfExtents(c.lo, c.hi)
  }

  /** The coordinate of face f's plane along its normal axis. */
  function Side(c: Cell, f: nat): real
    requires f / 2 < |c.lo| && |c.lo| == |c.hi|
  {
    if f % 2 == 0 then c.lo[f / 2] else c.hi[f / 2]
  }

  /** Face f of c and face g of d are the same geometric face. */
  predicate FacesCoincide(c: Cell, f: nat, d: Cell, g: nat) {
    && |c.lo| == |c.hi| == |d.lo| == |d.hi|
    && f / 2 == g / 2 && f / 2 < |c.lo|
    && Side(c, f) == Side(d, g)
    && forall k :: 0 <= k < |c.lo| && k != f / 2 ==> c.lo[k] == d.lo[k] && c.hi[k] == d.hi[k]
  }

  /** Face f of cell i is shared with another cell of the mesh. */
  predicate FaceShared(cells: seq<Cell>, i: nat, f: nat)
    requires i < |cells|
  {
    exists j, g :: 0 <= j < |cells| && j != i && 0 <= g < |cells[j].faceIds| && FacesCoincide(cells[i], f, cells[j], g)
  }

  /** cell->at_boundary(): some face of cell i has no neighbour. */
  predicate AtBoundary(cells: seq<Cell>, i: nat)
    requires i < |cells|
  {
    exists f :: 0 <= f < |cells[i].faceIds| && !FaceShared(cells, i, f)
  }
}

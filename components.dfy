/** The components of the stack and the triangulation they are merged into. */
module Components {
  import opened Mesh

  /** A triangulation, reduced to its coarse cells. */
  class Triangulation {
    var cells: seq<Cell>

    constructor ()
      ensures cells == []
    {
      cells := [];
    }
  }

  /** internal::Component: one slab of the stack before and during the merge. */
  class Component {
    /** The current position of the component along axis 0. */
    var offset: real
    /** box_dimensions: the origin and the opposite corner of the slab. */
    var box: seq<Point>
    var repetitions: seq<nat>
    /** The component's own triangulation. */
    var mesh: seq<Cell>
    /** The last translation applied to the component. */
    var shiftVector: Point

    /** Component(box, repetitions, communicator): placed at 0, no mesh yet, zero shift. */
    constructor (box: seq<Point>, repetitions: seq<nat>, dim: nat)
      ensures this.box == box && this.repetitions == repetitions
      ensures offset == 0.0 && mesh == [] && shiftVector == AxisVector(dim, 0.0, 0.0)
    {
      this.box := box;
      this.repetitions := repetitions;
      offset := 0.0;
      mesh := [];
      shiftVector := AxisVector(dim, 0.0, 0.0);
    }

    /** The slab's extent along axis 0, box_dimensions[1][0]. */
    function Extent(): real
      reads this
      requires |box| == 2 && |box[1]| >= 1
    {
      box[1][0]
    }
  }

  /**
   * merge_components: translate the component along axis 0 from its current
   * position to `offset` (together with any pending vertical shift), merge its
   * mesh into t, and drop the vertical shift so that it is applied once only.
   */
  method MergeComponents(c: Component, offset: real, t: Triangulation)
    requires |c.shiftVector| >= 2
    modifies c, t
    ensures c.offset == offset
    ensures |c.shiftVector| == |old(c.shiftVector)|
    ensures c.shiftVector[0] == offset - old(c.offset)
    ensures c.shiftVector[|c.shiftVector| - 1] == 0.0
    ensures forall k :: 0 < k < |c.shiftVector| - 1 ==> c.shiftVector[k] == old(c.shiftVector[k])
    ensures c.mesh == ShiftMesh(old(c.mesh), old(c.shiftVector)[0 := offset - old(c.offset)])
    ensures t.cells == MergeTriangulations(old(t.cells), c.mesh)
    ensures |t.cells| == |old(t.cells)| + |c.mesh|
    ensures c.box == old(c.box) && c.repetitions == old(c.repetitions)
  {
    c.shiftVector := c.shiftVector[0 := offset - c.offset];
    c.mesh := ShiftMesh(c.mesh, c.shiftVector);
    c.offset := offset;
    var merged := MergeTriangulations(t.cells, c.mesh);
    t.cells := merged;
    var last := |c.shiftVector| - 1;
    if c.shiftVector[last] != 0.0 {
      c.shiftVector := c.shiftVector[last := 0.0];
    }
  }
}

/**
 * The merge loop of mesh_generator: the five components are merged, in the
 * fixed cyclic order of eight slots, into the triangulation seeded with
 * collector_a, each placed at the running offset along axis 0.
 */
module Stack {
  import opened Wrappers
  import opened Mesh
  import opened Components

  /** Indices of the five component objects. */
  const CollectorA: nat := 0
  const CollectorC: nat := 1
  const Anode: nat := 2
  const Cathode: nat := 3
  const Separator: nat := 4

  /** The slot table: anode, separator and cathode each fill two slots. */
  const Slots: seq<nat> := [Anode, Separator, Cathode, CollectorC, Cathode, Separator, Anode, CollectorA]

  /** The component merged by merge number k. */
  function SlotOf(k: nat): (p: nat)
    ensures p < 5
  {
    Slots[k % 8]
  }

  lemma SlotStep(k: nat)
    ensures (k % 8 + 1) % 8 == (k + 1) % 8
  {
  }

  /** The slot table repeats every eight merges. */
  lemma SlotPeriodic(k: nat)
    ensures SlotOf(k + 8) == SlotOf(k)
  {
    assert (k + 8) % 8 == k % 8;
  }

  /** The running offset before merge k: collector_a's extent plus the extents of the k components merged before. */
  function Placement(ext: seq<real>, k: nat): real
    requires |ext| == 5
  {
    if k == 0 then ext[CollectorA] else Placement(ext, k - 1) + ext[SlotOf(k - 1)]
  }

  /** The mesh merge k adds: the component of slot k translated to Placement(k), with its vertical shift. */
  function PlacedMesh(init: seq<seq<Cell>>, ext: seq<real>, vert: seq<real>, dim: nat, k: nat): seq<Cell>
    requires |init| == 5 && |ext| == 5 && |vert| == 5
  {
    ShiftMesh(init[SlotOf(k)], AxisVector(dim, Placement(ext, k), vert[SlotOf(k)]))
  }

  /** The meshes that merges 0 .. k-1 append, in order, each at its placement. */
  function Placed(init: seq<seq<Cell>>, ext: seq<real>, vert: seq<real>, dim: nat, k: nat): seq<Cell>
    requires |init| == 5 && |ext| == 5 && |vert| == 5
  {
    if k == 0 then [] else
      Placed(init, ext, vert, dim, k - 1) + PlacedMesh(init, ext, vert, dim, k - 1)
  }

  /** The number of cells merges 0 .. k-1 contribute. */
  function MergedCellCount(init: seq<seq<Cell>>, k: nat): nat
    requires |init| == 5
  {
    if k == 0 then 0 else MergedCellCount(init, k - 1) + |init[SlotOf(k - 1)]|
  }

  /** The thickness one full cycle of eight merges adds: a back-to-back pair of cells. */
  function CycleExtent(ext: seq<real>): real
    requires |ext| == 5
  {
    2.0 * (ext[Anode] + ext[Separator] + ext[Cathode]) + ext[CollectorC] + ext[CollectorA]
  }

  /** Eight consecutive merges use every slot once, so they add one cycle's thickness. */
  lemma {:induction false} PlacementCycle(ext: seq<real>, k: nat)
    requires |ext| == 5
    ensures Placement(ext, k + 8) == Placement(ext, k) + CycleExtent(ext)
  {
    if k == 0 {
      PlacementFirstCycle(ext);
    } else {
      PlacementCycle(ext, k - 1);
      SlotPeriodic(k - 1);
      assert Placement(ext, k + 8) == Placement(ext, k + 7) + ext[SlotOf(k + 7)];
      assert Placement(ext, k) == Placement(ext, k - 1) + ext[SlotOf(k - 1)];
    }
  }

  lemma PlacementFirstCycle(ext: seq<real>)
    requires |ext| == 5
    ensures Placement(ext, 8) == Placement(ext, 0) + CycleExtent(ext)
  {
    PlacementHalfCycle(ext);
    assert Placement(ext, 5) == Placement(ext, 4) + ext[Cathode];
    assert Placement(ext, 6) == Placement(ext, 5) + ext[Separator];
    assert Placement(ext, 7) == Placement(ext, 6) + ext[Anode];
    assert Placement(ext, 8) == Placement(ext, 7) + ext[CollectorA];
  }

  /** The thickness of the first four merges: anode, separator, cathode, collector_c. */
  function HalfCycleExtent(ext: seq<real>): real
    requires |ext| == 5
  {
    ext[Anode] + ext[Separator] + ext[Cathode] + ext[CollectorC]
  }

  lemma PlacementHalfCycle(ext: seq<real>)
    requires |ext| == 5
    ensures Placement(ext, 4) == ext[CollectorA] + HalfCycleExtent(ext)
  {
    assert Placement(ext, 1) == ext[CollectorA] + ext[Anode];
    assert Placement(ext, 2) == Placement(ext, 1) + ext[Separator];
    assert Placement(ext, 3) == Placement(ext, 2) + ext[Cathode];
    assert Placement(ext, 4) == Placement(ext, 3) + ext[CollectorC];
  }

  /**
   * The thickness of the assembled stack after n + 1 cycles of four merges:
   * collector_a, then (n + 1) / 2 full cycles, then for even n one half cycle
   * anode, separator, cathode, collector_c.
   */
  lemma {:induction false} StackThickness(ext: seq<real>, n: nat)
    requires |ext| == 5
    ensures Placement(ext, 4 * (n + 1))
         == ext[CollectorA] + ((n + 1) / 2) as real * CycleExtent(ext) + (if n % 2 == 0 then HalfCycleExtent(ext) else 0.0)
  {
    var m := (n + 1) / 2;
    if n % 2 == 0 {
      assert 4 * (n + 1) == 4 + 8 * m;
      PlacementCycles(ext, 4, m);
      PlacementHalfCycle(ext);
    } else {
      assert 4 * (n + 1) == 0 + 8 * m;
      PlacementCycles(ext, 0, m);
    }
    CopiesIsProduct(CycleExtent(ext), m);
  }

  /** m copies of c added up. */
  function Copies(c: real, m: nat): real {
    if m == 0 then 0.0 else Copies(c, m - 1) + c
  }

  lemma {:induction false} CopiesIsProduct(c: real, m: nat)
    ensures Copies(c, m) == m as real * c
  {
    if m > 0 {
      CopiesIsProduct(c, m - 1);
      var p := (m - 1) as real;
      assert m as real == p + 1.0;
      assert (p + 1.0) * c == p * c + c;
    }
  }

  /** m full cycles after merge r. */
  lemma {:induction false} PlacementCycles(ext: seq<real>, r: nat, m: nat)
    requires |ext| == 5
    ensures Placement(ext, r + 8 * m) == Placement(ext, r) + Copies(CycleExtent(ext), m)
  {
    if m > 0 {
      var k := r + 8 * (m - 1);
      assert k + 8 == r + 8 * m;
      PlacementCycles(ext, r, m - 1);
      PlacementCycle(ext, k);
    }
  }

  /** The cell count one full cycle of eight merges adds. */
  function CycleCellCount(init: seq<seq<Cell>>): nat
    requires |init| == 5
  {
    2 * (|init[Anode]| + |init[Separator]| + |init[Cathode]|) + |init[CollectorC]| + |init[CollectorA]|
  }

  lemma CellCountHalfCycle(init: seq<seq<Cell>>)
    requires |init| == 5
    ensures MergedCellCount(init, 4) == |init[Anode]| + |init[Separator]| + |init[Cathode]| + |init[CollectorC]|
  {
    assert MergedCellCount(init, 1) == |init[Anode]|;
    assert MergedCellCount(init, 2) == MergedCellCount(init, 1) + |init[Separator]|;
    assert MergedCellCount(init, 3) == MergedCellCount(init, 2) + |init[Cathode]|;
    assert MergedCellCount(init, 4) == MergedCellCount(init, 3) + |init[CollectorC]|;
  }

  lemma CellCountFirstCycle(init: seq<seq<Cell>>)
    requires |init| == 5
    ensures MergedCellCount(init, 8) == CycleCellCount(init)
  {
    CellCountHalfCycle(init);
    assert MergedCellCount(init, 5) == MergedCellCount(init, 4) + |init[Cathode]|;
    assert MergedCellCount(init, 6) == MergedCellCount(init, 5) + |init[Separator]|;
    assert MergedCellCount(init, 7) == MergedCellCount(init, 6) + |init[Anode]|;
    assert MergedCellCount(init, 8) == MergedCellCount(init, 7) + |init[CollectorA]|;
  }

  /** Eight consecutive merges use every slot once, so they add one cycle's cells. */
  lemma {:induction false} CellCountCycle(init: seq<seq<Cell>>, k: nat)
    requires |init| == 5
    ensures MergedCellCount(init, k + 8) == MergedCellCount(init, k) + CycleCellCount(init)
  {
    if k == 0 {
      CellCountFirstCycle(init);
    } else {
      CellCountCycle(init, k - 1);
      SlotPeriodic(k - 1);
      assert MergedCellCount(init, k + 8) == MergedCellCount(init, k + 7) + |init[SlotOf(k + 7)]|;
      assert MergedCellCount(init, k) == MergedCellCount(init, k - 1) + |init[SlotOf(k - 1)]|;
    }
  }

  /** The cells merged by n + 1 cycles of four merges, counted cycle by cycle. */
  lemma {:induction false} StackCellCount(init: seq<seq<Cell>>, n: nat)
    requires |init| == 5
    ensures MergedCellCount(init, 4 * (n + 1))
         == ((n + 1) / 2) * CycleCellCount(init)
            + (if n % 2 == 0 then |init[Anode]| + |init[Separator]| + |init[Cathode]| + |init[CollectorC]| else 0)
  {
    var m := (n + 1) / 2;
    if n % 2 == 0 {
      assert 4 * (n + 1) == 4 + 8 * m;
      CellCountCycles(init, 4, m);
      CellCountHalfCycle(init);
    } else {
      assert 4 * (n + 1) == 0 + 8 * m;
      CellCountCycles(init, 0, m);
    }
    CopiesCountIsProduct(CycleCellCount(init), m);
  }

  /** m copies of c added up. */
  function CopiesCount(c: nat, m: nat): nat {
    if m == 0 then 0 else CopiesCount(c, m - 1) + c
  }

  lemma {:induction false} CopiesCountIsProduct(c: nat, m: nat)
    ensures CopiesCount(c, m) == m * c
  {
    if m > 0 {
      CopiesCountIsProduct(c, m - 1);
      assert m * c == (m - 1) * c + c;
    }
  }

  /** m full cycles after merge r. */
  lemma {:induction false} CellCountCycles(init: seq<seq<Cell>>, r: nat, m: nat)
    requires |init| == 5
    ensures MergedCellCount(init, r + 8 * m) == MergedCellCount(init, r) + CopiesCount(CycleCellCount(init), m)
  {
    if m > 0 {
      var k := r + 8 * (m - 1);
      assert k + 8 == r + 8 * m;
      CellCountCycles(init, r, m - 1);
      CellCountCycle(init, k);
    }
  }

  /** Merging well-formed components gives a well-formed stack. */
  lemma {:induction false} PlacedWellFormed(init: seq<seq<Cell>>, ext: seq<real>, vert: seq<real>, dim: nat, k: nat)
    requires |init| == 5 && |ext| == 5 && |vert| == 5
    requires forall p :: 0 <= p < 5 ==> WellFormed(init[p], dim)
    ensures WellFormed(Placed(init, ext, vert, dim, k), dim)
  {
    if k > 0 {
      PlacedWellFormed(init, ext, vert, dim, k - 1);
      ShiftClearWellFormed(init[SlotOf(k - 1)], AxisVector(dim, Placement(ext, k - 1), vert[SlotOf(k - 1)]), dim);
    }
  }

  /** The stack's cell count is the sum of the merged components' cell counts. */
  lemma {:induction false} PlacedLength(init: seq<seq<Cell>>, ext: seq<real>, vert: seq<real>, dim: nat, k: nat)
    requires |init| == 5 && |ext| == 5 && |vert| == 5
    ensures |Placed(init, ext, vert, dim, k)| == MergedCellCount(init, k)
  {
    if k > 0 {
      PlacedLength(init, ext, vert, dim, k - 1);
    }
  }

  /** With positive extents the running offset strictly increases, so no two merges share a position. */
  lemma {:induction false} PlacementIncreasing(ext: seq<real>, j: nat, k: nat)
    requires |ext| == 5 && forall p :: 0 <= p < 5 ==> ext[p] > 0.0
    requires j < k
    ensures Placement(ext, j) < Placement(ext, k)
    ensures Placement(ext, j) + ext[SlotOf(j)] <= Placement(ext, k)
    decreases k
  {
    if j < k - 1 {
      PlacementIncreasing(ext, j, k - 1);
    }
  }

  /** A cell lies within [lo, hi] along axis 0. */
  predicate WithinAxial(c: Cell, lo: real, hi: real) {
    |c.lo| >= 1 && |c.hi| >= 1 && lo <= c.lo[0] && c.hi[0] <= hi
  }

  /**
   * A component mesh inside its box [0, extent] along axis 0, placed by merge
   * k, lies between the running offsets before and after that merge: the
   * layers neither leave a gap nor overlap.
   */
  lemma PlacedWithinSlab(init: seq<seq<Cell>>, ext: seq<real>, vert: seq<real>, dim: nat, k: nat, i: nat)
    requires |init| == 5 && |ext| == 5 && |vert| == 5 && dim >= 1
    requires var m := init[SlotOf(k)]; i < |m| && WithinAxial(m[i], 0.0, ext[SlotOf(k)])
    ensures var m := PlacedMesh(init, ext, vert, dim, k);
      WithinAxial(m[i], Placement(ext, k), Placement(ext, k + 1))
  {
  }

  /** sv with its axis-0 entry overwritten, when its other entries but the last are zero. */
  lemma ShiftVectorIsAxisVector(sv: Point, x: real)
    requires |sv| >= 2 && forall q :: 0 < q < |sv| - 1 ==> sv[q] == 0.0
    ensures sv[0 := x] == AxisVector(|sv|, x, sv[|sv| - 1])
  {
  }

  /**
   * The state of component p during the merge loop, in terms of its state
   * before the loop: a component not merged yet is untouched, with its
   * vertical shift still pending; a merged one sits at its offset along
   * axis 0, shifted vertically once, with no shift pending.
   */
  ghost predicate PartAt(mesh: seq<Cell>, offset: real, sv: Point, bx: seq<Point>,
                         init: seq<seq<Cell>>, vert: seq<real>, box: seq<seq<Point>>,
                         dim: nat, p: nat, placed: bool)
    requires |init| == 5 && |vert| == 5 && |box| == 5 && p < 5
  {
    && bx == box[p]
    && |sv| == dim >= 1
    && (forall q :: 0 < q < dim - 1 ==> sv[q] == 0.0)
    && if placed then
         && mesh == ShiftMesh(init[p], AxisVector(dim, offset, vert[p]))
         && sv[dim - 1] == 0.0
       else
         mesh == init[p] && offset == 0.0 && sv[dim - 1] == vert[p]
  }

  /** The triangulation after k merges, one merge_triangulations call at a time. */
  ghost function StackCells(init: seq<seq<Cell>>, ext: seq<real>, vert: seq<real>, dim: nat, k: nat): (r: seq<Cell>)
    requires |init| == 5 && |ext| == 5 && |vert| == 5
    ensures |r| == |init[CollectorA]| + MergedCellCount(init, k)
  {
    if k == 0 then init[CollectorA]
    else MergeTriangulations(StackCells(init, ext, vert, dim, k - 1), PlacedMesh(init, ext, vert, dim, k - 1))
  }

  /**
   * After at least one merge the triangulation is collector_a followed by
   * every placed mesh, in merge order, with all boundary ids cleared.
   */
  lemma {:induction false} StackCellsClosed(init: seq<seq<Cell>>, ext: seq<real>, vert: seq<real>, dim: nat, k: nat)
    requires |init| == 5 && |ext| == 5 && |vert| == 5 && k > 0
    ensures StackCells(init, ext, vert, dim, k) == ClearBoundaryIds(init[CollectorA] + Placed(init, ext, vert, dim, k))
  {
    var m := PlacedMesh(init, ext, vert, dim, k - 1);
    assert Placed(init, ext, vert, dim, k) == Placed(init, ext, vert, dim, k - 1) + m;
    if k == 1 {
      assert init[CollectorA] + Placed(init, ext, vert, dim, k) == init[CollectorA] + m;
      ClearBoundaryIdsAppend(init[CollectorA], m);
    } else {
      StackCellsClosed(init, ext, vert, dim, k - 1);
      var prefix := init[CollectorA] + Placed(init, ext, vert, dim, k - 1);
      assert init[CollectorA] + Placed(init, ext, vert, dim, k) == prefix + m;
      MergeAssociative(prefix, m);
    }
  }

  /** The first merge of a component applies its pending shift together with the axial move. */
  lemma FirstMerge(init: seq<Cell>, dim: nat, pk: real, v: real, oldShift: Point)
    requires dim >= 2 && |oldShift| == dim && forall q :: 0 < q < dim - 1 ==> oldShift[q] == 0.0
    requires oldShift[dim - 1] == v
    ensures ShiftMesh(init, oldShift[0 := pk - 0.0]) == ShiftMesh(init, AxisVector(dim, pk, v))
  {
    ShiftVectorIsAxisVector(oldShift, pk - 0.0);
  }

  /** A later merge moves the component from its last placement pj to pk, with no vertical part. */
  lemma LaterMerge(init: seq<Cell>, dim: nat, pj: real, pk: real, v: real, oldShift: Point)
    requires dim >= 2 && |oldShift| == dim && forall q :: 0 < q < dim - 1 ==> oldShift[q] == 0.0
    requires oldShift[dim - 1] == 0.0
    ensures ShiftMesh(ShiftMesh(init, AxisVector(dim, pj, v)), oldShift[0 := pk - pj])
         == ShiftMesh(init, AxisVector(dim, pk, v))
  {
    ShiftVectorIsAxisVector(oldShift, pk - pj);
    ShiftCompose(init, dim, pj, v, pk - pj, 0.0);
    assert pj + (pk - pj) == pk && v + 0.0 == v;
  }

  /**
   * The fixed frame of the merge loop: five distinct components, and for each
   * its box before the loop, whose axis-0 extent is ext[p].
   */
  ghost predicate Layout(parts: array<Component>, init: seq<seq<Cell>>, ext: seq<real>, vert: seq<real>,
                         box: seq<seq<Point>>, dim: nat)
    reads parts
  {
    && parts.Length == 5 && |init| == 5 && |ext| == 5 && |vert| == 5 && |box| == 5 && dim >= 2
    && (forall p, q :: 0 <= p < q < 5 ==> parts[p] != parts[q])
    && forall p :: 0 <= p < 5 ==> |box[p]| == 2 && |box[p][1]| >= 1 && ext[p] == box[p][1][0]
  }

  /** The triangulation and the five components after k merges; placed[p] says whether p has been merged. */
  ghost predicate StackAt(parts: array<Component>, t: Triangulation, init: seq<seq<Cell>>, ext: seq<real>,
                          vert: seq<real>, box: seq<seq<Point>>, dim: nat, k: nat, placed: seq<bool>)
    reads parts, t, set p | 0 <= p < parts.Length :: parts[p]
    requires Layout(parts, init, ext, vert, box, dim) && |placed| == 5
  {
    && t.cells == StackCells(init, ext, vert, dim, k)
    && forall p :: 0 <= p < 5 ==>
         PartAt(parts[p].mesh, parts[p].offset, parts[p].shiftVector, parts[p].box, init, vert, box, dim, p, placed[p])
  }

  /** One pass of the inner loop body: merge the component of slot pos, advance the offset and the slot. */
  method MergeNext(parts: array<Component>, t: Triangulation, offset: real, pos: nat, dim: nat,
                   ghost init: seq<seq<Cell>>, ghost ext: seq<real>, ghost vert: seq<real>, ghost box: seq<seq<Point>>,
                   ghost k: nat, ghost placed: seq<bool>)
    returns (offset': real, pos': nat, ghost placed': seq<bool>)
    requires Layout(parts, init, ext, vert, box, dim) && |placed| == 5
    requires pos == k % 8 && offset == Placement(ext, k)
    requires StackAt(parts, t, init, ext, vert, box, dim, k, placed)
    modifies t, parts[SlotOf(k)]
    ensures pos' == (k + 1) % 8 && offset' == Placement(ext, k + 1)
    ensures placed' == placed[SlotOf(k) := true]
    ensures StackAt(parts, t, init, ext, vert, box, dim, k + 1, placed')
  {
    var c := parts[Slots[pos]];
    ghost var s := SlotOf(k);
    ghost var oldShift, oldOffset := c.shiftVector, c.offset;
    assert PartAt(c.mesh, c.offset, c.shiftVector, c.box, init, vert, box, dim, s, placed[s]);
    MergeComponents(c, offset, t);
    if placed[s] {
      LaterMerge(init[s], dim, oldOffset, offset, vert[s], oldShift);
    } else {
      FirstMerge(init[s], dim, offset, vert[s], oldShift);
    }
    placed' := placed[s := true];
    assert PartAt(c.mesh, c.offset, c.shiftVector, c.box, init, vert, box, dim, s, placed'[s]);
    assert c.box[1][0] == ext[s];
    offset' := offset + c.box[1][0];
    pos' := (pos + 1) % 8;
    SlotStep(k);
  }

  /** database.get("n_repetitions", 1): the configured number of extra cycles, 1 when absent. */
  function Repetitions(nRepetitions: Option<nat>): nat {
    if nRepetitions.Some? then nRepetitions.value else 1
  }

  /**
   * The merge loop of mesh_generator. The triangulation is seeded with
   * collector_a's mesh, then n_repetitions + 1 cycles of four merges each run
   * through the slot table; merge k uses slot k mod 8 and places its component
   * at Placement(k). Returns the running offset after the last merge.
   */
  method MergeStack(parts: array<Component>, t: Triangulation, nRepetitions: Option<nat>, dim: nat,
                    ghost init: seq<seq<Cell>>, ghost ext: seq<real>, ghost vert: seq<real>, ghost box: seq<seq<Point>>)
    returns (offset: real)
    requires Layout(parts, init, ext, vert, box, dim)
    requires forall p :: 0 <= p < 5 ==>
      PartAt(parts[p].mesh, parts[p].offset, parts[p].shiftVector, parts[p].box, init, vert, box, dim, p, false)
    modifies t, set p | 0 <= p < 5 :: parts[p]
    ensures offset == Placement(ext, 4 * (Repetitions(nRepetitions) + 1))
    ensures t.cells == StackCells(init, ext, vert, dim, 4 * (Repetitions(nRepetitions) + 1))
  {
    t.cells := parts[CollectorA].mesh;
    offset := parts[CollectorA].box[1][0];
    var n := Repetitions(nRepetitions);
    offset := MergeCycles(parts, t, offset, n, dim, init, ext, vert, box);
  }

  /** The outer loop: n + 1 cycles of four merges each. */
  method MergeCycles(parts: array<Component>, t: Triangulation, offset0: real, n: nat, dim: nat,
                     ghost init: seq<seq<Cell>>, ghost ext: seq<real>, ghost vert: seq<real>, ghost box: seq<seq<Point>>)
    returns (offset: real)
    requires Layout(parts, init, ext, vert, box, dim)
    requires offset0 == Placement(ext, 0) && t.cells == init[CollectorA]
    requires forall p :: 0 <= p < 5 ==>
      PartAt(parts[p].mesh, parts[p].offset, parts[p].shiftVector, parts[p].box, init, vert, box, dim, p, false)
    modifies t, set p | 0 <= p < 5 :: parts[p]
    ensures offset == Placement(ext, 4 * (n + 1))
    ensures t.cells == StackCells(init, ext, vert, dim, 4 * (n + 1))
  {
    offset := offset0;
    var pos: nat := 0;
    var i: nat := 0;
    ghost var k: nat := 0;
    ghost var placed := [false, false, false, false, false];
    assert StackAt(parts, t, init, ext, vert, box, dim, k, placed);
    while i <= n
      invariant i <= n + 1 && k == 4 * i && pos == k % 8 && |placed| == 5
      invariant offset == Placement(ext, k)
      invariant StackAt(parts, t, init, ext, vert, box, dim, k, placed)
    {
      offset, pos, placed := MergeFour(parts, t, offset, pos, dim, init, ext, vert, box, k, placed);
      i := i + 1;
      k := k + 4;
    }
    assert k == 4 * (n + 1);
  }

  /** The inner loop: the four merges of one cycle, starting with merge k. */
  method MergeFour(parts: array<Component>, t: Triangulation, offset0: real, pos0: nat, dim: nat,
                   ghost init: seq<seq<Cell>>, ghost ext: seq<real>, ghost vert: seq<real>, ghost box: seq<seq<Point>>,
                   ghost k: nat, ghost placed0: seq<bool>)
    returns (offset: real, pos: nat, ghost placed: seq<bool>)
    requires Layout(parts, init, ext, vert, box, dim) && |placed0| == 5
    requires pos0 == k % 8 && offset0 == Placement(ext, k)
    requires StackAt(parts, t, init, ext, vert, box, dim, k, placed0)
    modifies t, set p | 0 <= p < 5 :: parts[p]
    ensures pos == (k + 4) % 8 && offset == Placement(ext, k + 4) && |placed| == 5
    ensures StackAt(parts, t, init, ext, vert, box, dim, k + 4, placed)
  {
    offset, pos, placed := offset0, pos0, placed0;
    var j: nat := 0;
    ghost var m: nat := k;
    while j < 4
      invariant j <= 4 && m == k + j && pos == m % 8 && |placed| == 5
      invariant offset == Placement(ext, m)
      invariant StackAt(parts, t, init, ext, vert, box, dim, m, placed)
    {
      offset, pos, placed := MergeNext(parts, t, offset, pos, dim, init, ext, vert, box, m, placed);
      j := j + 1;
      m := m + 1;
    }
    assert m == k + 4;
  }
}

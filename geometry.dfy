/**
 * The Geometry class: the material and boundary catalogs, the
 * triangulation, the generated layered mesh and the terminal boundary ids.
 */
module Geometry {
  import opened Wrappers
  import opened Mesh
  import opened Catalog
  import opened Components
  import opened Alignment
  import opened CollectorTransforms
  import opened Stack
  import opened Boundary

  /** The "divisions" and "dimensions" lists of one layer's database, already parsed. */
  datatype ComponentDatabase = ComponentDatabase(divisions: seq<nat>, dimensions: seq<real>)

  /** dealii::Point<dim>(): the origin. */
  function Origin(dim: nat): (p: Point)
    ensures |p| == dim && forall k :: 0 <= k < dim ==> p[k] == 0.0
  {
    seq(dim, _ => 0.0)
  }

  /** The database lists have what read_component_database and subdivided_hyper_rectangle use. */
  predicate ValidDatabase(db: ComponentDatabase, dim: nat) {
    |db.divisions| == dim && |db.dimensions| >= dim
  }

  /**
   * read_component_database: the box is the origin and the corner given by the
   * first dim "dimensions" entries; the repetitions are the "divisions".
   */
  function ReadBox(db: ComponentDatabase, dim: nat): (box: seq<Point>)
    requires ValidDatabase(db, dim)
    ensures |box| == 2 && box[0] == Origin(dim) && |box[1]| == dim
    ensures forall k :: 0 <= k < dim ==> box[1][k] == db.dimensions[k]
  {
    [Origin(dim), db.dimensions[..dim]]
  }

  /** The hyper rectangle generator yields well-formed meshes of dimension dim. */
  ghost predicate GridWellFormed(grid: (seq<nat>, Point, Point) -> seq<Cell>, dim: nat) {
    forall reps, lo, hi :: WellFormed(grid(reps, lo, hi), dim)
  }

  /** What mesh_generator demands of its inputs. */
  predicate GeneratorInputs(collector: ComponentDatabase, anode: ComponentDatabase, cathode: ComponentDatabase,
                            separator: ComponentDatabase, materials: TagMap, dim: nat)
  {
    && (dim == 2 || dim == 3)
    && ValidDatabase(collector, dim) && ValidDatabase(anode, dim)
    && ValidDatabase(cathode, dim) && ValidDatabase(separator, dim)
    && collector.divisions[dim - 1] >= 2 && collector.dimensions[dim - 1] > 0.0
    && Lookup(materials, "anode") != {} && Lookup(materials, "cathode") != {}
    && Lookup(materials, "separator") != {}
    && Lookup(materials, "collector_anode") != {} && Lookup(materials, "collector_cathode") != {}
  }

  /** One layer's mesh: the generated grid with every cell given the first id of its class. */
  ghost function LayerMesh(db: ComponentDatabase, grid: (seq<nat>, Point, Point) -> seq<Cell>, ids: set<nat>, dim: nat): seq<Cell>
    requires ValidDatabase(db, dim) && ids != {}
  {
    var box := ReadBox(db, dim);
    WithMaterial(grid(db.divisions, box[0], box[1]), Least(ids))
  }

  /** The collector grid with every cell given the first id of one collector class. */
  ghost function CollectorGrid(collector: ComponentDatabase, materials: TagMap, name: string,
                               grid: (seq<nat>, Point, Point) -> seq<Cell>, dim: nat): (m: seq<Cell>)
    requires ValidDatabase(collector, dim) && Lookup(materials, name) != {} && GridWellFormed(grid, dim)
    ensures WellFormed(m, dim)
  {
    var box := ReadBox(collector, dim);
    WithMaterialWellFormed(grid(collector.divisions, box[0], box[1]), Least(Lookup(materials, name)), dim);
    WithMaterial(grid(collector.divisions, box[0], box[1]), Least(Lookup(materials, name)))
  }

  /** collector_a's mesh after transform_coll_a. */
  ghost function CollectorAMesh(collector: ComponentDatabase, anode: ComponentDatabase, materials: TagMap,
                                grid: (seq<nat>, Point, Point) -> seq<Cell>, dim: nat): seq<Cell>
    requires GeneratorInputs(collector, anode, anode, anode, materials, dim) && GridWellFormed(grid, dim)
  {
    var h := collector.dimensions[dim - 1];
    var reps := collector.divisions[dim - 1];
    TransformMeshA(CollectorGrid(collector, materials, "collector_anode", grid, dim), dim,
                   ScaleFactor(anode.dimensions[dim - 1], h, reps), h)
  }

  /** collector_c's mesh after transform_coll_c, before its vertical shift. */
  ghost function CollectorCMesh(collector: ComponentDatabase, anode: ComponentDatabase, materials: TagMap,
                                grid: (seq<nat>, Point, Point) -> seq<Cell>, dim: nat): seq<Cell>
    requires GeneratorInputs(collector, anode, anode, anode, materials, dim) && GridWellFormed(grid, dim)
  {
    var h := collector.dimensions[dim - 1];
    var a := anode.dimensions[dim - 1];
    var reps := collector.divisions[dim - 1];
    TransformMeshC(CollectorGrid(collector, materials, "collector_cathode", grid, dim), dim,
                   ScaleFactor(a, h, reps), h, CollectorCOffset(a, h, reps))
  }

  /**
   * The five component meshes entering the merge, indexed as in the Stack
   * module: both collectors from the collector database, realigned by their
   * transforms, then anode, cathode and separator.
   */
  ghost function InitialMeshes(collector: ComponentDatabase, anode: ComponentDatabase, cathode: ComponentDatabase,
                               separator: ComponentDatabase, materials: TagMap,
                               grid: (seq<nat>, Point, Point) -> seq<Cell>, dim: nat): (init: seq<seq<Cell>>)
    requires GeneratorInputs(collector, anode, cathode, separator, materials, dim) && GridWellFormed(grid, dim)
    ensures |init| == 5
  {
    [CollectorAMesh(collector, anode, materials, grid, dim),
     CollectorCMesh(collector, anode, materials, grid, dim),
     LayerMesh(anode, grid, Lookup(materials, "anode"), dim),
     LayerMesh(cathode, grid, Lookup(materials, "cathode"), dim),
     LayerMesh(separator, grid, Lookup(materials, "separator"), dim)]
  }

  /** The extents along axis 0, indexed as in the Stack module. */
  function LayerExtents(collector: ComponentDatabase, anode: ComponentDatabase, cathode: ComponentDatabase,
                   separator: ComponentDatabase): (ext: seq<real>)
    requires |collector.dimensions| >= 1 && |anode.dimensions| >= 1
    requires |cathode.dimensions| >= 1 && |separator.dimensions| >= 1
    ensures |ext| == 5
  {
    [collector.dimensions[0], collector.dimensions[0], anode.dimensions[0], cathode.dimensions[0], separator.dimensions[0]]
  }

  /** The pending vertical shifts: only collector_c moves down, by the collector's excess height. */
  function LayerVerticals(collectorHeight: real, anodeHeight: real): (vert: seq<real>)
    ensures |vert| == 5
  {
    [0.0, VerticalShift(anodeHeight, collectorHeight), 0.0, 0.0, 0.0]
  }

  /** The boxes read from the databases, indexed as in the Stack module; collector_c copies collector_a's. */
  function LayerBoxes(collector: ComponentDatabase, anode: ComponentDatabase, cathode: ComponentDatabase,
                      separator: ComponentDatabase, dim: nat): (box: seq<seq<Point>>)
    requires ValidDatabase(collector, dim) && ValidDatabase(anode, dim)
    requires ValidDatabase(cathode, dim) && ValidDatabase(separator, dim)
    ensures |box| == 5
  {
    [ReadBox(collector, dim), ReadBox(collector, dim), ReadBox(anode, dim), ReadBox(cathode, dim), ReadBox(separator, dim)]
  }

  /** The merged stack before the terminal ids are set: n + 1 cycles of four merges after collector_a. */
  ghost function GeneratedStack(collector: ComponentDatabase, anode: ComponentDatabase, cathode: ComponentDatabase,
                                separator: ComponentDatabase, materials: TagMap,
                                grid: (seq<nat>, Point, Point) -> seq<Cell>, dim: nat, n: nat): seq<Cell>
    requires GeneratorInputs(collector, anode, cathode, separator, materials, dim) && GridWellFormed(grid, dim)
  {
    StackCells(InitialMeshes(collector, anode, cathode, separator, materials, grid, dim),
               LayerExtents(collector, anode, cathode, separator),
               LayerVerticals(collector.dimensions[dim - 1], anode.dimensions[dim - 1]), dim, 4 * (n + 1))
  }

  lemma GeneratedStackWellFormed(collector: ComponentDatabase, anode: ComponentDatabase, cathode: ComponentDatabase,
                                 separator: ComponentDatabase, materials: TagMap,
                                 grid: (seq<nat>, Point, Point) -> seq<Cell>, dim: nat, n: nat)
    requires GeneratorInputs(collector, anode, cathode, separator, materials, dim) && GridWellFormed(grid, dim)
    ensures WellFormed(GeneratedStack(collector, anode, cathode, separator, materials, grid, dim, n), dim)
  {
    var init := InitialMeshes(collector, anode, cathode, separator, materials, grid, dim);
    var ext := LayerExtents(collector, anode, cathode, separator);
    var vert := LayerVerticals(collector.dimensions[dim - 1], anode.dimensions[dim - 1]);
    StackCellsClosed(init, ext, vert, dim, 4 * (n + 1));
    PlacedWellFormed(init, ext, vert, dim, 4 * (n + 1));
    ShiftClearWellFormed(init[CollectorA] + Placed(init, ext, vert, dim, 4 * (n + 1)), [], dim);
  }

  /** The number of cells the grid generator gives one layer. */
  function GridCells(db: ComponentDatabase, grid: (seq<nat>, Point, Point) -> seq<Cell>, dim: nat): nat
    requires ValidDatabase(db, dim)
  {
    var box := ReadBox(db, dim);
    |grid(db.divisions, box[0], box[1])|
  }

  /**
   * The generated stack's cell count: collector_a, then per full cycle two
   * collectors and two of each inner layer, then for even n a half cycle.
   */
  lemma GeneratedStackCells(collector: ComponentDatabase, anode: ComponentDatabase, cathode: ComponentDatabase,
                            separator: ComponentDatabase, materials: TagMap,
                            grid: (seq<nat>, Point, Point) -> seq<Cell>, dim: nat, n: nat)
    requires GeneratorInputs(collector, anode, cathode, separator, materials, dim) && GridWellFormed(grid, dim)
    ensures var nc := GridCells(collector, grid, dim);
      var inner := GridCells(anode, grid, dim) + GridCells(separator, grid, dim) + GridCells(cathode, grid, dim);
      |GeneratedStack(collector, anode, cathode, separator, materials, grid, dim, n)|
        == nc + ((n + 1) / 2) * (2 * inner + 2 * nc) + (if n % 2 == 0 then inner + nc else 0)
  {
    var init := InitialMeshes(collector, anode, cathode, separator, materials, grid, dim);
    var ext := LayerExtents(collector, anode, cathode, separator);
    var vert := LayerVerticals(collector.dimensions[dim - 1], anode.dimensions[dim - 1]);
    StackCellCount(init, n);
    assert |init[CollectorA]| == |init[CollectorC]| == GridCells(collector, grid, dim);
    assert |init[Anode]| == GridCells(anode, grid, dim);
    assert |init[Cathode]| == GridCells(cathode, grid, dim);
    assert |init[Separator]| == GridCells(separator, grid, dim);
  }

  /** The id *s.begin() reads: the least element of the set. */
  method Begin(s: set<nat>) returns (m: nat)
    requires s != {}
    ensures m in s && forall y :: y in s ==> m <= y
    ensures m == Least(s)
  {
    LeastExists(s);
    m :| m in s && forall y :: y in s ==> m <= y;
  }

  /** The loop of mesh_generator giving every cell of a component one material id. */
  method SetMaterialId(c: Component, id: nat)
    modifies c
    ensures c.mesh == WithMaterial(old(c.mesh), id)
    ensures c.box == old(c.box) && c.repetitions == old(c.repetitions)
    ensures c.offset == old(c.offset) && c.shiftVector == old(c.shiftVector)
  {
    ghost var before := c.mesh;
    var i := 0;
    while i < |c.mesh|
      invariant 0 <= i <= |c.mesh| == |before|
      invariant forall j :: 0 <= j < i ==> c.mesh[j] == before[j].(material := id)
      invariant forall j :: i <= j < |c.mesh| ==> c.mesh[j] == before[j]
      invariant c.box == old(c.box) && c.repetitions == old(c.repetitions)
      invariant c.offset == old(c.offset) && c.shiftVector == old(c.shiftVector)
    {
      c.mesh := c.mesh[i := c.mesh[i].(material := id)];
      i := i + 1;
    }
  }

  class Geometry {
    const dim: nat
    const triangulation: Triangulation
    /** The material catalog: class name to material ids. */
    var materials: TagMap
    /** The boundary catalog: terminal name to boundary ids. */
    var boundaries: TagMap

    /** A geometry over a fresh empty triangulation with empty catalogs. */
    constructor (dim: nat)
      ensures this.dim == dim && fresh(triangulation) && triangulation.cells == []
      ensures materials == map[] && boundaries == map[]
    {
      this.dim := dim;
      triangulation := new Triangulation();
      materials := map[];
      boundaries := map[];
    }

    /**
     * fill_material_and_boundary_maps(database): both catalogs rebuilt from the
     * configured entries by emplace, in order, so that a repeated name keeps
     * its first set.
     */
    method FillMaterialAndBoundaryMaps(materialEntries: seq<Entry>, boundaryEntries: seq<Entry>)
      modifies this
      ensures materials == EmplaceAll(map[], materialEntries)
      ensures boundaries == EmplaceAll(map[], boundaryEntries)
    {
      materials := map[];
      var m := 0;
      while m < |materialEntries|
        invariant 0 <= m <= |materialEntries|
        invariant materials == EmplaceAll(map[], materialEntries[..m])
      {
        EmplaceAllSnoc(map[], materialEntries[..m], materialEntries[m]);
        assert materialEntries[..m + 1] == materialEntries[..m] + [materialEntries[m]];
        materials := Emplace(materials, materialEntries[m]);
        m := m + 1;
      }
      assert materialEntries[..m] == materialEntries;
      boundaries := map[];
      var b := 0;
      while b < |boundaryEntries|
        invariant 0 <= b <= |boundaryEntries|
        invariant materials == EmplaceAll(map[], materialEntries)
        invariant boundaries == EmplaceAll(map[], boundaryEntries[..b])
      {
        EmplaceAllSnoc(map[], boundaryEntries[..b], boundaryEntries[b]);
        assert boundaryEntries[..b + 1] == boundaryEntries[..b] + [boundaryEntries[b]];
        boundaries := Emplace(boundaries, boundaryEntries[b]);
        b := b + 1;
      }
      assert boundaryEntries[..b] == boundaryEntries;
    }

    /** fill_material_and_boundary_maps(): the built-in catalogs. */
    method FillDefaultMaterialAndBoundaryMaps()
      modifies this
      ensures materials == DefaultMaterials() && boundaries == DefaultBoundaries()
    {
      materials := DefaultMaterials();
      boundaries := DefaultBoundaries();
    }

    /**
     * set_boundary_ids: the anode pass, the check of its reduced flag, then the
     * cathode pass and its check, each pass preceded by the check that its
     * terminal name carries one id.
     */
    method SetBoundaryIds(collectorTop: real, collectorBottom: real, anodePeers: seq<nat>, cathodePeers: seq<nat>)
      returns (r: Outcome)
      requires dim >= 1 && WellFormed(triangulation.cells, dim)
      modifies triangulation
      ensures (triangulation.cells, r)
           == AssignTerminals(old(triangulation.cells), materials, boundaries, collectorTop, collectorBottom,
                              anodePeers, cathodePeers)
    {
      var anodeCells := Lookup(materials, "collector_anode");
      var anodeIds := Lookup(boundaries, "anode");
      if |anodeIds| != 1 {
        return Fail(SizeMessage("anode"));
      }
      var anodeId := Begin(anodeIds);
      ghost var before := triangulation.cells;
      var flag := TagTerminal(triangulation, anodeCells, collectorTop, anodeId, dim);
      flag := ReduceMax(flag, anodePeers);
      if flag != 1 {
        return Fail(AnodeNotSet);
      }
      var cathodeCells := Lookup(materials, "collector_cathode");
      var cathodeIds := Lookup(boundaries, "cathode");
      if |cathodeIds| != 1 {
        return Fail(SizeMessage("cathode"));
      }
      var cathodeId := Begin(cathodeIds);
      TagMeshKeepsGeometry(before, anodeCells, collectorTop, anodeId, dim);
      flag := TagTerminal(triangulation, cathodeCells, collectorBottom, cathodeId, dim);
      flag := ReduceMax(flag, cathodePeers);
      if flag != 1 {
        return Fail(CathodeNotSet);
      }
      return Pass;
    }
 
    /**
     * mesh_generator: the five components built from their databases, the
     * collectors realigned, the stack merged and the terminal ids set on the
     * top of collector_a and on the bottom of the shifted collector_c. The
     * grid generator is a parameter; the peers' flags stand for the other ranks.
     */
    method MeshGenerator(collector: ComponentDatabase, anode: ComponentDatabase, cathode: ComponentDatabase,
                         separator: ComponentDatabase, nRepetitions: Option<nat>,
                         grid: (seq<nat>, Point, Point) -> seq<Cell>, anodePeers: seq<nat>, cathodePeers: seq<nat>)
      returns (r: Outcome)
      requires GeneratorInputs(collector, anode, cathode, separator, materials, dim) && GridWellFormed(grid, dim)
      modifies triangulation
      ensures (triangulation.cells, r)
           == AssignTerminals(GeneratedStack(collector, anode, cathode, separator, materials, grid, dim,
                                             Repetitions(nRepetitions)),
                              materials, boundaries, collector.dimensions[dim - 1],
                              VerticalShift(anode.dimensions[dim - 1], collector.dimensions[dim - 1]),
                              anodePeers, cathodePeers)
    {
      ghost var init := InitialMeshes(collector, anode, cathode, separator, materials, grid, dim);
      ghost var ext := LayerExtents(collector, anode, cathode, separator);
      ghost var vert := LayerVerticals(collector.dimensions[dim - 1], anode.dimensions[dim - 1]);
      ghost var box := LayerBoxes(collector, anode, cathode, separator, dim);
      var parts := BuildParts(collector, anode, cathode, separator, grid);
      var offset := MergeStack(parts, triangulation, nRepetitions, dim, init, ext, vert, box);
      GeneratedStackWellFormed(collector, anode, cathode, separator, materials, grid, dim, Repetitions(nRepetitions));
      r := SetBoundaryIds(collector.dimensions[dim - 1],
                          VerticalShift(anode.dimensions[dim - 1], collector.dimensions[dim - 1]),
                          anodePeers, cathodePeers);
    }

    /** The components array of mesh_generator with each component once, in the Stack module's order. */
    method BuildParts(collector: ComponentDatabase, anode: ComponentDatabase, cathode: ComponentDatabase,
                      separator: ComponentDatabase, grid: (seq<nat>, Point, Point) -> seq<Cell>)
      returns (parts: array<Component>)
      requires GeneratorInputs(collector, anode, cathode, separator, materials, dim) && GridWellFormed(grid, dim)
      ensures fresh(parts) && parts.Length == 5
      ensures forall p :: 0 <= p < 5 ==> fresh(parts[p])
      ensures Layout(parts, InitialMeshes(collector, anode, cathode, separator, materials, grid, dim),
                     LayerExtents(collector, anode, cathode, separator),
                     LayerVerticals(collector.dimensions[dim - 1], anode.dimensions[dim - 1]),
                     LayerBoxes(collector, anode, cathode, separator, dim), dim)
      ensures forall p :: 0 <= p < 5 ==>
        PartAt(parts[p].mesh, parts[p].offset, parts[p].shiftVector, parts[p].box,
               InitialMeshes(collector, anode, cathode, separator, materials, grid, dim),
               LayerVerticals(collector.dimensions[dim - 1], anode.dimensions[dim - 1]),
               LayerBoxes(collector, anode, cathode, separator, dim), dim, p, false)
    {
      ghost var init := InitialMeshes(collector, anode, cathode, separator, materials, grid, dim);
      ghost var vert := LayerVerticals(collector.dimensions[dim - 1], anode.dimensions[dim - 1]);
      ghost var box := LayerBoxes(collector, anode, cathode, separator, dim);
      var collectorA, collectorC := BuildCollectors(collector, anode, grid);
      assert PartAt(collectorA.mesh, collectorA.offset, collectorA.shiftVector, collectorA.box, init, vert, box, dim, CollectorA, false);
      assert PartAt(collectorC.mesh, collectorC.offset, collectorC.shiftVector, collectorC.box, init, vert, box, dim, CollectorC, false);
      var anodePart := BuildLayer(anode, Lookup(materials, "anode"), grid);
      assert PartAt(anodePart.mesh, anodePart.offset, anodePart.shiftVector, anodePart.box, init, vert, box, dim, Anode, false);
      var cathodePart := BuildLayer(cathode, Lookup(materials, "cathode"), grid);
      assert PartAt(cathodePart.mesh, cathodePart.offset, cathodePart.shiftVector, cathodePart.box, init, vert, box, dim, Cathode, false);
      var separatorPart := BuildLayer(separator, Lookup(materials, "separator"), grid);
      assert PartAt(separatorPart.mesh, separatorPart.offset, separatorPart.shiftVector, separatorPart.box, init, vert, box, dim, Separator, false);
      parts := Assemble(collectorA, collectorC, anodePart, cathodePart, separatorPart);
    }

    /** The five distinct components in one array, in the Stack module's order. */
    method Assemble(collectorA: Component, collectorC: Component, anodePart: Component,
                    cathodePart: Component, separatorPart: Component)
      returns (parts: array<Component>)
      requires collectorA != collectorC && collectorA != anodePart && collectorA != cathodePart && collectorA != separatorPart
      requires collectorC != anodePart && collectorC != cathodePart && collectorC != separatorPart
      requires anodePart != cathodePart && anodePart != separatorPart && cathodePart != separatorPart
      ensures fresh(parts) && parts.Length == 5
      ensures parts[..] == [collectorA, collectorC, anodePart, cathodePart, separatorPart]
      ensures forall p, q :: 0 <= p < q < 5 ==> parts[p] != parts[q]
    {
      parts := new Component[5][collectorA, collectorC, anodePart, cathodePart, separatorPart];
    }

    /** One electrode or separator component: read, meshed, and given its class's first material id. */
    method BuildLayer(db: ComponentDatabase, ids: set<nat>, grid: (seq<nat>, Point, Point) -> seq<Cell>)
      returns (c: Component)
      requires ValidDatabase(db, dim) && ids != {} && GridWellFormed(grid, dim)
      ensures fresh(c) && c.box == ReadBox(db, dim) && c.repetitions == db.divisions
      ensures c.mesh == LayerMesh(db, grid, ids, dim) && WellFormed(c.mesh, dim)
      ensures c.offset == 0.0 && c.shiftVector == AxisVector(dim, 0.0, 0.0)
    {
      c := new Component(ReadBox(db, dim), db.divisions, dim);
      c.mesh := grid(c.repetitions, c.box[0], c.box[1]);
      var id := Begin(ids);
      SetMaterialId(c, id);
      WithMaterialWellFormed(grid(c.repetitions, c.box[0], c.box[1]), id, dim);
    }

    /**
     * The two collectors: the same box and grid, each with its own material
     * id, realigned by transform_coll_a and transform_coll_c; collector_c also
     * gets its one-time vertical shift.
     */
    method BuildCollectors(collector: ComponentDatabase, anode: ComponentDatabase,
                           grid: (seq<nat>, Point, Point) -> seq<Cell>)
      returns (collectorA: Component, collectorC: Component)
      requires GeneratorInputs(collector, anode, anode, anode, materials, dim) && GridWellFormed(grid, dim)
      ensures fresh(collectorA) && fresh(collectorC) && collectorA != collectorC
      ensures collectorA.box == ReadBox(collector, dim) && collectorC.box == collectorA.box
      ensures collectorA.repetitions == collector.divisions && collectorC.repetitions == collector.divisions
      ensures collectorA.mesh == CollectorAMesh(collector, anode, materials, grid, dim)
      ensures collectorC.mesh == CollectorCMesh(collector, anode, materials, grid, dim)
      ensures collectorA.offset == 0.0 && collectorC.offset == 0.0
      ensures collectorA.shiftVector == AxisVector(dim, 0.0, 0.0)
      ensures collectorC.shiftVector
           == AxisVector(dim, 0.0, VerticalShift(anode.dimensions[dim - 1], collector.dimensions[dim - 1]))
    {
      collectorA := new Component(ReadBox(collector, dim), collector.divisions, dim);
      collectorC := new Component(collectorA.box, collectorA.repetitions, dim);
      var anodeDim := anode.dimensions[dim - 1];
      var collectorDim := collectorA.box[1][dim - 1];
      var reps := collectorA.repetitions[dim - 1];

      collectorA.mesh := grid(collectorA.repetitions, collectorA.box[0], collectorA.box[1]);
      var id := Begin(Lookup(materials, "collector_anode"));
      SetMaterialId(collectorA, id);
      assert collectorA.mesh == CollectorGrid(collector, materials, "collector_anode", grid, dim);
      var scaleA := ScaleFactor(anodeDim, collectorDim, reps);
      collectorA.mesh := TransformMeshA(collectorA.mesh, dim, scaleA, collectorA.box[1][dim - 1]);

      collectorC.mesh := grid(collectorC.repetitions, collectorC.box[0], collectorC.box[1]);
      id := Begin(Lookup(materials, "collector_cathode"));
      SetMaterialId(collectorC, id);
      assert collectorC.mesh == CollectorGrid(collector, materials, "collector_cathode", grid, dim);
      var scaleC := ScaleFactor(anodeDim, collectorDim, reps);
      collectorC.mesh := TransformMeshC(collectorC.mesh, dim, scaleC, collectorC.box[1][dim - 1],
                                        CollectorCOffset(anodeDim, collectorDim, reps));
      collectorC.shiftVector := collectorC.shiftVector[dim - 1 := VerticalShift(anodeDim, collectorDim)];
    }
  }
}

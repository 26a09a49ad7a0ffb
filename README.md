# Layered energy-storage mesh assembly, modelled in Dafny

This project models the core of the geometry of a layered energy-storage
device, a supercapacitor cell stack: current collector, anode,
separator, cathode, collector, repeated. The model covers:

- **The configuration decisions.** `Geometry`'s constructor dispatches on the
  mesh type:
  - `restart` does nothing;
  - `file` reads catalogs and a mesh file whose extension must be `ucd` or `inp`;
  - any other type uses the built-in catalogs and generates the mesh;
  - `supercapacitor` first adds its default divisions, no repetitions and one
    refinement.

  The geometry database is converted from centimetres to metres. The
  conversion throws when the two collector thicknesses differ.
- **The layer catalog.** Material and boundary names map to sets of ids,
  filled from the configuration with `emplace`, or built in.
- **The component meshes.** Each layer is a structured grid whose cells get
  the first material id of their class. The two collectors are realigned
  along the vertical axis by `transform_coll_a` and `transform_coll_c`, so
  their interior nodes meet the electrodes, and `collector_c` carries a
  one-time vertical shift.
- **The cyclic stack merge.**
  - The merge starts from `collector_a`.
  - `n_repetitions + 1` cycles of four merges walk the eight-slot table
    anode, separator, cathode, collector_c, cathode, separator, anode,
    collector_a.
  - `merge_components` moves each component to the running offset,
    applies the vertical shift once, and merges it into the triangulation.
  - Merging loses boundary ids.
- **`set_boundary_ids`.** This pass restores the two terminal boundary ids:
  - on the top faces of the `collector_anode` cells;
  - on the bottom faces of the `collector_cathode` cells.

  Each pass's local flag is reduced over the ranks and asserted.
- **`compute_cell_weight`.** The repartition weight of a cell is the
  configured weight of the first class, among anode, cathode, separator and
  collector, that holds its material. A cell of no class gets the sentinel
  `invalid_unsigned_int`.
- **`buildEnergyStorageDevice`.** The device factory dispatches on the
  configured type: SeriesRC, ParallelRC, or NoName of dimension 2 or 3.

The meshes are modelled on values:

- A mesh is a sequence of axis-aligned box cells. Each cell has a material
  id, two opposite vertices and one boundary id per face.
- Axis 0 is the stacking axis. The last axis is the vertical axis along
  which the collectors are aligned.
- Coordinates are reals.
- The objects the source updates in place are classes with `modifies`
  clauses:
  - the components;
  - the triangulation;
  - the `Geometry` object and its catalogs;
  - the property tree.

  The loops of the merge, the material assignment, the catalog fill and the
  boundary pass are `while` loops, each proved against a function
  (`StackCells`, `WithMaterial`, `EmplaceAll`, `TagMesh`) whose properties
  are proved as lemmas.

With `n_repetitions = 0`, the loop of `mesh_generator` (lines 491-503)
performs four merges after `collector_a`. The stack is then five slabs thick:
collector_a, anode, separator, cathode and collector_c.
`Supercapacitor.DefaultStackThickness` states this thickness.

## Model

| member | source | states |
|---|---|---|
| Alignment.TransformCollA | cpp/source/deal.II/geometry.templates.h:66-80 | a point whose last coordinate is within 1e-15 of 0 or of the maximum is returned unchanged; otherwise only the last coordinate changes, multiplied by the scale factor |
| Alignment.TransformCollC | cpp/source/deal.II/geometry.templates.h:82-97 | as transform_coll_a, except that an interior last coordinate is scaled and then translated by the offset |
| Alignment.EndFacesFixed | cpp/source/deal.II/geometry.templates.h:71-73 | points on the bottom face (0) and on the top face (max_value) are fixed points of both transforms |
| Alignment.ScaledLayer | cpp/source/deal.II/geometry.templates.h:456-465 | one collector layer (delta_collector) times scale_factor is the electrode height split into reps - 1 layers |
| Alignment.InteriorNodes | cpp/source/deal.II/geometry.templates.h:72 | when a layer is at least eps high, the grid nodes 1 .. reps-1 are not pinned, so the transforms move them |
| Alignment.CollectorANodeImage | cpp/source/deal.II/geometry.templates.h:456-469 | after transform_coll_a, node k of collector_a is at 0 for k = 0, at k/(reps-1) of the electrode height for interior k, and at the collector height for k = reps |
| Alignment.CollectorAMatchesElectrode | cpp/source/deal.II/geometry.templates.h:465-469 | the node one layer below collector_a's top lands exactly on the electrode height |
| Alignment.CollectorCNodeImage | cpp/source/deal.II/geometry.templates.h:473-484 | after transform_coll_c and the vertical shift -(collector_dim - anode_dim), node 0 of collector_c is on the cathode terminal plane, node k on (k-1)/(reps-1) of the electrode height, and the top node on the electrode height |
| Alignment.AlignedNodesIncrease | cpp/source/deal.II/geometry.templates.h:456-484 | for 0 < electrode height < collector height, consecutive aligned nodes of both collectors are strictly increasing, so no cell is inverted or flattened |
| Alignment.DeltaCollector | cpp/source/deal.II/geometry.templates.h:456-459 | reps layers of delta_collector make up the collector height |
| Alignment.ScaleFactor | cpp/source/deal.II/geometry.templates.h:456-465 | the scale factor maps the collector height less one layer exactly onto the electrode height |
| Alignment.CollectorCOffset | cpp/source/deal.II/geometry.templates.h:478-482 | the node one layer above collector_c's bottom, scaled, offset and shifted vertically, lands at 0 |
| Alignment.VerticalShift | cpp/source/deal.II/geometry.templates.h:484-508 | shifting collector_c's top, at the collector height, puts it at the electrode height; the same value is the cathode terminal coordinate |
| CollectorTransforms.TransformMeshA | cpp/source/deal.II/geometry.templates.h:466-469 | GridTools::transform with transform_coll_a keeps the cell count, every material id and face id, and well-formedness, and moves both vertices of every cell by transform_coll_a |
| CollectorTransforms.TransformMeshC | cpp/source/deal.II/geometry.templates.h:479-483 | the same for transform_coll_c with its offset |
| CollectorTransforms.CollectorAMeshNodes | cpp/source/deal.II/geometry.templates.h:456-469 | a collector_a cell vertex on grid node k is, after the transform and any placement along axis 0, at the aligned node k; the top node stays at the collector height, the anode terminal plane |
| CollectorTransforms.CollectorCMeshNodes | cpp/source/deal.II/geometry.templates.h:473-508 | a collector_c cell vertex on grid node k is, after the transform, the vertical shift and any placement along axis 0, at the aligned node k; node 0 lands on -(collector_dim - anode_dim), the cathode terminal plane |
| Mesh.MergeTriangulations | cpp/source/deal.II/geometry.templates.h:129-134 | the merged mesh holds the first mesh's cells and then the second's, with materials and vertices kept and every boundary id reset |
| Mesh.ClearBoundaryIdsIdempotent | cpp/source/deal.II/geometry.templates.h:131-134 | resetting boundary ids twice is resetting them once |
| Mesh.ClearBoundaryIdsAppend | cpp/source/deal.II/geometry.templates.h:131-134 | resetting the ids of two meshes put together resets each one |
| Mesh.MergeAssociative | cpp/source/deal.II/geometry.templates.h:489-503 | merging one more mesh into an already merged triangulation equals one merge of all the cells |
| Mesh.ShiftCompose | cpp/source/deal.II/geometry.templates.h:125-126 | two successive GridTools::shift calls by axis vectors add up to one shift by the sum |
| Mesh.ShiftClearWellFormed | cpp/source/deal.II/geometry.templates.h:126-134 | shifting and merging keep every cell well formed |
| Mesh.WithMaterial | cpp/source/deal.II/geometry.templates.h:440-441 | set_material_id on every cell sets that material on every cell and changes nothing else |
| Mesh.WithMaterialWellFormed | cpp/source/deal.II/geometry.templates.h:440-441 | setting material ids neither breaks nor repairs well-formedness |
| Catalog.Lookup | cpp/source/deal.II/geometry.templates.h:276-279 | a name that reads a non-empty set is in the map with that set; a missing name reads as the empty set (with Catalog.SubscriptIsLookup) |
| Catalog.SubscriptIsLookup | cpp/source/deal.II/geometry.templates.h:276-279 | operator[] returns the stored set, or the empty set it inserts, and the insertion changes no other lookup |
| Catalog.Least | cpp/source/deal.II/geometry.templates.h:441 | *set.begin() is an element of the set no larger than any other |
| Catalog.Emplace | cpp/source/deal.II/geometry.templates.h:310-312 | emplace adds the name; an existing name keeps its set and a new name gets the entry's ids |
| Catalog.EmplaceAll | cpp/source/deal.II/geometry.templates.h:301-313 | the fill keeps every name already present with its set and adds every configured name |
| Catalog.EmplaceAllSnoc | cpp/source/deal.II/geometry.templates.h:301-313 | emplacing one more entry at the end continues the fill loop |
| Catalog.EmplaceAllKeys | cpp/source/deal.II/geometry.templates.h:301-313 | a name is in the filled catalog iff it was there already or some entry carries it |
| Catalog.EmplaceAllKeepsExisting | cpp/source/deal.II/geometry.templates.h:310-312 | a name present before the fill keeps its set |
| Catalog.EmplaceAllFirstWins | cpp/source/deal.II/geometry.templates.h:310-312 | for a name configured several times, the first entry's ids are kept |
| Catalog.DefaultMaterials | cpp/source/deal.II/geometry.templates.h:335-344 | six material classes; anode, cathode and separator are pairwise disjoint and disjoint from collector; collector is the union of the two collector variants; no class is empty |
| Catalog.DefaultBoundaries | cpp/source/deal.II/geometry.templates.h:345-350 | the names anode and cathode, one id each, different from each other |
| Components.Triangulation.constructor | cpp/source/deal.II/geometry.templates.h:147-148 | a new triangulation holds no cells |
| Components.Component.constructor | cpp/source/deal.II/geometry.templates.h:49-55 | a component starts at offset 0 with the given box and repetitions, no mesh and a zero shift vector |
| Components.MergeComponents | cpp/source/deal.II/geometry.templates.h:118-138 | the component's mesh is shifted by its old shift vector with entry 0 set to offset minus its old offset; it is then merged after the triangulation's cells; its offset becomes offset; the vertical entry of its shift vector becomes 0 and every other entry is kept |
| Stack.SlotOf | cpp/source/deal.II/geometry.templates.h:486-488 | merge k uses one of the five components, given by the eight-slot table |
| Stack.SlotPeriodic | cpp/source/deal.II/geometry.templates.h:500-501 | pos = pos % 8 makes the slot sequence repeat every eight merges |
| Stack.StackCells | cpp/source/deal.II/geometry.templates.h:489-503 | the triangulation after k merges has collector_a's cells plus the cells of the k merged components |
| Stack.PlacementCycle | cpp/source/deal.II/geometry.templates.h:494-501 | any eight consecutive merges advance the offset by one cycle: two collectors and two of each inner layer |
| Stack.PlacementFirstCycle | cpp/source/deal.II/geometry.templates.h:486-501 | the first eight merges advance the offset by one cycle's thickness |
| Stack.PlacementHalfCycle | cpp/source/deal.II/geometry.templates.h:486-501 | after the first four merges the offset is collector_a plus anode, separator, cathode and collector_c |
| Stack.StackThickness | cpp/source/deal.II/geometry.templates.h:491-503 | the final offset, the stack's thickness, is collector_a plus (n+1)/2 full cycles plus, for even n, one half cycle |
| Stack.PlacementCycles | cpp/source/deal.II/geometry.templates.h:494-503 | m full cycles after any merge advance the offset by m cycle thicknesses |
| Stack.CellCountHalfCycle | cpp/source/deal.II/geometry.templates.h:494-503 | the first four merges add the cells of anode, separator, cathode and collector_c |
| Stack.CellCountFirstCycle | cpp/source/deal.II/geometry.templates.h:494-503 | the first eight merges add one cycle's cells |
| Stack.CellCountCycle | cpp/source/deal.II/geometry.templates.h:494-503 | any eight consecutive merges add one cycle's cells |
| Stack.CellCountCycles | cpp/source/deal.II/geometry.templates.h:494-503 | m full cycles after any merge add m cycles' cells |
| Stack.StackCellCount | cpp/source/deal.II/geometry.templates.h:494-503 | the 4(n+1) merges add (n+1)/2 cycles' cells plus, for even n, a half cycle's cells |
| Stack.PlacedWellFormed | cpp/source/deal.II/geometry.templates.h:494-503 | merging well-formed components gives well-formed cells |
| Stack.PlacedLength | cpp/source/deal.II/geometry.templates.h:494-503 | merging conserves cells: the merged cells number the sum of the merged components' cells |
| Stack.PlacementIncreasing | cpp/source/deal.II/geometry.templates.h:491-501 | with positive extents the running offset strictly increases, and each component ends before the next merge's offset |
| Stack.PlacedWithinSlab | cpp/source/deal.II/geometry.templates.h:498-499 | a component inside its box along axis 0 lies, once placed, between the offsets before and after its merge, so layers neither overlap nor leave a gap |
| Stack.ShiftVectorIsAxisVector | cpp/source/deal.II/geometry.templates.h:125 | overwriting entry 0 of a shift vector that is zero in between gives the axis vector of the new axial and the old vertical displacement |
| Stack.FirstMerge | cpp/source/deal.II/geometry.templates.h:125-137 | a component's first merge moves it from 0 to its placement together with its pending vertical shift |
| Stack.LaterMerge | cpp/source/deal.II/geometry.templates.h:125-137 | a later merge moves the component from its last placement to the new one with no vertical part, so the vertical shift is applied once |
| Stack.StackCellsClosed | cpp/source/deal.II/geometry.templates.h:489-503 | the triangulation after k merges is collector_a followed by the k placed components, with boundary ids reset |
| Stack.MergeNext | cpp/source/deal.II/geometry.templates.h:498-501 | one merge: the next component is merged at the running offset, the offset grows by its extent, pos advances modulo 8, and the triangulation and all components stay in the state after k+1 merges |
| Stack.MergeFour | cpp/source/deal.II/geometry.templates.h:496-502 | the inner loop performs the next four merges |
| Stack.MergeCycles | cpp/source/deal.II/geometry.templates.h:494-503 | the outer loop leaves the offset and the triangulation as after 4(n+1) merges |
| Stack.MergeStack | cpp/source/deal.II/geometry.templates.h:489-503 | starting from collector_a's mesh and extent, with n_repetitions defaulting to 1, the final offset and triangulation are those after 4(n_repetitions+1) merges |
| Weights.ReadWeight | cpp/source/deal.II/geometry.templates.h:254 | a missing weight reads as 0; a configured int is converted to unsigned int modulo 2^32 |
| Weights.ReadWeights | cpp/source/deal.II/geometry.templates.h:253-259 | the weights array holds the four classes' configured weights in WEIGHT_TYPE order |
| Weights.MinusOneIsSentinel | cpp/source/deal.II/geometry.templates.h:254-290 | a weight configured as -1 becomes invalid_unsigned_int, the same value as the no-class sentinel |
| Weights.FirstClassIsFirst | cpp/source/deal.II/geometry.templates.h:280-290 | the reference lookup finds the first class, in WEIGHT_TYPE order, that holds the material; it finds none exactly when no class does |
| Weights.ComputeCellWeight | cpp/source/deal.II/geometry.templates.h:266-291 | the weight is one of the configured weights or the sentinel; an anode id gets the anode weight; an id in no class gets the sentinel |
| Weights.CellWeightIsFirstMatch | cpp/source/deal.II/geometry.templates.h:266-291 | compute_cell_weight returns the weight of the first class holding the material, or invalid_unsigned_int when none does |
| Weights.SentinelIffUnmatched | cpp/source/deal.II/geometry.templates.h:280-290 | when no configured weight equals the sentinel, the sentinel comes back iff no class holds the material |
| Weights.DefaultCatalogWeights | cpp/source/deal.II/geometry.templates.h:276-290 | with the built-in catalog, ids 0, 2 and 1 get the anode, cathode and separator weights, ids 3 and 4 the collector weight, and every other id the sentinel |
| Boundary.TagFaces | cpp/source/deal.II/geometry.templates.h:558-566 | the face loop gives every face on the target plane, within eps times the cell measure, the boundary id; hit is set iff some face was on the plane |
| Boundary.TagTerminal | cpp/source/deal.II/geometry.templates.h:547-566 | one pass tags the faces on the plane of every boundary cell of the given materials; the local flag is 1 iff some such face exists |
| Boundary.ReduceMax | cpp/source/deal.II/geometry.templates.h:567 | the reduction is at least every rank's flag and equal to one of them |
| Boundary.ReduceMaxOfFlags | cpp/source/deal.II/geometry.templates.h:567-568 | the reduced 0/1 flag is 1 iff some rank set its flag |
| Boundary.AtBoundarySameGeometry | cpp/source/deal.II/geometry.templates.h:557 | at_boundary depends only on the cells' geometry, not on boundary ids |
| Boundary.TagMesh | cpp/source/deal.II/geometry.templates.h:547-566 | a pass keeps every cell's material, vertices and face count |
| Boundary.AssignTerminals | cpp/source/deal.II/geometry.templates.h:525-593 | the cell count is kept; success needs both terminal names to carry one id; an anode name without exactly one id fails at once with the size message and an unchanged mesh |
| Boundary.TagMeshKeepsGeometry | cpp/source/deal.II/geometry.templates.h:556-566 | a pass changes boundary ids only: vertices, face counts and materials stay, and so does well-formedness |
| Boundary.TagMeshFace | cpp/source/deal.II/geometry.templates.h:556-566 | after a pass, a face of a filtered boundary cell that lies on the plane carries the id, and every other face keeps its id |
| Boundary.TagMeshIdempotent | cpp/source/deal.II/geometry.templates.h:556-566 | running a pass twice is running it once |
| Boundary.BothTerminalsTagged | cpp/source/deal.II/geometry.templates.h:545-592 | with disjoint collector materials, the anode pass and then the cathode pass leave anode ids on the collector_anode top faces and cathode ids on the collector_cathode bottom faces; every other face keeps its id |
| Boundary.FoundSameGeometry | cpp/source/deal.II/geometry.templates.h:570-591 | the anode pass does not change which faces the cathode pass finds |
| Boundary.AssignTerminalsPass | cpp/source/deal.II/geometry.templates.h:525-593 | when set_boundary_ids completes: each terminal name carried one id, each terminal face carries its terminal's id, every other face keeps its id, and geometry and materials are unchanged |
| Boundary.AssignTerminalsOutcome | cpp/source/deal.II/geometry.templates.h:537-592 | with 0/1 flags on every rank, set_boundary_ids succeeds iff both terminal names carry one id and, for each terminal, this rank finds a face on its plane or another rank set its flag |
| Boundary.SingleRankDefaultCatalog | cpp/source/deal.II/geometry.templates.h:537-592 | on one rank with the built-in boundary catalog, set_boundary_ids completes iff both passes find a terminal face |
| Config.FindLastOf | cpp/source/deal.II/geometry.templates.h:164 | find_last_of returns the last position of the character, or npos exactly when it does not occur |
| Config.FileExtensionSplits | cpp/source/deal.II/geometry.templates.h:163-164 | the extension contains no dot; with a dot, the name is a prefix, a dot and the extension; without one, npos + 1 wraps to 0 and the extension is the whole name |
| Config.FileExtension | cpp/source/deal.II/geometry.templates.h:163-164 | the extension is a dot-free suffix of the file name, and the whole name when it has no dot |
| Config.SelectReader | cpp/source/deal.II/geometry.templates.h:166-178 | a reader is selected iff the extension is ucd or inp, read_ucd exactly for ucd |
| Config.ConstructorSteps | cpp/source/deal.II/geometry.templates.h:144-236 | no step is taken iff the type is restart, and a failing constructor never repartitions |
| Config.RestartDoesNothing | cpp/source/deal.II/geometry.templates.h:150-153 | the restart type builds nothing and does not repartition |
| Config.CatalogFirstRepartitionLast | cpp/source/deal.II/geometry.templates.h:154-235 | every other type first fills a catalog, from the database exactly for file, and ends with repartition exactly when it succeeds |
| Config.ConstructorFailures | cpp/source/deal.II/geometry.templates.h:144-236 | the constructor throws iff a file mesh has an extension other than ucd and inp, or a generated mesh has collectors of different thicknesses, or mesh_generator fails; the message names the extension and the file, or is the thickness message, or is mesh_generator's |
| Config.GenerateIffConverted | cpp/source/deal.II/geometry.templates.h:190-229 | the database is converted iff the type is neither restart nor file; the mesh is generated iff, in addition, the collectors have one thickness; the supercapacitor defaults are put iff, in addition, the type is supercapacitor |
| Config.CheckpointAfterBuild | cpp/source/deal.II/geometry.templates.h:183-188 | the coarse mesh is written iff checkpointing is on and the mesh was built without failure, from a file or by mesh_generator (lines 512-517), just before the repartition |
| Config.ConvertedDimensions | cpp/source/deal.II/geometry.templates.h:357-405 | the conversion writes dimensions for exactly the four layers, the collector's thickness first, in metres |
| Config.ConvertedHeights | cpp/source/deal.II/geometry.templates.h:357-405 | after conversion every layer has dim entries, its thickness divided by 100 first; the inner layers share one height, and the collector is taller by the tab height divided by 100; in 2D that height is the area divided by 10000 |
| Config.SupercapacitorDivisionsFit | cpp/source/deal.II/geometry.templates.h:198-219 | the default divisions give every layer dim entries of at least 1, the collector at least 2 vertical layers, and the collector's vertical layers less one equal to each inner layer's |
| Config.Database.ConvertGeometryDatabase | cpp/source/deal.II/geometry.templates.h:353-406 | unequal collector thicknesses give the error and write nothing; otherwise the four layers' dimensions are written in metres and nothing else changes |
| Config.Database.PutSupercapacitorDefaults | cpp/source/deal.II/geometry.templates.h:196-228 | writes the default divisions, n_repetitions = 0 and n_refinements = 1 plus any configured value, and nothing else |
| Device.DigitsRoundTrip | src/energy_storage_device.cc:23 | reading the decimal digits std::to_string writes gives back the number |
| Device.IntToStringRoundTrip | src/energy_storage_device.cc:23 | parsing std::to_string(dim) gives back dim, negative values included |
| Device.BuildEnergyStorageDevice | src/energy_storage_device.cc:6-27 | a device is built iff the type is SeriesRC or ParallelRC, or NoName with dim 2 or 3 |
| Device.DeviceKinds | src/energy_storage_device.cc:6-27 | SeriesRC, ParallelRC, NoName<2> and NoName<3> are built exactly for their type and dimension; NoName with no dim fails the tree lookup |
| Device.DimOnlyForNoName | src/energy_storage_device.cc:15-24 | dim is read only for NoName and does not affect any other type |
| Device.UnknownTypeFails | src/energy_storage_device.cc:10-26 | a missing type reads as unknown_type; an unknown type throws a message that quotes it |
| Device.BadDimMessage | src/energy_storage_device.cc:17-23 | a NoName dimension other than 2 or 3 throws a message from which the dimension can be read back |
| Geometry.Origin | cpp/source/deal.II/geometry.templates.h:107 | Point<dim>() has dim coordinates, all zero |
| Geometry.ReadBox | cpp/source/deal.II/geometry.templates.h:99-116 | the box is the origin and the corner given by the first dim dimensions entries |
| Geometry.CollectorGrid | cpp/source/deal.II/geometry.templates.h:460-464 | the collector grid with its collector class's first material id is well formed |
| Geometry.Begin | cpp/source/deal.II/geometry.templates.h:441 | *s.begin() of a non-empty set is its least element |
| Geometry.SetMaterialId | cpp/source/deal.II/geometry.templates.h:440-441 | the material loop gives every cell of the component the id and changes nothing else |
| Geometry.GeneratedStackWellFormed | cpp/source/deal.II/geometry.templates.h:486-503 | the merged stack is well formed |
| Geometry.GeneratedStackCells | cpp/source/deal.II/geometry.templates.h:486-503 | the merged stack has collector_a's cells, plus two collectors and two of each inner layer per full cycle, plus one half cycle for even n_repetitions |
| Geometry.Geometry.constructor | cpp/source/deal.II/geometry.templates.h:144-148 | a geometry starts with an empty triangulation and no catalogs |
| Geometry.Geometry.FillMaterialAndBoundaryMaps | cpp/source/deal.II/geometry.templates.h:293-330 | both catalogs are rebuilt from the configured entries in order by emplace |
| Geometry.Geometry.FillDefaultMaterialAndBoundaryMaps | cpp/source/deal.II/geometry.templates.h:332-351 | the catalogs become the built-in ones |
| Geometry.Geometry.SetBoundaryIds | cpp/source/deal.II/geometry.templates.h:525-593 | the mesh and outcome are those of the two passes with their assertions: the size checks, the anode pass and its reduced flag, then the cathode pass and its flag |
| Geometry.Geometry.MeshGenerator | cpp/source/deal.II/geometry.templates.h:407-508 | the triangulation and outcome are set_boundary_ids, at the collector top and at -(collector_dim - anode_dim), applied to the stack after 4(n_repetitions + 1) merges of the realigned components |
| Geometry.Geometry.BuildParts | cpp/source/deal.II/geometry.templates.h:410-488 | five fresh distinct components, each at offset 0 with its box, its mesh and its pending shift (only collector_c has a vertical one) |
| Geometry.Geometry.Assemble | cpp/source/deal.II/geometry.templates.h:486-488 | the component array holds each of the five components once |
| Geometry.Geometry.BuildLayer | cpp/source/deal.II/geometry.templates.h:418-453 | an electrode or separator component: its box read from the database, its grid, every cell with its class's first id, offset 0 and no shift |
| Geometry.Geometry.BuildCollectors | cpp/source/deal.II/geometry.templates.h:410-484 | the two collectors share box and repetitions; each grid has its own collector id and is realigned by its transform; only collector_c has the vertical shift |
| Supercapacitor.DefaultsFeedGenerator | cpp/source/deal.II/geometry.templates.h:190-229 | the built-in catalog, the supercapacitor divisions and the converted dimensions meet every requirement of mesh_generator; the collector is taller than the electrodes |
| Supercapacitor.DefaultStackThickness | cpp/source/deal.II/geometry.templates.h:221-229 | with n_repetitions set to 0 the stack is two collectors, the anode, the separator and the cathode thick, in metres |

## Left out

- deal.II's mesh primitives are modelled on values or taken as parameters:
  - `subdivided_hyper_rectangle` is a parameter `grid` assumed to give well-formed meshes;
  - `merge_triangulations` is modelled without vertex fusion;
  - `copy_triangulation` and `clear` are plain assignments;
  - `refine_global` and `n_refinements` (lines 520-522) are not modelled.
- Cells are axis-aligned boxes. The transforms are checked on the two box vertices of each cell, which stand for all its vertices.
- `repartition` (lines 249-264) is not modelled beyond the weights it reads: the connection of `compute_cell_weight` to the cell-weight signal and the redistribution are deal.II and MPI internals.
- MPI is not modelled. Other ranks enter only as a sequence of peer flags in the `Utilities::MPI::max` reduction.
- Face ids are stored per cell, not per face object. A face shared by two cells has one copy in each. `set_boundary_ids` tags every face of a filtered cell on the plane without checking `face->at_boundary()` (lines 561-564 and 585-588). When it tags an interior face shared with a neighbour through one cell, deal.II changes the id the neighbour sees too; the model changes only the filtered cell's copy, and `Boundary.TagMeshFace` and `Boundary.BothTerminalsTagged` say the neighbour's copy keeps its id. In the generated stack no interior face lies on either terminal plane.
- `locally_owned = false` means every cell is visited. That matches the single sequence of cells the model keeps.
- I/O is not modelled:
  - `output_coarse_mesh` and the checkpoint branches (lines 183-188 for a file mesh, 512-517 inside `mesh_generator`) appear only as a step in `Config.ConstructorSteps`;
  - `read_ucd` and `read_abaqus` appear only as the reader selected;
  - opening and closing the file stream is not modelled.
- Property-tree parsing is not modelled:
  - `to_vector` and the `get` of missing keys without defaults are not modelled;
  - the modelled operations take the parsed lists and values as inputs;
  - a missing required key, a tree exception, is a precondition except for `dim` in the device factory.
- `std::to_string` of doubles is not modelled (the conversion records the values as reals). `std::sqrt` is a parameter `sqrtArea`.
- Floating point is modelled as real arithmetic. Rounding of the centimetre conversion and of the transforms is not captured.
- Stack.Repetitions: takes `n_repetitions` as a natural number. The conversion of a negative configured int to unsigned int (line 493) is not modelled.
- The second `Geometry` constructor (lines 238-247) only calls `fill_material_and_boundary_maps(database)`. It is not a separate member; `Geometry.Geometry.FillMaterialAndBoundaryMaps` models its work.
- Catalog lookups through `operator[]` are modelled by `Catalog.Lookup`, which does not insert. `Catalog.SubscriptIsLookup` proves that the insertion changes no lookup.
- `BOOST_ASSERT_MSG` is modelled with debug-build semantics: a failed assertion stops `set_boundary_ids` with its message. In a release build the assertions do nothing.
- The size assertion of `get_boundary_id` (line 540) concatenates an undeclared `string`. The model uses the lambda's argument name there.
- Alignment.ScaleFactor: requires at least two collector layers and a positive collector height. The source does not check this; with one layer it divides by zero.
- Stack.MergeStack: states the final offset and triangulation, not the final state of the five components.
- The first `Component` constructor and `read_component_database` are merged into one call with the box and repetitions already read.
- Config.ConstructorSteps: takes the collector-thickness comparison of `convert_geometry_database` and the outcome of `mesh_generator` as parameters. `Config.Database.ConvertGeometryDatabase` and `Geometry.Geometry.MeshGenerator` compute them; the dispatch does not call them itself.

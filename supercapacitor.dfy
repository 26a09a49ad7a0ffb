/**
 * The default supercapacitor: the built-in catalog, the default divisions
 * and the converted dimensions together meet what mesh_generator needs.
 */
module Supercapacitor {
  import opened Wrappers
  import opened Catalog
  import opened Config
  import opened Stack
  import opened Geometry

  /** The layer database mesh_generator reads for one layer name after the defaults and the conversion. */
  function LayerDatabase(reals: map<string, real>, dim: nat, sqrtArea: real, name: string): ComponentDatabase
    requires HasGeometryKeys(reals) && name in {"collector", "anode", "separator", "cathode"}
  {
    ComponentDatabase(SupercapacitorDivisions(dim)[name], ConvertedDimensions(reals, dim, sqrtArea)[name])
  }

  /** The geometry entries are physical: positive area and tab, and in 3D the root of the converted area. */
  predicate Physical(reals: map<string, real>, dim: nat, sqrtArea: real)
    requires HasGeometryKeys(reals)
  {
    && reals["geometric_area"] > 0.0 && reals["tab_height"] > 0.0
    && (dim == 3 ==> sqrtArea > 0.0 && sqrtArea * sqrtArea == reals["geometric_area"] * Cm2ToM2)
  }

  /**
   * With the built-in catalog, the supercapacitor divisions and converted
   * physical dimensions, every requirement of mesh_generator holds, and the
   * collector is taller than the electrodes, as the alignment lemmas assume.
   */
  lemma DefaultsFeedGenerator(reals: map<string, real>, dim: nat, sqrtArea: real)
    requires HasGeometryKeys(reals) && (dim == 2 || dim == 3) && Physical(reals, dim, sqrtArea)
    ensures var collector := LayerDatabase(reals, dim, sqrtArea, "collector");
      var anode := LayerDatabase(reals, dim, sqrtArea, "anode");
      && GeneratorInputs(collector, anode, LayerDatabase(reals, dim, sqrtArea, "cathode"),
                         LayerDatabase(reals, dim, sqrtArea, "separator"), DefaultMaterials(), dim)
      && 0.0 < anode.dimensions[dim - 1] < collector.dimensions[dim - 1]
  {
    SupercapacitorDivisionsFit(dim);
    ConvertedHeights(reals, dim, sqrtArea);
  }

  /**
   * With n_repetitions set to 0 the stack is one half cell pair thick: both
   * collectors, the anode, the separator and the cathode, in metres.
   */
  lemma DefaultStackThickness(reals: map<string, real>, dim: nat, sqrtArea: real)
    requires HasGeometryKeys(reals) && (dim == 2 || dim == 3)
    ensures var c := LayerDatabase(reals, dim, sqrtArea, "collector");
      var a := LayerDatabase(reals, dim, sqrtArea, "anode");
      var k := LayerDatabase(reals, dim, sqrtArea, "cathode");
      var s := LayerDatabase(reals, dim, sqrtArea, "separator");
      Placement(LayerExtents(c, a, k, s), 4 * (Repetitions(Some(0)) + 1))
        == (2.0 * reals["anode_collector_thickness"] + reals["anode_electrode_thickness"]
            + reals["separator_thickness"] + reals["cathode_electrode_thickness"]) / 100.0
  {
    var c := LayerDatabase(reals, dim, sqrtArea, "collector");
    var a := LayerDatabase(reals, dim, sqrtArea, "anode");
    var k := LayerDatabase(reals, dim, sqrtArea, "cathode");
    var s := LayerDatabase(reals, dim, sqrtArea, "separator");
    ConvertedHeights(reals, dim, sqrtArea);
    var ext := LayerExtents(c, a, k, s);
    assert Repetitions(Some(0)) == 0;
    StackThickness(ext, 0);
    PlacementHalfCycle(ext);
    assert Placement(ext, 4) == ext[CollectorA] + HalfCycleExtent(ext);
  }
}

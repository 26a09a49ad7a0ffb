/**
 * The configuration decisions of the Geometry constructor: what each mesh
 * type does, the mesh file's extension and reader, the geometry database's
 * conversion from centimetres, and the supercapacitor defaults.
 */
module Config {
  import opened Wrappers

  /** std::string::npos for a 64-bit size_t. */
  const Npos: nat := 0xFFFF_FFFF_FFFF_FFFF
  const SizeModulus: nat := 0x1_0000_0000_0000_0000

  /** find_last_of(c): the last position of c, or npos. */
  function FindLastOf(s: string, c: char): (pos: nat)
    requires |s| < Npos
    ensures pos == Npos || (pos < |s| && s[pos] == c)
    ensures pos == Npos ==> c !in s
    ensures pos != Npos ==> forall k :: pos < k < |s| ==> s[k] != c
  {
    if |s| == 0 then Npos
    else if s[|s| - 1] == c then |s| - 1
    else FindLastOf(s[..|s| - 1], c)
  }

  /**
   * mesh_file.substr(mesh_file.find_last_of(".") + 1): the text after the
   * last dot; without a dot npos + 1 wraps to 0 and the whole name is kept.
   */
  function FileExtension(name: string): (ext: string)
    requires |name| < Npos
    ensures '.' !in ext && |ext| <= |name| && ext == name[|name| - |ext|..]
    ensures '.' !in name ==> ext == name
  {
    var start := (FindLastOf(name, '.') + 1) % SizeModulus;
    name[start..]
  }

  /** The extension has no dot, and the name is what precedes the last dot, the dot and the extension. */
  lemma FileExtensionSplits(name: string)
    requires |name| < Npos
    ensures '.' !in FileExtension(name)
    ensures '.' in name ==> exists pre :: name == pre + "." + FileExtension(name)
    ensures '.' !in name ==> FileExtension(name) == name
  {
    var pos := FindLastOf(name, '.');
    if pos != Npos {
      assert name == name[..pos] + "." + name[pos + 1..];
    }
  }

  datatype Reader = Ucd | Abaqus

  /** The reader the extension selects, or the constructor's error. */
  function SelectReader(meshFile: string): (r: Result<Reader>)
    requires |meshFile| < Npos
    ensures r.Ok? <==> FileExtension(meshFile) in {"ucd", "inp"}
    ensures r.Ok? ==> (r.value == Ucd <==> FileExtension(meshFile) == "ucd")
  {
    var ext := FileExtension(meshFile);
    if ext == "ucd" then Ok(Ucd)
    else if ext == "inp" then Ok(Abaqus)
    else Err("Bad mesh file extension ." + ext + " in mesh file " + meshFile)
  }

  /** The steps the Geometry constructor takes, in order. */
  datatype Step =
    | FillFromDatabase      // fill_material_and_boundary_maps(database)
    | ReadMesh(reader: Reader)
    | OutputCoarseMesh
    | FillDefaults          // fill_material_and_boundary_maps()
    | ConvertDatabase       // convert_geometry_database
    | SupercapacitorDefaults
    | GenerateMesh          // mesh_generator
    | Repartition

  /**
   * The Geometry constructor's dispatch on the mesh type: "restart" does
   * nothing; "file" reads the catalogs and the mesh file, failing on an
   * unknown extension; any other type uses the built-in catalogs and converts
   * the geometry database, which throws when the two collector thicknesses
   * differ, then generates the mesh, with the supercapacitor's divisions for
   * "supercapacitor". Every mesh that was built is repartitioned.
   * `collectorsEqual` is the comparison convert_geometry_database makes and
   * `generated` the outcome of mesh_generator (its boundary assertions).
   */
  function ConstructorSteps(meshType: string, meshFile: string, checkpoint: bool,
                            collectorsEqual: bool, generated: Outcome): (r: (seq<Step>, Outcome))
    requires |meshFile| < Npos
    ensures r.0 == [] <==> meshType == "restart"
    ensures r.1.Fail? ==> Repartition !in r.0
  {
    if meshType == "restart" then ([], Pass)
    else if meshType == "file" then
      match SelectReader(meshFile)
      case Err(msg) => ([FillFromDatabase], Fail(msg))
      case Ok(reader) =>
        ([FillFromDatabase, ReadMesh(reader)] + (if checkpoint then [OutputCoarseMesh] else []) + [Repartition], Pass)
    else if !collectorsEqual then
      ([FillDefaults, ConvertDatabase], Fail(ThicknessMismatch))
    else
      var generate := [FillDefaults, ConvertDatabase]
                      + (if meshType == "supercapacitor" then [SupercapacitorDefaults] else []) + [GenerateMesh];
      if generated.Fail? then (generate, generated)
      else (generate + (if checkpoint then [OutputCoarseMesh] else []) + [Repartition], Pass)
  }

  /** A restart builds nothing and does not repartition. */
  lemma RestartDoesNothing(meshFile: string, checkpoint: bool, collectorsEqual: bool, generated: Outcome)
    requires |meshFile| < Npos
    ensures ConstructorSteps("restart", meshFile, checkpoint, collectorsEqual, generated) == ([], Pass)
  {
  }

  /**
   * Every type but "restart" fills a catalog first, and repartitions last
   * exactly when it succeeds; the catalog comes from the database exactly for
   * "file".
   */
  lemma CatalogFirstRepartitionLast(meshType: string, meshFile: string, checkpoint: bool,
                                    collectorsEqual: bool, generated: Outcome)
    requires |meshFile| < Npos && meshType != "restart"
    ensures var (steps, outcome) := ConstructorSteps(meshType, meshFile, checkpoint, collectorsEqual, generated);
      && |steps| >= 1
      && steps[0] == (if meshType == "file" then FillFromDatabase else FillDefaults)
      && (outcome == Pass <==> Repartition in steps)
      && (outcome == Pass ==> steps[|steps| - 1] == Repartition)
  {
  }

  /**
   * The constructor throws exactly when a file mesh has an extension other
   * than ucd and inp, or a generated mesh has collectors of different
   * thicknesses, or mesh_generator fails; the message says which.
   */
  lemma ConstructorFailures(meshType: string, meshFile: string, checkpoint: bool,
                            collectorsEqual: bool, generated: Outcome)
    requires |meshFile| < Npos
    ensures var outcome := ConstructorSteps(meshType, meshFile, checkpoint, collectorsEqual, generated).1;
      && (outcome.Fail? <==>
            || (meshType == "file" && FileExtension(meshFile) != "ucd" && FileExtension(meshFile) != "inp")
            || (meshType != "restart" && meshType != "file" && (!collectorsEqual || generated.Fail?)))
      && (outcome.Fail? && meshType == "file" ==>
            outcome.message == "Bad mesh file extension ." + FileExtension(meshFile) + " in mesh file " + meshFile)
      && (meshType != "restart" && meshType != "file" && !collectorsEqual ==> outcome == Fail(ThicknessMismatch))
      && (meshType != "restart" && meshType != "file" && collectorsEqual ==> outcome == generated)
  {
  }

  /**
   * The mesh is generated exactly for the types other than restart and file
   * whose collectors have one thickness; the supercapacitor defaults are put
   * only then, and only for supercapacitor.
   */
  lemma GenerateIffConverted(meshType: string, meshFile: string, checkpoint: bool,
                             collectorsEqual: bool, generated: Outcome)
    requires |meshFile| < Npos
    ensures var steps := ConstructorSteps(meshType, meshFile, checkpoint, collectorsEqual, generated).0;
      && (GenerateMesh in steps <==> meshType != "restart" && meshType != "file" && collectorsEqual)
      && (SupercapacitorDefaults in steps <==> meshType == "supercapacitor" && collectorsEqual)
      && (ConvertDatabase in steps <==> meshType != "restart" && meshType != "file")
  {
  }

  /**
   * The coarse mesh is written exactly when checkpointing is on and a mesh was
   * built without failure: a file mesh with a known extension, or a generated
   * mesh whose set_boundary_ids passed; it is written before the repartition.
   */
  lemma CheckpointAfterBuild(meshType: string, meshFile: string, checkpoint: bool,
                             collectorsEqual: bool, generated: Outcome)
    requires |meshFile| < Npos
    ensures var (steps, outcome) := ConstructorSteps(meshType, meshFile, checkpoint, collectorsEqual, generated);
      && (OutputCoarseMesh in steps <==> checkpoint && meshType != "restart" && outcome == Pass)
      && (OutputCoarseMesh in steps ==> |steps| >= 2 && steps[|steps| - 2] == OutputCoarseMesh)
  {
  }

  const CmToM: real := 0.01
  const Cm2ToM2: real := 0.0001
  const ThicknessMismatch: string := "Both collectors must have the same thickness."

  /** The geometry keys convert_geometry_database reads. */
  predicate HasGeometryKeys(reals: map<string, real>) {
    && "anode_collector_thickness" in reals && "cathode_collector_thickness" in reals
    && "anode_electrode_thickness" in reals && "separator_thickness" in reals
    && "cathode_electrode_thickness" in reals && "tab_height" in reals && "geometric_area" in reals
  }

  /**
   * The "dimensions" lists convert_geometry_database writes, in metres: each
   * layer's thickness, then the electrode height (the area in 2D, its square
   * root on both remaining axes in 3D); the collector is taller by the tab.
   */
  function ConvertedDimensions(reals: map<string, real>, dim: nat, sqrtArea: real): (d: map<string, seq<real>>)
    requires HasGeometryKeys(reals)
    ensures d.Keys == {"collector", "anode", "separator", "cathode"}
    ensures |d["collector"]| >= 1 && d["collector"][0] * 100.0 == reals["anode_collector_thickness"]
  {
    var collector := reals["anode_collector_thickness"] * CmToM;
    var anode := reals["anode_electrode_thickness"] * CmToM;
    var separator := reals["separator_thickness"] * CmToM;
    var cathode := reals["cathode_electrode_thickness"] * CmToM;
    var tab := reals["tab_height"] * CmToM;
    var area := reals["geometric_area"] * Cm2ToM2;
    if dim == 2 then
      map["collector" := [collector, area + tab], "anode" := [anode, area],
          "separator" := [separator, area], "cathode" := [cathode, area]]
    else
      map["collector" := [collector, sqrtArea, sqrtArea + tab], "anode" := [anode, sqrtArea, sqrtArea],
          "separator" := [separator, sqrtArea, sqrtArea], "cathode" := [cathode, sqrtArea, sqrtArea]]
  }

  /**
   * After the conversion every layer has dim entries, its thickness in metres
   * first; the three inner layers share the electrode height and the collector
   * is taller than them by exactly the tab height in metres.
   */
  lemma ConvertedHeights(reals: map<string, real>, dim: nat, sqrtArea: real)
    requires HasGeometryKeys(reals) && (dim == 2 || dim == 3)
    ensures var d := ConvertedDimensions(reals, dim, sqrtArea);
      && d.Keys == {"collector", "anode", "separator", "cathode"}
      && (forall k :: k in d ==> |d[k]| == dim)
      && d["collector"][0] == reals["anode_collector_thickness"] / 100.0
      && d["anode"][0] == reals["anode_electrode_thickness"] / 100.0
      && d["separator"][0] == reals["separator_thickness"] / 100.0
      && d["cathode"][0] == reals["cathode_electrode_thickness"] / 100.0
      && d["anode"][dim - 1] == d["separator"][dim - 1] == d["cathode"][dim - 1]
      && d["collector"][dim - 1] - d["anode"][dim - 1] == reals["tab_height"] / 100.0
      && (dim == 2 ==> d["anode"][1] == reals["geometric_area"] / 10000.0)
  {
  }

  /** The supercapacitor's default "divisions" for collector, anode, separator and cathode. */
  function SupercapacitorDivisions(dim: nat): map<string, seq<nat>> {
    if dim == 2 then
      map["collector" := [1, 6], "anode" := [10, 5], "separator" := [5, 5], "cathode" := [10, 5]]
    else
      map["collector" := [3, 3, 3], "anode" := [5, 5, 2], "separator" := [4, 4, 2], "cathode" := [5, 5, 2]]
  }

  /**
   * The default divisions give every layer dim entries, at least one
   * division on every axis, and the collector at least two layers on the
   * vertical axis, which the collector alignment needs; the collector's
   * vertical layers less one match every inner layer's, so the aligned
   * collector nodes meet the electrode nodes one to one.
   */
  lemma SupercapacitorDivisionsFit(dim: nat)
    requires dim == 2 || dim == 3
    ensures var d := SupercapacitorDivisions(dim);
      && d.Keys == {"collector", "anode", "separator", "cathode"}
      && (forall k :: k in d ==> |d[k]| == dim && forall a :: 0 <= a < dim ==> d[k][a] >= 1)
      && d["collector"][dim - 1] >= 2
      && d["collector"][dim - 1] - 1 == d["anode"][dim - 1] == d["separator"][dim - 1] == d["cathode"][dim - 1]
  {
  }

  /** The part of the property tree the constructor reads and writes, with lists already parsed. */
  class Database {
    var reals: map<string, real>
    var ints: map<string, int>
    var divisions: map<string, seq<nat>>
    var dimensions: map<string, seq<real>>

    constructor (reals: map<string, real>, ints: map<string, int>)
      ensures this.reals == reals && this.ints == ints && divisions == map[] && dimensions == map[]
    {
      this.reals := reals;
      this.ints := ints;
      divisions := map[];
      dimensions := map[];
    }

    /**
     * convert_geometry_database: the collectors' thicknesses must agree;
     * then every layer's "dimensions" is put in metres. sqrtArea stands for
     * std::sqrt of the converted area, used in 3D.
     */
    method ConvertGeometryDatabase(dim: nat, sqrtArea: real) returns (r: Outcome)
      requires HasGeometryKeys(reals)
      modifies this
      ensures reals == old(reals) && ints == old(ints) && divisions == old(divisions)
      ensures old(reals)["anode_collector_thickness"] != old(reals)["cathode_collector_thickness"]
              ==> r == Fail(ThicknessMismatch) && dimensions == old(dimensions)
      ensures old(reals)["anode_collector_thickness"] == old(reals)["cathode_collector_thickness"]
              ==> r == Pass && dimensions == old(dimensions) + ConvertedDimensions(old(reals), dim, sqrtArea)
    {
      var collectorThickness := reals["anode_collector_thickness"] * CmToM;
      if collectorThickness != reals["cathode_collector_thickness"] * CmToM {
        return Fail(ThicknessMismatch);
      }
      dimensions := dimensions + ConvertedDimensions(reals, dim, sqrtArea);
      return Pass;
    }

    /**
     * The supercapacitor defaults: the default divisions, no repetition of
     * the cell pair, and one refinement plus any configured extra.
     */
    method PutSupercapacitorDefaults(dim: nat)
      modifies this
      ensures reals == old(reals) && dimensions == old(dimensions)
      ensures divisions == old(divisions) + SupercapacitorDivisions(dim)
      ensures ints == old(ints)["n_repetitions" := 0]
                               ["n_refinements" := 1 + if "n_refinements" in old(ints) then old(ints)["n_refinements"] else 0]
    {
      divisions := divisions + SupercapacitorDivisions(dim);
      ints := ints["n_repetitions" := 0];
      var nRefinements := 1;
      if "n_refinements" in ints {
        nRefinements := nRefinements + ints["n_refinements"];
      }
      ints := ints["n_refinements" := nRefinements];
    }
  }
}

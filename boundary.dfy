/**
 * Recovering the terminal boundary ids after the merge (the two passes of
 * Geometry::set_boundary_ids) and the reduction of the per-rank flags.
 */
module Boundary {
  import opened Wrappers
  import opened Mesh
  import opened Catalog
  import opened Components

  /** The relative tolerance eps of set_boundary_ids. */
  const Tolerance: real := 0.000001

  /** Face f of c lies on the plane `target` of the last axis, within eps times the cell's measure. */
  predicate Hit(c: Cell, f: nat, target: real) {
    1 <= |c.lo| && |c.lo| == |c.hi| && Abs(FaceCentreLast(c, f) - target) < Tolerance * Measure(c)
  }

  /** The filtered iterator: cells of one of the materials that touch the boundary. */
  predicate Filtered(cells: seq<Cell>, i: nat, materials: set<nat>)
    requires i < |cells|
  {
    cells[i].material in materials && AtBoundary(cells, i)
  }

  /** The cell with every face on the plane given boundary id `id`. */
  function TagCell(c: Cell, target: real, id: nat): Cell {
    c.(faceIds := seq(|c.faceIds|, f requires 0 <= f < |c.faceIds| => if Hit(c, f, target) then id else c.faceIds[f]))
  }

  /** One pass of set_boundary_ids over the whole mesh. */
  function TagMesh(cells: seq<Cell>, materials: set<nat>, target: real, id: nat): (r: seq<Cell>)
    ensures |r| == |cells|
    ensures forall i :: 0 <= i < |r| ==> r[i].material == cells[i].material && r[i].lo == cells[i].lo
                                         && r[i].hi == cells[i].hi && |r[i].faceIds| == |cells[i].faceIds|
  {
    seq(|cells|, i requires 0 <= i < |cells| =>
      if Filtered(cells, i, materials) then TagCell(cells[i], target, id) else cells[i])
  }

  /** Some face of a filtered cell among the first n lies on the plane. */
  predicate FoundBefore(cells: seq<Cell>, materials: set<nat>, target: real, n: nat) {
    exists j, f :: 0 <= j < n && j < |cells| && 0 <= f < |cells[j].faceIds|
                   && Filtered(cells, j, materials) && Hit(cells[j], f, target)
  }

  /** Some face of a filtered cell lies on the plane: the pass sets its local flag. */
  predicate Found(cells: seq<Cell>, materials: set<nat>, target: real) {
    FoundBefore(cells, materials, target, |cells|)
  }

  /** Cell c with the faces before f already tagged. */
  function PartlyTagged(c: Cell, target: real, id: nat, n: nat): Cell {
    c.(faceIds := seq(|c.faceIds|, f requires 0 <= f < |c.faceIds| => if f < n && Hit(c, f, target) then id else c.faceIds[f]))
  }

  /** Some face of c lies on the plane. */
  predicate AnyHit(c: Cell, target: real) {
    exists g :: 0 <= g < |c.faceIds| && Hit(c, g, target)
  }

  /**
   * The inner loop of set_boundary_ids over the faces of one cell: every face
   * whose centre lies on the plane gets `id`; `hit` says whether one did.
   */
  method TagFaces(c: Cell, target: real, id: nat, dim: nat) returns (r: Cell, hit: bool)
    requires dim >= 1 && WellFormedCell(c, dim)
    ensures r == TagCell(c, target, id)
    ensures hit <==> AnyHit(c, target)
  {
    r := c;
    hit := false;
    var f := 0;
    while f < FacesPerCell(dim)
      invariant 0 <= f <= FacesPerCell(dim) == |c.faceIds|
      invariant r == PartlyTagged(c, target, id, f)
      invariant hit <==> exists g :: 0 <= g < f && Hit(c, g, target)
    {
      var onPlane := Abs(FaceCentreLast(c, f) - target) < Tolerance * Measure(c);
      assert onPlane == Hit(c, f, target);
      if onPlane {
        r := r.(faceIds := r.faceIds[f := id]);
        hit := true;
      }
      f := f + 1;
    }
  }

  /** Cell n is filtered and has a face on the plane. */
  lemma FoundBeforeStep(cells: seq<Cell>, materials: set<nat>, target: real, n: nat)
    requires n < |cells|
    ensures FoundBefore(cells, materials, target, n + 1)
        <==> FoundBefore(cells, materials, target, n) || (Filtered(cells, n, materials) && AnyHit(cells[n], target))
  {
    if FoundBefore(cells, materials, target, n + 1) && !FoundBefore(cells, materials, target, n) {
      var j, f :| 0 <= j < n + 1 && j < |cells| && 0 <= f < |cells[j].faceIds|
                  && Filtered(cells, j, materials) && Hit(cells[j], f, target);
      assert j == n;
    }
    if Filtered(cells, n, materials) && AnyHit(cells[n], target) {
      var f :| 0 <= f < |cells[n].faceIds| && Hit(cells[n], f, target);
      assert FoundBefore(cells, materials, target, n + 1);
    }
  }

  /**
   * One pass of set_boundary_ids: every face of a filtered cell whose centre
   * lies on the plane gets `id`; the result is the local flag. The pass
   * changes face ids only, so the filter and the geometry are read from the
   * cells as they were before it.
   */
  method TagTerminal(t: Triangulation, materials: set<nat>, target: real, id: nat, dim: nat) returns (flag: nat)
    requires dim >= 1 && WellFormed(t.cells, dim)
    modifies t
    ensures t.cells == TagMesh(old(t.cells), materials, target, id)
    ensures flag == if Found(old(t.cells), materials, target) then 1 else 0
  {
    var cells := t.cells;
    ghost var tagged := TagMesh(cells, materials, target, id);
    flag := 0;
    var i := 0;
    while i < |cells|
      invariant 0 <= i <= |cells| && |t.cells| == |cells|
      invariant forall j :: 0 <= j < i ==> t.cells[j] == tagged[j]
      invariant forall j :: i <= j < |cells| ==> t.cells[j] == cells[j]
      invariant flag == if FoundBefore(cells, materials, target, i) then 1 else 0
    {
      FoundBeforeStep(cells, materials, target, i);
      if cells[i].material in materials && AtBoundary(cells, i) {
        var c, hit := TagFaces(cells[i], target, id, dim);
        t.cells := t.cells[i := c];
        if hit {
          flag := 1;
        }
      }
      i := i + 1;
    }
  }

  /** Utilities::MPI::max over the local flag and the flags of the other ranks. */
  function ReduceMax(local: nat, others: seq<nat>): (m: nat)
    ensures m >= local && forall k :: 0 <= k < |others| ==> m >= others[k]
    ensures m == local || exists k :: 0 <= k < |others| && m == others[k]
  {
    if |others| == 0 then local
    else
      var rest := ReduceMax(local, others[..|others| - 1]);
      if others[|others| - 1] > rest then others[|others| - 1] else rest
  }

  /** For 0/1 flags the reduced flag is 1 exactly when some rank set its flag. */
  lemma ReduceMaxOfFlags(local: nat, others: seq<nat>)
    requires local <= 1 && forall k :: 0 <= k < |others| ==> others[k] <= 1
    ensures ReduceMax(local, others) == 1 <==> local == 1 || exists k :: 0 <= k < |others| && others[k] == 1
  {
  }

  /** Two meshes with the same cell boxes and face counts. */
  predicate SameGeometry(a: seq<Cell>, b: seq<Cell>) {
    |a| == |b| && forall i :: 0 <= i < |a| ==> a[i].lo == b[i].lo && a[i].hi == b[i].hi && |a[i].faceIds| == |b[i].faceIds|
  }

  /** at_boundary depends on the geometry only, not on the boundary ids. */
  lemma AtBoundarySameGeometry(a: seq<Cell>, b: seq<Cell>, i: nat)
    requires SameGeometry(a, b) && i < |a|
    ensures AtBoundary(a, i) <==> AtBoundary(b, i)
  {
    forall f | 0 <= f < |a[i].faceIds|
      ensures FaceShared(a, i, f) <==> FaceShared(b, i, f)
    {
      if FaceShared(a, i, f) {
        var j, g :| 0 <= j < |a| && j != i && 0 <= g < |a[j].faceIds| && FacesCoincide(a[i], f, a[j], g);
        assert FacesCoincide(b[i], f, b[j], g);
      }
      if FaceShared(b, i, f) {
        var j, g :| 0 <= j < |b| && j != i && 0 <= g < |b[j].faceIds| && FacesCoincide(b[i], f, b[j], g);
        assert FacesCoincide(a[i], f, a[j], g);
      }
    }
    if AtBoundary(a, i) {
      var f :| 0 <= f < |a[i].faceIds| && !FaceShared(a, i, f);
      assert !FaceShared(b, i, f);
    }
    if AtBoundary(b, i) {
      var f :| 0 <= f < |b[i].faceIds| && !FaceShared(b, i, f);
      assert !FaceShared(a, i, f);
    }
  }

  /**
   * A pass changes boundary ids only: materials, vertices and the number of
   * faces of every cell stay, so the mesh stays well formed.
   */
  lemma TagMeshKeepsGeometry(cells: seq<Cell>, materials: set<nat>, target: real, id: nat, dim: nat)
    ensures var r := TagMesh(cells, materials, target, id);
      SameGeometry(cells, r) && (forall i :: 0 <= i < |r| ==> r[i].material == cells[i].material)
      && (WellFormed(cells, dim) ==> WellFormed(r, dim))
  {
  }

  /**
   * What one pass does to face f of cell i: it carries `id` when the cell is
   * filtered and the face lies on the plane, and keeps its id otherwise.
   */
  lemma TagMeshFace(cells: seq<Cell>, materials: set<nat>, target: real, id: nat, i: nat, f: nat)
    requires i < |cells| && f < |cells[i].faceIds|
    ensures |TagMesh(cells, materials, target, id)[i].faceIds| == |cells[i].faceIds|
    ensures TagMesh(cells, materials, target, id)[i].faceIds[f]
         == if Filtered(cells, i, materials) && Hit(cells[i], f, target) then id else cells[i].faceIds[f]
  {
  }

  /** A pass run twice tags nothing more than once. */
  lemma TagMeshIdempotent(cells: seq<Cell>, materials: set<nat>, target: real, id: nat)
    ensures TagMesh(TagMesh(cells, materials, target, id), materials, target, id) == TagMesh(cells, materials, target, id)
  {
    var once := TagMesh(cells, materials, target, id);
    TagMeshKeepsGeometry(cells, materials, target, id, 0);
    forall i | 0 <= i < |once|
      ensures TagMesh(once, materials, target, id)[i] == once[i]
    {
      AtBoundarySameGeometry(cells, once, i);
    }
  }

  /** Face f of cell i is on neither terminal plane of its collector. */
  predicate Untouched(cells: seq<Cell>, anodeMaterials: set<nat>, cathodeMaterials: set<nat>,
                      top: real, bottom: real, i: nat, f: nat)
    requires i < |cells|
  {
    !(Filtered(cells, i, anodeMaterials) && Hit(cells[i], f, top))
    && !(Filtered(cells, i, cathodeMaterials) && Hit(cells[i], f, bottom))
  }

  /**
   * The anode pass followed by the cathode pass, over disjoint material sets:
   * every top face of a filtered collector_anode cell ends with the anode id and
   * every bottom face of a filtered collector_cathode cell with the cathode id.
   */
  lemma BothTerminalsTagged(cells: seq<Cell>, anodeMaterials: set<nat>, cathodeMaterials: set<nat>,
                            top: real, bottom: real, anodeId: nat, cathodeId: nat, i: nat, f: nat)
    requires anodeMaterials !! cathodeMaterials
    requires i < |cells| && f < |cells[i].faceIds|
    ensures var r := TagMesh(TagMesh(cells, anodeMaterials, top, anodeId), cathodeMaterials, bottom, cathodeId);
      && (Filtered(cells, i, anodeMaterials) && Hit(cells[i], f, top) ==> r[i].faceIds[f] == anodeId)
      && (Filtered(cells, i, cathodeMaterials) && Hit(cells[i], f, bottom) ==> r[i].faceIds[f] == cathodeId)
      && (Untouched(cells, anodeMaterials, cathodeMaterials, top, bottom, i, f) ==> r[i].faceIds[f] == cells[i].faceIds[f])
  {
    var a := TagMesh(cells, anodeMaterials, top, anodeId);
    TagMeshKeepsGeometry(cells, anodeMaterials, top, anodeId, 0);
    AtBoundarySameGeometry(cells, a, i);
    TagMeshFace(cells, anodeMaterials, top, anodeId, i, f);
    TagMeshFace(a, cathodeMaterials, bottom, cathodeId, i, f);
  }

  const AnodeNotSet: string := "Anode boundary id no set."
  const CathodeNotSet: string := "Cathode boundary id no set."

  /**
   * The assertion message of get_boundary_id, for the terminal name it is
   * called with; the two adjacent literals of the message join without a space.
   */
  function SizeMessage(name: string): string {
    name + " boundary id must havea size of one."
  }

  /** The local flag of one pass. */
  function LocalFlag(cells: seq<Cell>, materials: set<nat>, target: real): nat {
    if Found(cells, materials, target) then 1 else 0
  }

  /**
   * set_boundary_ids: the anode pass over collector_anode cells at the top of
   * the collector, then the cathode pass over collector_cathode cells at its
   * bottom. Each pass first needs its terminal name to carry exactly one id,
   * and after it some rank must have set a face. A failed assertion stops the
   * procedure, leaving the mesh as it is at that point.
   */
  ghost function AssignTerminals(cells: seq<Cell>, materials: TagMap, boundaries: TagMap, top: real, bottom: real,
                                 anodePeers: seq<nat>, cathodePeers: seq<nat>): (r: (seq<Cell>, Outcome))
    ensures |r.0| == |cells|
    ensures r.1 == Pass ==> |Lookup(boundaries, "anode")| == 1 && |Lookup(boundaries, "cathode")| == 1
    ensures |Lookup(boundaries, "anode")| != 1 ==> r == (cells, Fail(SizeMessage("anode")))
  {
    var anodeCells := Lookup(materials, "collector_anode");
    var cathodeCells := Lookup(materials, "collector_cathode");
    var anodeIds := Lookup(boundaries, "anode");
    var cathodeIds := Lookup(boundaries, "cathode");
    if |anodeIds| != 1 then (cells, Fail(SizeMessage("anode")))
    else
      var afterAnode := TagMesh(cells, anodeCells, top, Least(anodeIds));
      if ReduceMax(LocalFlag(cells, anodeCells, top), anodePeers) != 1 then (afterAnode, Fail(AnodeNotSet))
      else if |cathodeIds| != 1 then (afterAnode, Fail(SizeMessage("cathode")))
      else
        var afterCathode := TagMesh(afterAnode, cathodeCells, bottom, Least(cathodeIds));
        if ReduceMax(LocalFlag(afterAnode, cathodeCells, bottom), cathodePeers) != 1 then (afterCathode, Fail(CathodeNotSet))
        else (afterCathode, Pass)
  }

  /** The anode pass does not change which faces the cathode pass finds. */
  lemma FoundSameGeometry(a: seq<Cell>, b: seq<Cell>, materials: set<nat>, target: real)
    requires SameGeometry(a, b) && forall i :: 0 <= i < |a| ==> a[i].material == b[i].material
    ensures Found(a, materials, target) <==> Found(b, materials, target)
  {
    if Found(a, materials, target) {
      var j, f :| 0 <= j < |a| && 0 <= f < |a[j].faceIds| && Filtered(a, j, materials) && Hit(a[j], f, target);
      AtBoundarySameGeometry(a, b, j);
      assert Filtered(b, j, materials) && Hit(b[j], f, target);
    }
    if Found(b, materials, target) {
      var j, f :| 0 <= j < |b| && 0 <= f < |b[j].faceIds| && Filtered(b, j, materials) && Hit(b[j], f, target);
      AtBoundarySameGeometry(a, b, j);
      assert Filtered(a, j, materials) && Hit(a[j], f, target);
    }
  }

  /**
   * When set_boundary_ids succeeds and the two collector classes are
   * disjoint, every terminal face carries its terminal's id and every other
   * face keeps its id; materials and geometry are unchanged.
   */
  lemma AssignTerminalsPass(cells: seq<Cell>, materials: TagMap, boundaries: TagMap, top: real, bottom: real,
                            anodePeers: seq<nat>, cathodePeers: seq<nat>, i: nat, f: nat)
    requires AssignTerminals(cells, materials, boundaries, top, bottom, anodePeers, cathodePeers).1 == Pass
    requires Lookup(materials, "collector_anode") !! Lookup(materials, "collector_cathode")
    requires i < |cells| && f < |cells[i].faceIds|
    ensures var r := AssignTerminals(cells, materials, boundaries, top, bottom, anodePeers, cathodePeers).0;
      var anodeCells := Lookup(materials, "collector_anode");
      var cathodeCells := Lookup(materials, "collector_cathode");
      && |Lookup(boundaries, "anode")| == 1 && |Lookup(boundaries, "cathode")| == 1
      && SameGeometry(cells, r) && r[i].material == cells[i].material
      && (Filtered(cells, i, anodeCells) && Hit(cells[i], f, top) ==> r[i].faceIds[f] == Least(Lookup(boundaries, "anode")))
      && (Filtered(cells, i, cathodeCells) && Hit(cells[i], f, bottom) ==> r[i].faceIds[f] == Least(Lookup(boundaries, "cathode")))
      && (Untouched(cells, anodeCells, cathodeCells, top, bottom, i, f) ==> r[i].faceIds[f] == cells[i].faceIds[f])
  {
    var anodeCells := Lookup(materials, "collector_anode");
    var cathodeCells := Lookup(materials, "collector_cathode");
    var a := TagMesh(cells, anodeCells, top, Least(Lookup(boundaries, "anode")));
    TagMeshKeepsGeometry(cells, anodeCells, top, Least(Lookup(boundaries, "anode")), 0);
    TagMeshKeepsGeometry(a, cathodeCells, bottom, Least(Lookup(boundaries, "cathode")), 0);
    BothTerminalsTagged(cells, anodeCells, cathodeCells, top, bottom,
                        Least(Lookup(boundaries, "anode")), Least(Lookup(boundaries, "cathode")), i, f);
  }

  /**
   * On a single rank with the default boundary catalog, set_boundary_ids
   * succeeds exactly when both passes find a terminal face.
   */
  lemma SingleRankDefaultCatalog(cells: seq<Cell>, materials: TagMap, top: real, bottom: real)
    ensures AssignTerminals(cells, materials, DefaultBoundaries(), top, bottom, [], []).1 == Pass
        <==> Found(cells, Lookup(materials, "collector_anode"), top) && Found(cells, Lookup(materials, "collector_cathode"), bottom)
  {
    var anodeCells := Lookup(materials, "collector_anode");
    var a := TagMesh(cells, anodeCells, top, Least(Lookup(DefaultBoundaries(), "anode")));
    TagMeshKeepsGeometry(cells, anodeCells, top, Least(Lookup(DefaultBoundaries(), "anode")), 0);
    FoundSameGeometry(cells, a, Lookup(materials, "collector_cathode"), bottom);
  }

  /**
   * On any number of ranks whose flags are 0 or 1, set_boundary_ids succeeds
   * exactly when each terminal name carries one id and, for each terminal,
   * this rank finds a face on its plane or some other rank set its flag.
   */
  lemma AssignTerminalsOutcome(cells: seq<Cell>, materials: TagMap, boundaries: TagMap, top: real, bottom: real,
                               anodePeers: seq<nat>, cathodePeers: seq<nat>)
    requires forall k :: 0 <= k < |anodePeers| ==> anodePeers[k] <= 1
    requires forall k :: 0 <= k < |cathodePeers| ==> cathodePeers[k] <= 1
    ensures AssignTerminals(cells, materials, boundaries, top, bottom, anodePeers, cathodePeers).1 == Pass
        <==> && |Lookup(boundaries, "anode")| == 1 && |Lookup(boundaries, "cathode")| == 1
             && (Found(cells, Lookup(materials, "collector_anode"), top) || 1 in anodePeers)
             && (Found(cells, Lookup(materials, "collector_cathode"), bottom) || 1 in cathodePeers)
  {
    var anodeCells := Lookup(materials, "collector_anode");
    var cathodeCells := Lookup(materials, "collector_cathode");
    ReduceMaxOfFlags(LocalFlag(cells, anodeCells, top), anodePeers);
    if |Lookup(boundaries, "anode")| == 1 {
      var a := TagMesh(cells, anodeCells, top, Least(Lookup(boundaries, "anode")));
      TagMeshKeepsGeometry(cells, anodeCells, top, Least(Lookup(boundaries, "anode")), 0);
      FoundSameGeometry(cells, a, cathodeCells, bottom);
      ReduceMaxOfFlags(LocalFlag(a, cathodeCells, bottom), cathodePeers);
    }
  }
}

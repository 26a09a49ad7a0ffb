/**
 * The partition weights: the four configured weights of Geometry::repartition
 * and the per-cell lookup compute_cell_weight.
 */
module Weights {
  import opened Wrappers
  import opened Catalog

  /** dealii::numbers::invalid_unsigned_int, the largest 32-bit unsigned value. */
  const InvalidUnsignedInt: nat := 0xFFFF_FFFF
  const UintModulus: int := 0x1_0000_0000

  /** The WEIGHT_TYPE order, which is also the order of the lookup. */
  const ClassNames: seq<string> := ["anode", "cathode", "separator", "collector"]

  /**
   * database->get(key, 0) stored into an unsigned int: a missing key reads 0
   * and the int value is converted modulo 2^32.
   */
  function ReadWeight(config: map<string, int>, key: string): (w: nat)
    ensures w < UintModulus
    ensures key !in config ==> w == 0
    ensures key in config && 0 <= config[key] < UintModulus ==> w == config[key]
    ensures key in config && -UintModulus <= config[key] < 0 ==> w == config[key] + UintModulus
  {
    if key in config then config[key] % UintModulus else 0
  }

  /** The weights array of Geometry::repartition, indexed by WEIGHT_TYPE. */
  function ReadWeights(config: map<string, int>): (w: seq<nat>)
    ensures |w| == |ClassNames|
    ensures forall c :: 0 <= c < |w| ==> w[c] == ReadWeight(config, ClassNames[c] + ".weight")
  {
    assert ClassNames[0] + ".weight" == "anode.weight";
    assert ClassNames[1] + ".weight" == "cathode.weight";
    assert ClassNames[2] + ".weight" == "separator.weight";
    assert ClassNames[3] + ".weight" == "collector.weight";
    [ReadWeight(config, "anode.weight"), ReadWeight(config, "cathode.weight"),
     ReadWeight(config, "separator.weight"), ReadWeight(config, "collector.weight")]
  }

  /** A configured weight of -1 is indistinguishable from the sentinel. */
  lemma MinusOneIsSentinel(config: map<string, int>, key: string)
    requires key in config && config[key] == -1
    ensures ReadWeight(config, key) == InvalidUnsignedInt
  {
  }

  /**
   * compute_cell_weight: the weight of the first class among anode, cathode,
   * separator and collector whose id set holds the material; the sentinel when
   * none does. A class missing from the catalog has no ids.
   */
  function ComputeCellWeight(materials: TagMap, material: nat, weights: seq<nat>): (r: nat)
    requires |weights| == |ClassNames|
    ensures r in weights || r == InvalidUnsignedInt
    ensures material in Lookup(materials, "anode") ==> r == weights[0]
    ensures material !in Lookup(materials, "anode") && material !in Lookup(materials, "cathode")
            && material !in Lookup(materials, "separator") && material !in Lookup(materials, "collector")
            ==> r == InvalidUnsignedInt
  {
    if material in Lookup(materials, "anode") then weights[0]
    else if material in Lookup(materials, "cathode") then weights[1]
    else if material in Lookup(materials, "separator") then weights[2]
    else if material in Lookup(materials, "collector") then weights[3]
    else InvalidUnsignedInt
  }

  /** Reference definition of the lookup: the first class, from index i on, that holds the material. */
  function FirstClass(materials: TagMap, material: nat, i: nat): Option<nat>
    decreases |ClassNames| - i
  {
    if i >= |ClassNames| then None
    else if material in Lookup(materials, ClassNames[i]) then Some(i)
    else FirstClass(materials, material, i + 1)
  }

  /** FirstClass finds the least class index holding the material, and None means no class holds it. */
  lemma {:induction false} FirstClassIsFirst(materials: TagMap, material: nat, i: nat)
    requires i <= |ClassNames|
    ensures match FirstClass(materials, material, i)
      case Some(c) => i <= c < |ClassNames| && material in Lookup(materials, ClassNames[c])
                      && forall j :: i <= j < c ==> material !in Lookup(materials, ClassNames[j])
      case None => forall j :: i <= j < |ClassNames| ==> material !in Lookup(materials, ClassNames[j])
    decreases |ClassNames| - i
  {
    if i < |ClassNames| && material !in Lookup(materials, ClassNames[i]) {
      FirstClassIsFirst(materials, material, i + 1);
    }
  }

  /** compute_cell_weight returns the weight of the first matching class, or the sentinel. */
  lemma {:induction false} CellWeightIsFirstMatch(materials: TagMap, material: nat, weights: seq<nat>)
    requires |weights| == |ClassNames|
    ensures ComputeCellWeight(materials, material, weights)
         == match FirstClass(materials, material, 0)
            case Some(c) => weights[c]
            case None => InvalidUnsignedInt
  {
    FirstClassIsFirst(materials, material, 0);
    assert FirstClass(materials, material, 0) == FirstClass(materials, material, 1) || material in Lookup(materials, "anode");
    assert FirstClass(materials, material, 3) == if material in Lookup(materials, "collector") then Some(3) else None;
  }

  /**
   * The sentinel is returned exactly when no class holds the material, as long
   * as no configured weight itself equals the sentinel.
   */
  lemma SentinelIffUnmatched(materials: TagMap, material: nat, weights: seq<nat>)
    requires |weights| == |ClassNames| && forall c :: 0 <= c < |weights| ==> weights[c] != InvalidUnsignedInt
    ensures ComputeCellWeight(materials, material, weights) == InvalidUnsignedInt
        <==> forall c :: 0 <= c < |ClassNames| ==> material !in Lookup(materials, ClassNames[c])
  {
    CellWeightIsFirstMatch(materials, material, weights);
    FirstClassIsFirst(materials, material, 0);
  }

  /**
   * With the default catalog: ids 0, 2 and 1 weigh as anode, cathode and
   * separator, both collector ids weigh as collector, any other id is the sentinel.
   */
  lemma DefaultCatalogWeights(material: nat, weights: seq<nat>)
    requires |weights| == |ClassNames|
    ensures ComputeCellWeight(DefaultMaterials(), material, weights)
         == if material == 0 then weights[0]
            else if material == 2 then weights[1]
            else if material == 1 then weights[2]
            else if material == 3 || material == 4 then weights[3]
            else InvalidUnsignedInt
  {
  }
}

/**
 * The layer catalog: symbolic material and boundary names mapped to sets of
 * integer tags, as the two unordered_maps `_materials` and `_boundaries` hold them.
 */
module Catalog {

  type TagMap = map<string, set<nat>>

  /** One configured entry: a name and its list of ids. */
  datatype Entry = Entry(name: string, ids: seq<nat>)

  /** The set stored under name; a missing name reads as the empty set. */
  function Lookup(m: TagMap, name: string): (r: set<nat>)
    ensures r != {} ==> name in m && r == m[name]
  {
    if name in m then m[name] else {}
  }

  /**
   * unordered_map::operator[]: returns the stored set, inserting an empty one
   * first when the name is missing.
   */
  function Subscript(m: TagMap, name: string): (r: (TagMap, set<nat>)) {
    if name in m then (m, m[name]) else (m[name := {}], {})
  }

  /** The insertion done by operator[] changes no lookup, so reading through Lookup is exact. */
  lemma SubscriptIsLookup(m: TagMap, name: string, other: string)
    ensures Subscript(m, name).1 == Lookup(m, name)
    ensures name in Subscript(m, name).0
    ensures Lookup(Subscript(m, name).0, other) == Lookup(m, other)
  {
  }

  /** Every non-empty id set has a least element. */
  lemma {:induction false} LeastElement(s: set<nat>) returns (m: nat)
    requires s != {}
    ensures m in s && forall y :: y in s ==> m <= y
  {
    var x :| x in s;
    if s == {x} {
      m := x;
    } else {
      var r := LeastElement(s - {x});
      m := if x < r then x else r;
      forall y | y in s
        ensures m <= y
      {
        if y != x {
          assert y in s - {x};
        }
      }
    }
  }

  lemma LeastExists(s: set<nat>)
    requires s != {}
    ensures exists m :: m in s && forall y :: y in s ==> m <= y
  {
    var m := LeastElement(s);
  }

  /** *s.begin(): the first element of an ordered std::set, its least element. */
  ghost function Least(s: set<nat>): (m: nat)
    requires s != {}
    ensures m in s && forall y :: y in s ==> m <= y
  {
    LeastExists(s);
    var m :| m in s && forall y :: y in s ==> m <= y; m
  }

  /** The ids of an entry as a std::set. */
  function IdSet(ids: seq<nat>): set<nat> {
    set x | x in ids
  }

  /** unordered_map::emplace: inserts only when the name is not yet present. */
  function Emplace(m: TagMap, e: Entry): (r: TagMap)
    ensures r.Keys == m.Keys + {e.name}
    ensures forall n :: n in m ==> r[n] == m[n]
    ensures e.name !in m ==> r[e.name] == IdSet(e.ids)
  {
    if e.name in m then m else m[e.name := IdSet(e.ids)]
  }

  /** The map after emplacing the entries in order. */
  function EmplaceAll(m: TagMap, es: seq<Entry>): (r: TagMap)
    ensures m.Keys <= r.Keys && forall n :: n in m ==> r[n] == m[n]
    ensures forall k :: 0 <= k < |es| ==> es[k].name in r
    decreases |es|
  {
    if es == [] then m else EmplaceAll(Emplace(m, es[0]), es[1..])
  }

  /** Emplacing one more entry at the end, as a loop does. */
  lemma {:induction false} EmplaceAllSnoc(m: TagMap, es: seq<Entry>, e: Entry)
    ensures EmplaceAll(m, es + [e]) == Emplace(EmplaceAll(m, es), e)
    decreases |es|
  {
    if es == [] {
      assert es + [e] == [e];
    } else {
      assert (es + [e])[1..] == es[1..] + [e];
      EmplaceAllSnoc(Emplace(m, es[0]), es[1..], e);
    }
  }

  /** The names of the result are the old names and the entries' names. */
  lemma {:induction false} EmplaceAllKeys(m: TagMap, es: seq<Entry>, name: string)
    ensures name in EmplaceAll(m, es) <==> name in m || exists k :: 0 <= k < |es| && es[k].name == name
    decreases |es|
  {
    if es != [] {
      EmplaceAllKeys(Emplace(m, es[0]), es[1..], name);
      if name in EmplaceAll(m, es) && name !in m && name != es[0].name {
        var k :| 0 <= k < |es[1..]| && es[1..][k].name == name;
        assert es[k + 1].name == name;
      }
      if exists k :: 0 <= k < |es| && es[k].name == name {
        var k :| 0 <= k < |es| && es[k].name == name;
        if k > 0 { assert es[1..][k - 1].name == name; }
      }
    }
  }

  /** A name already present keeps its set. */
  lemma {:induction false} EmplaceAllKeepsExisting(m: TagMap, es: seq<Entry>, name: string)
    requires name in m
    ensures name in EmplaceAll(m, es) && EmplaceAll(m, es)[name] == m[name]
    decreases |es|
  {
    if es != [] {
      EmplaceAllKeepsExisting(Emplace(m, es[0]), es[1..], name);
    }
  }

  /** For a repeated name the first entry wins. */
  lemma {:induction false} EmplaceAllFirstWins(m: TagMap, es: seq<Entry>, k: nat)
    requires k < |es| && es[k].name !in m
    requires forall j :: 0 <= j < k ==> es[j].name != es[k].name
    ensures es[k].name in EmplaceAll(m, es)
    ensures EmplaceAll(m, es)[es[k].name] == IdSet(es[k].ids)
    decreases |es|
  {
    if k == 0 {
      EmplaceAllKeepsExisting(Emplace(m, es[0]), es[1..], es[0].name);
    } else {
      assert es[1..][k - 1] == es[k];
      EmplaceAllFirstWins(Emplace(m, es[0]), es[1..], k - 1);
    }
  }

  /**
   * The literal catalog of fill_material_and_boundary_maps(): six material
   * classes, the electrode, separator and collector classes pairwise disjoint,
   * and the collector class the union of the two collector variants.
   */
  function DefaultMaterials(): (m: TagMap)
    ensures m.Keys == {"anode", "separator", "cathode", "collector_anode", "collector_cathode", "collector"}
    ensures m["collector"] == m["collector_anode"] + m["collector_cathode"]
    ensures m["anode"] !! m["cathode"] && m["anode"] !! m["separator"] && m["cathode"] !! m["separator"]
    ensures m["collector"] !! m["anode"] + m["cathode"] + m["separator"]
    ensures forall n :: n in m ==> |m[n]| >= 1
  {
    map["anode" := {0}, "separator" := {1}, "cathode" := {2},
        "collector_anode" := {3}, "collector_cathode" := {4}, "collector" := {3, 4}]
  }

  /** The two terminal boundary names, each naming exactly one id, and distinct ids. */
  function DefaultBoundaries(): (m: TagMap)
    ensures m.Keys == {"anode", "cathode"}
    ensures |m["anode"]| == 1 && |m["cathode"]| == 1 && m["anode"] != m["cathode"]
  {
    map["anode" := {1}, "cathode" := {2}]
  }
}

/**
 * The cement catalog: five cement families keyed "CEM_I" .. "CEM_V", with
 * their subtypes and compositions. JavaScript objects keep non-numeric string
 * keys in insertion order, so every mapping of the catalog is an ordered
 * sequence here.
 */
module Catalog {
  import opened Wrappers

  /** One entry of a composition: a material (the object key) and its percentage range. */
  datatype Component = Component(material: string, range: string)

  /** A named subtype and its composition, in insertion order. */
  datatype Subtype = Subtype(name: string, composition: seq<Component>)

  /** A family record; `subtypes` is `None` where the table has `null`. */
  datatype CementFamily = CementFamily(
    name: string,
    description: string,
    clinkerContent: string,
    characteristics: string,
    applications: seq<string>,
    subtypes: Option<seq<Subtype>>)

  const CemI := CementFamily(
    "CEM I - Portland Cement",
    "Pure Portland cement with at least 95% clinker content",
    "95-100%",
    "Highest early strength development, suitable for general construction",
    ["Structural concrete", "High-strength applications", "General construction"],
    None)

  const CemII := CementFamily(
    "CEM II - Portland Composite Cement",
    "Portland cement with various additives (slag, fly ash, limestone, etc.)",
    "65-94%",
    "Good durability, reduced heat of hydration",
    ["General construction", "Marine structures", "Mass concrete"],
    Some([
      Subtype("CEM II/A-S", [Component("clinker", "80-94%"), Component("slag", "6-20%")]),
      Subtype("CEM II/B-S", [Component("clinker", "65-79%"), Component("slag", "21-35%")]),
      Subtype("CEM II/A-D", [Component("clinker", "90-94%"), Component("silica_fume", "6-10%")]),
      Subtype("CEM II/A-P", [Component("clinker", "80-94%"), Component("pozzolana", "6-20%")]),
      Subtype("CEM II/A-V", [Component("clinker", "80-94%"), Component("fly_ash_siliceous", "6-20%")]),
      Subtype("CEM II/A-L", [Component("clinker", "80-94%"), Component("limestone", "6-20%")])
    ]))

  const CemIII := CementFamily(
    "CEM III - Blast Furnace Cement",
    "Cement with significant blast furnace slag content",
    "5-64%",
    "Low heat of hydration, high sulfate resistance, slow early strength",
    ["Mass concrete", "Marine environments", "Sulfate-aggressive conditions"],
    Some([
      Subtype("CEM III/A", [Component("clinker", "35-64%"), Component("slag", "36-65%")]),
      Subtype("CEM III/B", [Component("clinker", "20-34%"), Component("slag", "66-80%")]),
      Subtype("CEM III/C", [Component("clinker", "5-19%"), Component("slag", "81-95%")])
    ]))

  const CemIV := CementFamily(
    "CEM IV - Pozzolanic Cement",
    "Cement with pozzolanic materials (natural pozzolana, fly ash)",
    "45-89%",
    "Good long-term strength, reduced permeability",
    ["Durable structures", "Chemical resistance applications"],
    Some([
      Subtype("CEM IV/A", [Component("clinker", "65-89%"), Component("pozzolanic_materials", "11-35%")]),
      Subtype("CEM IV/B", [Component("clinker", "45-64%"), Component("pozzolanic_materials", "36-55%")])
    ]))

  const CemV := CementFamily(
    "CEM V - Composite Cement",
    "Cement with combination of slag and pozzolanic materials",
    "20-64%",
    "Very low heat of hydration, excellent durability",
    ["Mass concrete", "Marine structures", "Long-term durability"],
    Some([
      Subtype("CEM V/A", [Component("clinker", "40-64%"), Component("slag", "18-30%"), Component("pozzolanic", "18-30%")]),
      Subtype("CEM V/B", [Component("clinker", "20-38%"), Component("slag", "31-49%"), Component("pozzolanic", "31-49%")])
    ]))

  /** `cementData`, in the order the object literal lists its keys. */
  function CementData(): seq<(string, CementFamily)> {
    [("CEM_I", CemI), ("CEM_II", CemII), ("CEM_III", CemIII), ("CEM_IV", CemIV), ("CEM_V", CemV)]
  }

  const FamilyKeys: set<string> := {"CEM_I", "CEM_II", "CEM_III", "CEM_IV", "CEM_V"}

  /** The value stored under `key` in an ordered table, found by a left-to-right scan. */
  function LookupIn(entries: seq<(string, CementFamily)>, key: string): (r: Option<CementFamily>)
    ensures r.None? <==> forall i :: 0 <= i < |entries| ==> entries[i].0 != key
    ensures r.Some? ==> exists i :: 0 <= i < |entries| && entries[i] == (key, r.value)
  {
    if entries == [] then None
    else if entries[0].0 == key then Some(entries[0].1)
    else
      var r := LookupIn(entries[1..], key);
      assert forall i :: 1 <= i < |entries| ==> entries[i] == entries[1..][i - 1];
      r
  }

  /** `cementData[type]`: a family for exactly the five catalog keys, nothing for any other. */
  function Lookup(key: string): (r: Option<CementFamily>)
    ensures r.Some? <==> key in FamilyKeys
  {
    var r := LookupIn(CementData(), key);
    assert key in FamilyKeys ==>
      key == CementData()[0].0 || key == CementData()[1].0 || key == CementData()[2].0
      || key == CementData()[3].0 || key == CementData()[4].0;
    r
  }

  /** A key that is found is found with its own entry of the table. */
  lemma LookupFindsEntry(key: string)
    requires Lookup(key).Some?
    ensures (key, Lookup(key).value) in CementData()
  {
  }

  /** The entries of a table have distinct keys. */
  predicate UniqueKeys(entries: seq<(string, CementFamily)>) {
    forall i, j :: 0 <= i < j < |entries| ==> entries[i].0 != entries[j].0
  }

  /**
   * The record invariants of a family: non-empty name and description; a
   * subtype mapping, when present, is non-empty and every composition has at
   * least one component.
   */
  predicate FamilyInvariant(f: CementFamily) {
    && f.name != ""
    && f.description != ""
    && (f.subtypes.Some? ==>
          && |f.subtypes.value| > 0
          && forall s :: s in f.subtypes.value ==> |s.composition| > 0)
  }

  /** The catalog has unique keys and every family satisfies the record invariants. */
  lemma CatalogInvariant()
    ensures UniqueKeys(CementData())
    ensures forall i :: 0 <= i < |CementData()| ==> FamilyInvariant(CementData()[i].1)
  {
  }

  /** The blast-furnace family: clinker range "5-64%" and subtypes III/A, III/B, III/C in that order. */
  lemma LookupCemIII()
    ensures Lookup("CEM_III").Some?
    ensures Lookup("CEM_III").value.clinkerContent == "5-64%"
    ensures Lookup("CEM_III").value.subtypes.Some?
    ensures |Lookup("CEM_III").value.subtypes.value| == 3
    ensures Lookup("CEM_III").value.subtypes.value[0].name == "CEM III/A"
    ensures Lookup("CEM_III").value.subtypes.value[1].name == "CEM III/B"
    ensures Lookup("CEM_III").value.subtypes.value[2].name == "CEM III/C"
  {
    assert CementData()[2] == ("CEM_III", CemIII);
  }

  /** Portland cement is the one family with no subtypes (`subtypes: null`). */
  lemma OnlyCemIHasNoSubtypes(key: string)
    requires key in FamilyKeys
    ensures Lookup(key).value.subtypes.None? <==> key == "CEM_I"
  {
  }
}

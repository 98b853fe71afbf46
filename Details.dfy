/**
 * The detail view that `showCementDetails` writes into the modal, as an
 * ordered list of sections instead of HTML markup: three text sections, the
 * applications list, the subtype grid when the family has subtypes, and the
 * attribution line. The two template fragments that are built from data are
 * kept as the exact strings the script produces: the `<li>` items of the
 * applications list and the "material: range, ..." text of each subtype.
 *
 * `Decode` reads a view back into a family; `RenderDecode` proves that no
 * information is lost, given the character restrictions of `Renderable`,
 * which every catalog family meets (`CatalogRenderable`).
 */
module Details {
  import opened Wrappers
  import opened Text
  import opened Catalog

  /** One `subtype-item`: its name and its comma-joined composition text. */
  datatype SubtypeItem = SubtypeItem(name: string, composition: string)

  datatype Section =
    | Paragraph(heading: string, text: string)       // <h4>heading</h4><p>text</p>
    | ItemList(heading: string, listHtml: string)    // <h4>heading</h4><ul>listHtml</ul>
    | SubtypeGrid(entries: seq<SubtypeItem>)         // <h4>Subtypes</h4> and the grid
    | Attribution(text: string)                      // <span class="attribution">

  const AttributionText := "Prepared by Mr.Fadi M.Darwesh 2025"

  /** `applications.map(app => `<li>${app}</li>`).join('')`. */
  function ListItems(apps: seq<string>): string {
    if apps == [] then "" else "<li>" + apps[0] + "</li>" + ListItems(apps[1..])
  }

  /** `${key.replace('_', ' ')}: ${value}` for one composition entry. */
  function ComponentText(c: Component): string {
    ReplaceFirst(c.material, '_', ' ') + ": " + c.range
  }

  /** `Object.entries(composition).map(...)`: one text per entry, in insertion order. */
  function ComponentTexts(comp: seq<Component>): (r: seq<string>)
    ensures |r| == |comp|
    ensures forall i :: 0 <= i < |comp| ==> r[i] == ComponentText(comp[i])
  {
    if comp == [] then [] else [ComponentText(comp[0])] + ComponentTexts(comp[1..])
  }

  /** The entries of a composition, in insertion order, joined by ", ". */
  function CompositionText(comp: seq<Component>): string {
    Join(ComponentTexts(comp), ", ")
  }

  function SubtypeItems(subs: seq<Subtype>): (r: seq<SubtypeItem>)
    ensures |r| == |subs|
    ensures forall i :: 0 <= i < |subs| ==> r[i].name == subs[i].name
  {
    if subs == [] then []
    else [SubtypeItem(subs[0].name, CompositionText(subs[0].composition))] + SubtypeItems(subs[1..])
  }

  /**
   * The content `showCementDetails` builds for a family: five sections, or
   * six when the family has subtypes; the subtype grid has one item per
   * subtype, in the catalog's order; the attribution always comes last.
   */
  function Render(f: CementFamily): (view: seq<Section>)
    ensures |view| == if f.subtypes.Some? then 6 else 5
    ensures forall i :: 0 <= i < |view| ==> (view[i].SubtypeGrid? <==> f.subtypes.Some? && i == 4)
    ensures f.subtypes.Some? ==>
              && view[4].SubtypeGrid?
              && |view[4].entries| == |f.subtypes.value|
              && forall i :: 0 <= i < |f.subtypes.value| ==>
                   view[4].entries[i].name == f.subtypes.value[i].name
    ensures view[|view| - 1] == Attribution(AttributionText)
  {
    [ Paragraph("Description", f.description),
      Paragraph("Clinker Content", f.clinkerContent),
      Paragraph("Main Characteristics", f.characteristics),
      ItemList("Applications", ListItems(f.applications)) ]
    + (match f.subtypes
       case None => []
       case Some(subs) => [SubtypeGrid(SubtypeItems(subs))])
    + [Attribution(AttributionText)]
  }

  // ---------------------------------------------------------------------------
  // Reading a view back

  function DecodeListItems(html: string): Option<seq<string>> {
    if html == "" then Some([])
    else if |html| >= 9 && html[..4] == "<li>" && html[|html| - 5..] == "</li>" then
      Some(Split(html[4..|html| - 5], "</li><li>"))
    else None
  }

  function DecodeComponent(t: string): Option<Component> {
    var parts := Split(t, ": ");
    if |parts| == 2 then Some(Component(ReplaceFirst(parts[0], ' ', '_'), parts[1])) else None
  }

  function DecodeComponents(ts: seq<string>): Option<seq<Component>> {
    if ts == [] then Some([])
    else
      match (DecodeComponent(ts[0]), DecodeComponents(ts[1..]))
      case (Some(c), Some(cs)) => Some([c] + cs)
      case _ => None
  }

  function DecodeComposition(t: string): Option<seq<Component>> {
    if t == "" then Some([]) else DecodeComponents(Split(t, ", "))
  }

  function DecodeSubtypes(items: seq<SubtypeItem>): Option<seq<Subtype>> {
    if items == [] then Some([])
    else
      match (DecodeComposition(items[0].composition), DecodeSubtypes(items[1..]))
      case (Some(comp), Some(rest)) => Some([Subtype(items[0].name, comp)] + rest)
      case _ => None
  }

  /** The family a modal title and view describe, if they have the rendered shape. */
  function Decode(title: string, view: seq<Section>): Option<CementFamily> {
    if && (|view| == 5 || |view| == 6)
       && view[0].Paragraph? && view[0].heading == "Description"
       && view[1].Paragraph? && view[1].heading == "Clinker Content"
       && view[2].Paragraph? && view[2].heading == "Main Characteristics"
       && view[3].ItemList? && view[3].heading == "Applications"
       && (|view| == 6 ==> view[4].SubtypeGrid?)
       && view[|view| - 1] == Attribution(AttributionText)
    then
      var apps := DecodeListItems(view[3].listHtml);
      var subs :=
        if |view| == 5 then Some(None)
        else match DecodeSubtypes(view[4].entries)
          case Some(s) => Some(Some(s))
          case None => None;
      if apps.Some? && subs.Some? then
        Some(CementFamily(title, view[0].text, view[1].text, view[2].text, apps.value, subs.value))
      else None
    else None
  }

  // ---------------------------------------------------------------------------
  // Round trip

  /** A material name survives rendering when it has no space, comma or colon. */
  predicate MaterialOk(m: string) {
    ' ' !in m && ',' !in m && ':' !in m
  }

  /** A range survives rendering when it has no comma or colon. */
  predicate RangeOk(r: string) {
    ',' !in r && ':' !in r
  }

  predicate CompositionOk(comp: seq<Component>) {
    forall c :: c in comp ==> MaterialOk(c.material) && RangeOk(c.range)
  }

  predicate ApplicationsOk(apps: seq<string>) {
    forall a :: a in apps ==> '<' !in a
  }

  predicate SubtypesOk(subs: seq<Subtype>) {
    forall s :: s in subs ==> CompositionOk(s.composition)
  }

  /** The character restrictions under which the view determines the family. */
  predicate Renderable(f: CementFamily) {
    ApplicationsOk(f.applications) && (f.subtypes.Some? ==> SubtypesOk(f.subtypes.value))
  }

  /** The list items are the applications joined by "</li><li>" inside one outer pair of tags. */
  lemma {:induction false} ListItemsAsJoin(apps: seq<string>)
    requires apps != []
    ensures ListItems(apps) == "<li>" + Join(apps, "</li><li>") + "</li>"
    decreases |apps|
  {
    if |apps| == 1 {
      assert ListItems(apps[1..]) == "";
    } else {
      ListItemsAsJoin(apps[1..]);
      assert Join(apps, "</li><li>") == apps[0] + "</li><li>" + Join(apps[1..], "</li><li>");
    }
  }

  /** The applications list has one `<li>` per application, in order. */
  lemma ListItemsDecode(apps: seq<string>)
    requires forall a :: a in apps ==> '<' !in a
    ensures DecodeListItems(ListItems(apps)) == Some(apps)
  {
    if apps != [] {
      ListItemsAsJoin(apps);
      var inner := Join(apps, "</li><li>");
      var html := ListItems(apps);
      assert html[4..|html| - 5] == inner;
      SplitJoin(apps, "</li><li>");
    }
  }

  /** One rendered composition entry reads back as the entry. */
  lemma ComponentDecode(c: Component)
    requires MaterialOk(c.material) && RangeOk(c.range)
    ensures DecodeComponent(ComponentText(c)) == Some(c)
    ensures ',' !in ComponentText(c)
  {
    var k := ReplaceFirst(c.material, '_', ' ');
    if ':' in k { ReplaceFirstChars(c.material, '_', ' ', ':'); }
    if ',' in k { ReplaceFirstChars(c.material, '_', ' ', ','); }
    assert Join([k, c.range], ": ") == ComponentText(c);
    SplitJoin([k, c.range], ": ");
    ReplaceFirstUndo(c.material, '_', ' ');
  }

  lemma {:induction false} ComponentsDecode(comp: seq<Component>)
    requires CompositionOk(comp)
    ensures DecodeComponents(ComponentTexts(comp)) == Some(comp)
    ensures forall t :: t in ComponentTexts(comp) ==> ',' !in t
    decreases |comp|
  {
    if comp != [] {
      assert comp[0] in comp;
      ComponentDecode(comp[0]);
      assert CompositionOk(comp[1..]) by {
        forall c | c in comp[1..] ensures MaterialOk(c.material) && RangeOk(c.range) {
          assert c in comp;
        }
      }
      ComponentsDecode(comp[1..]);
      assert comp == [comp[0]] + comp[1..];
    }
  }

  /** A composition text reads back as the composition, in insertion order. */
  lemma CompositionDecode(comp: seq<Component>)
    requires CompositionOk(comp)
    ensures DecodeComposition(CompositionText(comp)) == Some(comp)
  {
    ComponentsDecode(comp);
    var ts := ComponentTexts(comp);
    if comp != [] {
      JoinHasFirst(ts, ", ");
      assert ts[0] == ComponentText(comp[0]);
      SplitJoin(ts, ", ");
    }
  }

  lemma {:induction false} SubtypesDecode(subs: seq<Subtype>)
    requires forall s :: s in subs ==> CompositionOk(s.composition)
    ensures DecodeSubtypes(SubtypeItems(subs)) == Some(subs)
    decreases |subs|
  {
    if subs != [] {
      assert subs[0] in subs;
      CompositionDecode(subs[0].composition);
      assert forall s :: s in subs[1..] ==> s in subs;
      SubtypesDecode(subs[1..]);
      assert subs == [subs[0]] + subs[1..];
    }
  }

  /** The title and the view together determine the family they were rendered from. */
  lemma RenderDecode(f: CementFamily)
    requires Renderable(f)
    ensures Decode(f.name, Render(f)) == Some(f)
  {
    ListItemsDecode(f.applications);
    if f.subtypes.Some? {
      SubtypesDecode(f.subtypes.value);
    }
  }

  /** The blast-furnace family's grid lists CEM III/A, III/B and III/C, in that order. */
  lemma CemIIIGridOrder()
    ensures Render(CemIII)[4].SubtypeGrid?
    ensures |Render(CemIII)[4].entries| == 3
    ensures Render(CemIII)[4].entries[0].name == "CEM III/A"
    ensures Render(CemIII)[4].entries[1].name == "CEM III/B"
    ensures Render(CemIII)[4].entries[2].name == "CEM III/C"
  {
    var subs := CemIII.subtypes.value;
    assert subs[0].name == "CEM III/A" && subs[1].name == "CEM III/B" && subs[2].name == "CEM III/C";
  }

  /** Every family of the catalog meets the character restrictions. */
  lemma CatalogRenderable()
    ensures forall i :: 0 <= i < |CementData()| ==> Renderable(CementData()[i].1)
  {
    forall i | 0 <= i < |CementData()| ensures Renderable(CementData()[i].1) {
      if i == 0 {
        CemIRenderable();
      } else if i == 1 {
        CemIIRenderable();
      } else if i == 2 {
        CemIIIRenderable();
      } else if i == 3 {
        CemIVRenderable();
      } else {
        CemVRenderable();
      }
    }
  }

  // Character facts about the catalog's strings, a few strings per lemma:
  // membership tests on string literals are costly for the solver.

  lemma MaterialsOk1() ensures MaterialOk("clinker") && MaterialOk("slag") && MaterialOk("limestone") {}
  lemma MaterialsOk2() ensures MaterialOk("silica_fume") && MaterialOk("pozzolana") && MaterialOk("pozzolanic") {}
  lemma MaterialsOk3() ensures MaterialOk("fly_ash_siliceous") {}
  lemma MaterialsOk4() ensures MaterialOk("pozzolanic_materials") {}
  lemma RangesOk1() ensures RangeOk("80-94%") && RangeOk("6-20%") && RangeOk("65-79%") && RangeOk("21-35%") {}
  lemma RangesOk2() ensures RangeOk("90-94%") && RangeOk("6-10%") && RangeOk("35-64%") && RangeOk("36-65%") {}
  lemma RangesOk3() ensures RangeOk("20-34%") && RangeOk("66-80%") && RangeOk("5-19%") && RangeOk("81-95%") {}
  lemma RangesOk4() ensures RangeOk("65-89%") && RangeOk("11-35%") && RangeOk("45-64%") && RangeOk("36-55%") {}
  lemma RangesOk5() ensures RangeOk("40-64%") && RangeOk("18-30%") && RangeOk("20-38%") && RangeOk("31-49%") {}

  lemma CemIRenderable() ensures Renderable(CemI) {
    assert '<' !in "Structural concrete";
    assert '<' !in "High-strength applications";
    assert '<' !in "General construction";
  }

  lemma CemIIRenderable() ensures Renderable(CemII) {
    CemIIApplicationsOk();
    CemIIFirstHalfOk();
    CemIISecondHalfOk();
  }

  lemma CemIIApplicationsOk() ensures ApplicationsOk(CemII.applications) {
    assert '<' !in "General construction";
    assert '<' !in "Marine structures";
    assert '<' !in "Mass concrete";
  }

  lemma CemIIFirstHalfOk()
    ensures forall i :: 0 <= i < 3 ==> CompositionOk(CemII.subtypes.value[i].composition)
  {
    MaterialsOk1(); MaterialsOk2(); RangesOk1(); RangesOk2();
  }

  lemma CemIISecondHalfOk()
    ensures forall i :: 3 <= i < 6 ==> CompositionOk(CemII.subtypes.value[i].composition)
  {
    MaterialsOk1(); MaterialsOk2(); MaterialsOk3(); RangesOk1();
  }

  lemma CemIIIRenderable() ensures Renderable(CemIII) {
    CemIIIApplicationsOk();
    CemIIISubtypesOk();
  }

  lemma CemIIIApplicationsOk() ensures ApplicationsOk(CemIII.applications) {
    assert '<' !in "Mass concrete";
    assert '<' !in "Marine environments";
    assert '<' !in "Sulfate-aggressive conditions";
  }

  lemma CemIIISubtypesOk() ensures SubtypesOk(CemIII.subtypes.value) {
    MaterialsOk1(); RangesOk2(); RangesOk3();
  }

  lemma CemIVRenderable() ensures Renderable(CemIV) {
    CemIVApplicationsOk();
    CemIVSubtypesOk();
  }

  lemma CemIVApplicationsOk() ensures ApplicationsOk(CemIV.applications) {
    assert '<' !in "Durable structures";
    assert '<' !in "Chemical resistance applications";
  }

  lemma CemIVSubtypesOk() ensures SubtypesOk(CemIV.subtypes.value) {
    MaterialsOk1(); MaterialsOk4(); RangesOk4();
  }

  lemma CemVRenderable() ensures Renderable(CemV) {
    CemVApplicationsOk();
    CemVSubtypesOk();
  }

  lemma CemVApplicationsOk() ensures ApplicationsOk(CemV.applications) {
    assert '<' !in "Mass concrete";
    assert '<' !in "Marine structures";
    assert '<' !in "Long-term durability";
  }

  lemma CemVSubtypesOk() ensures SubtypesOk(CemV.subtypes.value) {
    MaterialsOk1(); MaterialsOk2(); RangesOk5();
  }
}

/**
 * The tab switcher: a click on a `.tab-btn` makes that button the only
 * active one and shows exactly the `.tab-content` panels whose id is the
 * button's `data-tab` value followed by "-tab"; every other panel is hidden.
 */
module Tabs {
  import opened Dom

  /** Matched by the selector `.tab-btn`. */
  predicate IsTabButton(e: Element) {
    HasClass(e, "tab-btn")
  }

  /** Matched by the selector `.tab-content`. */
  predicate IsTabPanel(e: Element) {
    HasClass(e, "tab-content")
  }

  /** The panel id a button selects: `${targetTab}-tab`, where a missing `data-tab` reads "null". */
  function PanelId(button: Element): string {
    Interpolate(GetAttribute(button, "data-tab")) + "-tab"
  }

  /** The button loop: only `c` is active among the buttons. */
  function ActivateButton(es: seq<Element>, c: nat): (r: seq<Element>)
    ensures |r| == |es|
  {
    seq(|es|, i requires 0 <= i < |es| =>
      var e := if IsTabButton(es[i]) then RemoveClass(es[i], "active") else es[i];
      if i == c then AddClass(e, "active") else e)
  }

  /** The panel loop: a panel is shown when its id is `id` and hidden otherwise. */
  function ShowPanel(es: seq<Element>, id: string): (r: seq<Element>)
    ensures |r| == |es|
  {
    seq(|es|, i requires 0 <= i < |es| =>
      if !IsTabPanel(es[i]) then es[i]
      else if Id(es[i]) == id then RemoveClass(es[i], "hidden")
      else AddClass(es[i], "hidden"))
  }

  /** The page after a click on the tab button at index `c`. */
  function AfterTabClick(es: seq<Element>, c: nat): (r: seq<Element>)
    requires c < |es| && IsTabButton(es[c])
    ensures |r| == |es|
  {
    ShowPanel(ActivateButton(es, c), PanelId(es[c]))
  }

  /**
   * After a click, the clicked button is the one active button; a panel is
   * visible exactly when its id is the selected one; an element that is
   * neither a button nor a panel is unchanged; a button changes only in
   * `active` and a panel only in `hidden`, unless it is both.
   */
  lemma TabClickEffect(es: seq<Element>, c: nat)
    requires c < |es| && IsTabButton(es[c])
    ensures forall i :: 0 <= i < |es| && IsTabButton(es[i]) ==>
              (HasClass(AfterTabClick(es, c)[i], "active") <==> i == c)
    ensures forall i :: 0 <= i < |es| && IsTabPanel(es[i]) ==>
              (HasClass(AfterTabClick(es, c)[i], "hidden") <==> Id(es[i]) != PanelId(es[c]))
    ensures forall i :: 0 <= i < |es| && !IsTabButton(es[i]) && !IsTabPanel(es[i]) ==>
              AfterTabClick(es, c)[i] == es[i]
    ensures forall i :: 0 <= i < |es| && IsTabPanel(es[i]) && !IsTabButton(es[i]) ==>
              (HasClass(AfterTabClick(es, c)[i], "active") <==> HasClass(es[i], "active"))
    ensures forall i :: 0 <= i < |es| && IsTabButton(es[i]) && !IsTabPanel(es[i]) ==>
              (HasClass(AfterTabClick(es, c)[i], "hidden") <==> HasClass(es[i], "hidden"))
    ensures forall i :: 0 <= i < |es| ==>
              && AfterTabClick(es, c)[i].tag == es[i].tag
              && AfterTabClick(es, c)[i].text == es[i].text
              && AfterTabClick(es, c)[i].attrs == es[i].attrs
              && AfterTabClick(es, c)[i].classes - {"active", "hidden"} == es[i].classes - {"active", "hidden"}
  {
  }

  /** The panels of a page carry distinct ids. */
  predicate UniquePanelIds(es: seq<Element>) {
    forall i, j :: 0 <= i < j < |es| && IsTabPanel(es[i]) && IsTabPanel(es[j]) ==> Id(es[i]) != Id(es[j])
  }

  /** The indices of the visible panels. */
  function VisiblePanels(es: seq<Element>): set<nat> {
    set i: nat | i < |es| && IsTabPanel(es[i]) && !HasClass(es[i], "hidden")
  }

  /** With distinct panel ids, a click whose panel exists leaves exactly that one panel visible. */
  lemma ExactlyOnePanelVisible(es: seq<Element>, c: nat, k: nat)
    requires c < |es| && IsTabButton(es[c])
    requires UniquePanelIds(es)
    requires k < |es| && IsTabPanel(es[k]) && Id(es[k]) == PanelId(es[c])
    ensures VisiblePanels(AfterTabClick(es, c)) == {k}
  {
    var r := AfterTabClick(es, c);
    TabClickEffect(es, c);
    forall i: nat | i < |r| && IsTabPanel(r[i]) && !HasClass(r[i], "hidden") ensures i == k {
      assert IsTabPanel(es[i]);
    }
    assert IsTabPanel(r[k]);
  }

  /** A button whose panel does not exist leaves every panel hidden. */
  lemma UnknownTargetHidesAll(es: seq<Element>, c: nat)
    requires c < |es| && IsTabButton(es[c])
    requires forall i :: 0 <= i < |es| && IsTabPanel(es[i]) ==> Id(es[i]) != PanelId(es[c])
    ensures VisiblePanels(AfterTabClick(es, c)) == {}
  {
    var r := AfterTabClick(es, c);
    TabClickEffect(es, c);
    forall i: nat | i < |r| && IsTabPanel(r[i]) ensures HasClass(r[i], "hidden") {
      assert IsTabPanel(es[i]);
    }
  }

  /** Clicking the same button again changes nothing more. */
  lemma TabClickIdempotent(es: seq<Element>, c: nat)
    requires c < |es| && IsTabButton(es[c])
    ensures IsTabButton(AfterTabClick(es, c)[c])
    ensures AfterTabClick(AfterTabClick(es, c), c) == AfterTabClick(es, c)
  {
    var r := AfterTabClick(es, c);
    TabClickEffect(es, c);
    assert IsTabButton(r[c]);
    TabClickEffect(r, c);
    var rr := AfterTabClick(r, c);
    forall i | 0 <= i < |es| ensures rr[i] == r[i] {
      assert IsTabButton(r[i]) == IsTabButton(es[i]);
      assert IsTabPanel(r[i]) == IsTabPanel(es[i]);
      assert rr[i].classes == r[i].classes;
    }
  }

  /**
   * The click handler of the tab button at index `c`: first the button
   * loop, then the panel loop, each over the page in document order.
   */
  method OnTabClick(doc: Document, c: nat)
    requires c < |doc.elements| && IsTabButton(doc.elements[c])
    modifies doc
    ensures doc.elements == AfterTabClick(old(doc.elements), c)
  {
    ghost var es := doc.elements;
    var target := Interpolate(GetAttribute(doc.elements[c], "data-tab"));
    var i := 0;
    while i < |doc.elements|
      invariant 0 <= i <= |doc.elements| == |es|
      invariant forall j :: 0 <= j < i ==> doc.elements[j] == (if IsTabButton(es[j]) then RemoveClass(es[j], "active") else es[j])
      invariant doc.elements[i..] == es[i..]
    {
      if IsTabButton(doc.elements[i]) {
        doc.elements := doc.elements[i := RemoveClass(doc.elements[i], "active")];
      }
      i := i + 1;
    }
    doc.elements := doc.elements[c := AddClass(doc.elements[c], "active")];
    assert doc.elements == ActivateButton(es, c);
    ghost var bs := doc.elements;
    i := 0;
    while i < |doc.elements|
      invariant 0 <= i <= |doc.elements| == |es|
      invariant doc.elements[..i] == ShowPanel(bs, target + "-tab")[..i]
      invariant doc.elements[i..] == bs[i..]
    {
      if IsTabPanel(doc.elements[i]) {
        if Id(doc.elements[i]) == target + "-tab" {
          doc.elements := doc.elements[i := RemoveClass(doc.elements[i], "hidden")];
        } else {
          doc.elements := doc.elements[i := AddClass(doc.elements[i], "hidden")];
        }
      }
      assert doc.elements[i] == ShowPanel(bs, target + "-tab")[i];
      i := i + 1;
    }
  }
}

/**
 * The cement details modal: its open/closed state (the `hidden` class of the
 * modal element), the page's scroll lock (`document.body.style.overflow`),
 * the title and the rendered content, and the three ways of closing it.
 * Also the Tab-key focus trap of the modal.
 */
module Modal {
  import opened Wrappers
  import opened Catalog
  import opened Details

  class Modal {
    /** The table the details are looked up in: `cementData`, captured by the handlers. */
    const catalog: seq<(string, CementFamily)>
    /** The class list of the modal element; the modal is closed while it holds "hidden". */
    var classes: set<string>
    /** `document.body.style.overflow`: "hidden" while the modal locks page scrolling. */
    var overflow: string
    /** The text of the modal's title element. */
    var title: string
    /** What the modal's content element shows. */
    var content: seq<Section>

    /** Every family of the table can be rendered without loss. */
    predicate Valid()
      reads this
    {
      forall i :: 0 <= i < |catalog| ==> Renderable(catalog[i].1)
    }

    /** The modal as the page loads it, wired to `cementData`. */
    constructor (classes: set<string>, overflow: string, title: string, content: seq<Section>)
      ensures Valid() && catalog == CementData()
      ensures this.classes == classes && this.overflow == overflow
      ensures this.title == title && this.content == content
    {
      catalog := CementData();
      this.classes := classes;
      this.overflow := overflow;
      this.title := title;
      this.content := content;
      CatalogRenderable();
    }

    predicate IsOpen()
      reads this
    {
      "hidden" !in classes
    }

    /**
     * `showCementDetails(type)`: for a key of the table, shows the family
     * (title = its name, content = its rendering, which reads back as the
     * family), opens the modal and locks page scrolling; for any other key
     * nothing changes.
     */
    method ShowCementDetails(key: string)
      requires Valid()
      modifies this
      ensures LookupIn(catalog, key).None? ==> unchanged(this)
      ensures LookupIn(catalog, key).Some? ==>
                && title == LookupIn(catalog, key).value.name
                && content == Render(LookupIn(catalog, key).value)
                && classes == old(classes) - {"hidden"}
                && overflow == "hidden"
      ensures LookupIn(catalog, key).Some? ==>
                IsOpen() && Decode(title, content) == LookupIn(catalog, key)
    {
      var cement := LookupIn(catalog, key);
      if cement.None? {
        return;
      }
      var f := cement.value;
      RenderDecode(f);
      title := f.name;
      content := Render(f);
      classes := classes - {"hidden"};
      overflow := "hidden";
    }

    /** `closeModal`, which the close button calls directly: hides the modal and releases the scroll lock. */
    method CloseModal()
      modifies this
      ensures classes == old(classes) + {"hidden"} && !IsOpen()
      ensures overflow == ""
      ensures title == old(title) && content == old(content)
    {
      classes := classes + {"hidden"};
      overflow := "";
    }

    /** A click on the modal: only a click on the backdrop itself (not on its content) closes it. */
    method OnModalClick(targetIsModal: bool)
      modifies this
      ensures targetIsModal ==> classes == old(classes) + {"hidden"} && overflow == ""
      ensures targetIsModal ==> title == old(title) && content == old(content)
      ensures !targetIsModal ==> unchanged(this)
    {
      if targetIsModal {
        CloseModal();
      }
    }

    /** A key press anywhere in the document: Escape closes an open modal; nothing else changes anything. */
    method OnKeyDown(key: string)
      modifies this
      ensures key == "Escape" && old(IsOpen()) ==>
                classes == old(classes) + {"hidden"} && overflow == ""
                && title == old(title) && content == old(content)
      ensures !(key == "Escape" && old(IsOpen())) ==> unchanged(this)
    {
      if key == "Escape" && IsOpen() {
        CloseModal();
      }
    }
  }

  /**
   * The modal's keydown rule for Tab over its focusable elements (collected
   * once, when the page is set up): Shift+Tab on the first one moves to the
   * last, Tab on the last one moves to the first; in every other case the
   * result is None and the browser's default focus move applies.
   */
  function FocusTrap<T(==)>(key: string, shift: bool, active: Option<T>, focusables: seq<T>): (r: Option<T>)
    ensures r.Some? <==>
              && key == "Tab" && |focusables| > 0
              && ((shift && active == Some(focusables[0]))
                  || (!shift && active == Some(focusables[|focusables| - 1])))
    ensures r.Some? ==> r.value == if shift then focusables[|focusables| - 1] else focusables[0]
  {
    if key != "Tab" || |focusables| == 0 then None
    else if shift && active == Some(focusables[0]) then Some(focusables[|focusables| - 1])
    else if !shift && active == Some(focusables[|focusables| - 1]) then Some(focusables[0])
    else None
  }

  /** Wrapping forward from the last element and backward from the first are inverse moves. */
  lemma FocusTrapWraps<T>(focusables: seq<T>)
    requires |focusables| > 0
    ensures FocusTrap("Tab", false, Some(focusables[|focusables| - 1]), focusables) == Some(focusables[0])
    ensures FocusTrap("Tab", true, Some(focusables[0]), focusables) == Some(focusables[|focusables| - 1])
  {
  }
}

/**
 * Navigation: the scroll-spy that marks the nav link of the section under
 * the top of the viewport, and the nav-link click that marks the clicked
 * link when its target exists. Element geometry (`offsetTop`,
 * `offsetHeight`) and `window.scrollY` are inputs, in whole pixels.
 */
module Navigation {
  import opened Wrappers
  import opened Dom

  /** Matched by the selector `.nav-link`. */
  predicate IsNavLink(e: Element) {
    HasClass(e, "nav-link")
  }

  /** Matched by the selector `.section`. */
  predicate IsSection(e: Element) {
    HasClass(e, "section")
  }

  /** The layout of one element: `offsetTop` and `offsetHeight`. */
  datatype Box = Box(top: int, height: int)

  /** A section is current when the scroll position lies in its box, with the box raised by 100 pixels. */
  predicate InView(b: Box, scrollY: int) {
    b.top - 100 <= scrollY < b.top - 100 + b.height
  }

  predicate SectionInView(es: seq<Element>, layout: seq<Box>, scrollY: int, i: int)
    requires |layout| == |es|
  {
    0 <= i < |es| && IsSection(es[i]) && InView(layout[i], scrollY)
  }

  /** The index of the last section in view, or None when no section is in view. */
  function LastInView(es: seq<Element>, layout: seq<Box>, scrollY: int): (r: Option<nat>)
    requires |layout| == |es|
    ensures r.None? <==> forall i :: 0 <= i < |es| ==> !SectionInView(es, layout, scrollY, i)
    ensures r.Some? ==> SectionInView(es, layout, scrollY, r.value)
    ensures r.Some? ==> forall i :: r.value < i < |es| ==> !SectionInView(es, layout, scrollY, i)
    decreases |es|
  {
    if es == [] then None
    else
      var n := |es| - 1;
      if SectionInView(es, layout, scrollY, n) then Some(n)
      else
        var r := LastInView(es[..n], layout[..n], scrollY);
        assert forall i :: 0 <= i < n ==>
          (SectionInView(es[..n], layout[..n], scrollY, i) <==> SectionInView(es, layout, scrollY, i));
        r
  }

  /** `current` after the section loop: "" when no section is in view, else the last one's `id` attribute (possibly null). */
  function CurrentSection(es: seq<Element>, layout: seq<Box>, scrollY: int): Option<string>
    requires |layout| == |es|
  {
    var k := LastInView(es, layout, scrollY);
    if k.None? then Some("") else GetAttribute(es[k.value], "id")
  }

  /** The link loop: a link is active exactly when its `href` attribute is `#${current}`. */
  function MarkLinks(es: seq<Element>, current: Option<string>): (r: seq<Element>)
    ensures |r| == |es|
  {
    seq(|es|, i requires 0 <= i < |es| =>
      if !IsNavLink(es[i]) then es[i]
      else if GetAttribute(es[i], "href") == Some("#" + Interpolate(current)) then AddClass(RemoveClass(es[i], "active"), "active")
      else RemoveClass(es[i], "active"))
  }

  function AfterScroll(es: seq<Element>, layout: seq<Box>, scrollY: int): (r: seq<Element>)
    requires |layout| == |es|
    ensures |r| == |es|
  {
    MarkLinks(es, CurrentSection(es, layout, scrollY))
  }

  /**
   * After a scroll, a nav link is active exactly when its `href` is `#` and
   * the id of the last section in view, or `#` alone when none is in view;
   * every element other than a link is unchanged, and a link changes only
   * in its `active` class.
   */
  lemma ScrollEffect(es: seq<Element>, layout: seq<Box>, scrollY: int)
    requires |layout| == |es|
    ensures forall i :: 0 <= i < |es| && IsNavLink(es[i]) ==>
              (HasClass(AfterScroll(es, layout, scrollY)[i], "active") <==>
                 GetAttribute(es[i], "href") == Some("#" + Interpolate(CurrentSection(es, layout, scrollY))))
    ensures LastInView(es, layout, scrollY).None? ==>
              forall i :: 0 <= i < |es| && IsNavLink(es[i]) ==>
                (HasClass(AfterScroll(es, layout, scrollY)[i], "active") <==> GetAttribute(es[i], "href") == Some("#"))
    ensures forall i :: 0 <= i < |es| && !IsNavLink(es[i]) ==> AfterScroll(es, layout, scrollY)[i] == es[i]
    ensures forall i :: 0 <= i < |es| ==> SameBut(AfterScroll(es, layout, scrollY)[i], es[i], "active")
  {
    assert "#" + Interpolate(Some("")) == "#";
  }

  /** The links with distinct `href`s mark at most one of them active after a scroll. */
  lemma ScrollMarksAtMostOne(es: seq<Element>, layout: seq<Box>, scrollY: int, i: nat, j: nat)
    requires |layout| == |es|
    requires i < |es| && j < |es| && IsNavLink(es[i]) && IsNavLink(es[j])
    requires GetAttribute(es[i], "href") != GetAttribute(es[j], "href")
    requires HasClass(AfterScroll(es, layout, scrollY)[i], "active")
    ensures !HasClass(AfterScroll(es, layout, scrollY)[j], "active")
  {
    ScrollEffect(es, layout, scrollY);
  }

  /**
   * The scroll handler: the section loop computes `current`, the link loop
   * marks the links. Returns `current` as the loop left it.
   */
  method OnScroll(doc: Document, layout: seq<Box>, scrollY: int) returns (current: Option<string>)
    requires |layout| == |doc.elements|
    modifies doc
    ensures current == CurrentSection(old(doc.elements), layout, scrollY)
    ensures doc.elements == AfterScroll(old(doc.elements), layout, scrollY)
  {
    ghost var es := doc.elements;
    current := Some("");
    ghost var found: Option<nat> := None;
    var i := 0;
    while i < |doc.elements|
      invariant 0 <= i <= |doc.elements|
      invariant doc.elements == es
      invariant found.None? ==> current == Some("") && forall j :: 0 <= j < i ==> !SectionInView(es, layout, scrollY, j)
      invariant found.Some? ==>
                  && found.value < i && SectionInView(es, layout, scrollY, found.value)
                  && current == GetAttribute(es[found.value], "id")
                  && forall j :: found.value < j < i ==> !SectionInView(es, layout, scrollY, j)
    {
      if IsSection(doc.elements[i]) && layout[i].top - 100 <= scrollY < layout[i].top - 100 + layout[i].height {
        current := GetAttribute(doc.elements[i], "id");
        found := Some(i);
      }
      i := i + 1;
    }
    ghost var k := LastInView(es, layout, scrollY);
    if found.Some? && k.Some? {
      assert !(found.value < k.value) && !(k.value < found.value);
    }
    i := 0;
    while i < |doc.elements|
      invariant 0 <= i <= |doc.elements| == |es|
      invariant doc.elements[..i] == MarkLinks(es, current)[..i]
      invariant doc.elements[i..] == es[i..]
    {
      if IsNavLink(doc.elements[i]) {
        doc.elements := doc.elements[i := RemoveClass(doc.elements[i], "active")];
        if GetAttribute(doc.elements[i], "href") == Some("#" + Interpolate(current)) {
          doc.elements := doc.elements[i := AddClass(doc.elements[i], "active")];
        }
      }
      assert doc.elements[i] == MarkLinks(es, current)[i];
      i := i + 1;
    }
  }

  /** `href.substring(1)`: the text after the first character ("" for an empty string). */
  function Fragment(href: string): string {
    if |href| >= 1 then href[1..] else ""
  }

  /**
   * Whether a click on the link at `c` changes anything: its `href` is not
   * null (a null `href` throws before any change) and an element with the
   * fragment as its id exists.
   */
  predicate NavTargetExists(es: seq<Element>, c: nat)
    requires c < |es|
  {
    var href := GetAttribute(es[c], "href");
    href.Some? && HasElementWithId(es, Fragment(href.value))
  }

  /** The link loop of the click handler: every link loses `active`, then the clicked one gains it. */
  function ActivateLink(es: seq<Element>, c: nat): (r: seq<Element>)
    ensures |r| == |es|
  {
    seq(|es|, i requires 0 <= i < |es| =>
      var e := if IsNavLink(es[i]) then RemoveClass(es[i], "active") else es[i];
      if i == c then AddClass(e, "active") else e)
  }

  function AfterNavClick(es: seq<Element>, c: nat): (r: seq<Element>)
    requires c < |es| && IsNavLink(es[c])
    ensures |r| == |es|
  {
    if NavTargetExists(es, c) then ActivateLink(es, c) else es
  }

  /**
   * A click on a link whose target is missing (or whose `href` is null)
   * changes nothing; otherwise the clicked link is the one active link and
   * nothing but link activity changes.
   */
  lemma NavClickEffect(es: seq<Element>, c: nat)
    requires c < |es| && IsNavLink(es[c])
    ensures !NavTargetExists(es, c) ==> AfterNavClick(es, c) == es
    ensures NavTargetExists(es, c) ==>
              forall i :: 0 <= i < |es| && IsNavLink(es[i]) ==>
                (HasClass(AfterNavClick(es, c)[i], "active") <==> i == c)
    ensures forall i :: 0 <= i < |es| && !IsNavLink(es[i]) ==> AfterNavClick(es, c)[i] == es[i]
    ensures forall i :: 0 <= i < |es| ==> SameBut(AfterNavClick(es, c)[i], es[i], "active")
  {
  }

  /** A link whose `href` is exactly "#" never changes anything: the empty fragment finds no element. */
  lemma BareHashIsNoop(es: seq<Element>, c: nat)
    requires c < |es| && IsNavLink(es[c])
    requires GetAttribute(es[c], "href") == Some("#")
    ensures AfterNavClick(es, c) == es
  {
    assert Fragment("#") == "";
  }

  /** Clicking the same link again changes nothing more. */
  lemma NavClickIdempotent(es: seq<Element>, c: nat)
    requires c < |es| && IsNavLink(es[c])
    ensures IsNavLink(AfterNavClick(es, c)[c])
    ensures AfterNavClick(AfterNavClick(es, c), c) == AfterNavClick(es, c)
  {
    var r := AfterNavClick(es, c);
    NavClickEffect(es, c);
    if NavTargetExists(es, c) {
      var t := Fragment(GetAttribute(es[c], "href").value);
      var k :| 0 <= k < |es| && Id(es[k]) == t;
      assert Id(r[k]) == t;
      assert NavTargetExists(r, c);
      var rr := AfterNavClick(r, c);
      forall i | 0 <= i < |es| ensures rr[i] == r[i] {
        assert IsNavLink(r[i]) == IsNavLink(es[i]);
        assert rr[i].classes == r[i].classes;
      }
    }
  }

  /**
   * The click handler of the nav link at index `c`. Returns the section the
   * page scrolls to, the element `getElementById` finds for the fragment,
   * and none when the handler stops early.
   */
  method OnNavClick(doc: Document, c: nat) returns (target: Option<nat>)
    requires c < |doc.elements| && IsNavLink(doc.elements[c])
    modifies doc
    ensures doc.elements == AfterNavClick(old(doc.elements), c)
    ensures target.Some? <==> NavTargetExists(old(doc.elements), c)
    ensures target.Some? ==>
              target == ElementById(old(doc.elements), Fragment(GetAttribute(old(doc.elements)[c], "href").value))
  {
    var href := GetAttribute(doc.elements[c], "href");
    if href.None? {
      return None;
    }
    var targetId := Fragment(href.value);
    target := ElementById(doc.elements, targetId);
    if target.None? {
      return;
    }
    ghost var es := doc.elements;
    var i := 0;
    while i < |doc.elements|
      invariant 0 <= i <= |doc.elements| == |es|
      invariant forall j :: 0 <= j < i ==> doc.elements[j] == (if IsNavLink(es[j]) then RemoveClass(es[j], "active") else es[j])
      invariant doc.elements[i..] == es[i..]
    {
      if IsNavLink(doc.elements[i]) {
        doc.elements := doc.elements[i := RemoveClass(doc.elements[i], "active")];
      }
      i := i + 1;
    }
    doc.elements := doc.elements[c := AddClass(doc.elements[c], "active")];
    assert doc.elements == ActivateLink(es, c);
  }
}

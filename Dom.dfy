/**
 * The page as plain data: each element is a record of its tag name, its
 * `textContent`, its class list and its attributes, and the page is the
 * sequence of its elements in document order. The handlers change elements
 * only through their class lists, so the page is a class whose one field is
 * that sequence, reassigned as the handlers go.
 */
module Dom {
  import opened Wrappers

  /**
   * An element: `tag` is its lower-case local name ("h1", "p", "li"), as CSS
   * type selectors match it in an HTML document; `text` is its `textContent`.
   */
  datatype Element = Element(tag: string, text: string, classes: set<string>, attrs: map<string, string>)

  /** `getAttribute(name)`: the attribute's value, or `null` (None) when the element has none. */
  function GetAttribute(e: Element, name: string): Option<string> {
    if name in e.attrs then Some(e.attrs[name]) else None
  }

  /** The `id` property: the `id` attribute, or "" when there is none. */
  function Id(e: Element): string {
    if "id" in e.attrs then e.attrs["id"] else ""
  }

  /** A value placed in a template string: `null` becomes the text "null". */
  function Interpolate(v: Option<string>): string {
    if v.Some? then v.value else "null"
  }

  /** `classList.contains(c)`. */
  predicate HasClass(e: Element, c: string) {
    c in e.classes
  }

  /** `classList.add(c)`. */
  function AddClass(e: Element, c: string): Element {
    e.(classes := e.classes + {c})
  }

  /** `classList.remove(c)`. */
  function RemoveClass(e: Element, c: string): Element {
    e.(classes := e.classes - {c})
  }

  /** Only `c` differs, if at all, between the class lists of `e` and `f`, and nothing else of them. */
  predicate SameBut(e: Element, f: Element, c: string) {
    && e.tag == f.tag && e.text == f.text && e.attrs == f.attrs
    && e.classes - {c} == f.classes - {c}
  }

  /** `document.getElementById(id)`: some element carries the id; "" never matches. */
  predicate HasElementWithId(es: seq<Element>, id: string) {
    id != "" && exists i :: 0 <= i < |es| && Id(es[i]) == id
  }

  /**
   * The element `document.getElementById(id)` returns: the first one in
   * document order that carries the id, and none for "".
   */
  function ElementById(es: seq<Element>, id: string): (r: Option<nat>)
    ensures r.None? <==> !HasElementWithId(es, id)
    ensures r.Some? ==> r.value < |es| && Id(es[r.value]) == id
    ensures r.Some? ==> forall i :: 0 <= i < r.value ==> Id(es[i]) != id
  {
    if id == "" || es == [] then None
    else if Id(es[0]) == id then Some(0)
    else
      var r := ElementById(es[1..], id);
      assert forall i :: 1 <= i < |es| ==> es[i] == es[1..][i - 1];
      if r.None? then None else Some(r.value + 1)
  }

  /** The live page: its elements in document order. */
  class Document {
    var elements: seq<Element>

    constructor (elements: seq<Element>)
      ensures this.elements == elements
    {
      this.elements := elements;
    }
  }
}

/**
 * Content search: the query is lower-cased and trimmed; an empty query does
 * nothing; otherwise every highlight is cleared, every scanned element whose
 * lower-cased text contains the query (and that is not an attribution) is
 * highlighted, and the first such element in document order is the one the
 * page scrolls to. Also the suggestion filter of the search box.
 */
module Search {
  import opened Wrappers
  import opened Text
  import opened Dom

  const Highlight := "search-highlight"

  /** The selector `h1, h2, h3, h4, p, li, .cement-card, .strength-card, .constituent-card, .requirement-card`. */
  predicate IsSearchable(e: Element) {
    || e.tag == "h1" || e.tag == "h2" || e.tag == "h3" || e.tag == "h4"
    || e.tag == "p" || e.tag == "li"
    || "cement-card" in e.classes || "strength-card" in e.classes
    || "constituent-card" in e.classes || "requirement-card" in e.classes
  }

  /** `searchInput.value.toLowerCase().trim()`. */
  function NormalizeQuery(input: string): string {
    Trim(ToLower(input))
  }

  /** A scanned element that contains the query and is not an attribution. */
  predicate Matches(e: Element, q: string) {
    IsSearchable(e) && Contains(ToLower(e.text), q) && !HasClass(e, "attribution")
  }

  /** `clearHighlights`: no element keeps the highlight; everything else of every element is kept. */
  function Cleared(es: seq<Element>): (r: seq<Element>)
    ensures |r| == |es|
    ensures forall i :: 0 <= i < |r| ==> !HasClass(r[i], Highlight) && SameBut(r[i], es[i], Highlight)
  {
    seq(|es|, i requires 0 <= i < |es| => RemoveClass(es[i], Highlight))
  }

  /** The highlighting pass: every matching element gains the highlight; the others are left as they are. */
  function Highlighted(es: seq<Element>, q: string): (r: seq<Element>)
    ensures |r| == |es|
  {
    seq(|es|, i requires 0 <= i < |es| => if Matches(es[i], q) then AddClass(es[i], Highlight) else es[i])
  }

  /** The page after a search for the non-empty query `q`: cleared, then highlighted. */
  function AfterSearch(es: seq<Element>, q: string): (r: seq<Element>)
    ensures |r| == |es|
  {
    Highlighted(Cleared(es), q)
  }

  /** The highlight is not one of the classes the match rule looks at. */
  lemma MatchesIgnoreHighlights(es: seq<Element>, q: string)
    ensures forall i :: 0 <= i < |es| ==> (Matches(Cleared(es)[i], q) <==> Matches(es[i], q))
  {
  }

  /**
   * After a search exactly the matching elements are highlighted, whatever
   * was highlighted before, and nothing else of any element changes.
   */
  lemma HighlightsExactlyMatches(es: seq<Element>, q: string)
    ensures forall i :: 0 <= i < |es| ==>
              (HasClass(AfterSearch(es, q)[i], Highlight) <==> Matches(es[i], q))
    ensures forall i :: 0 <= i < |es| ==> SameBut(AfterSearch(es, q)[i], es[i], Highlight)
  {
  }

  /** Old highlights play no part: searching a cleared page gives the same page. */
  lemma SearchIgnoresOldHighlights(es: seq<Element>, q: string)
    ensures AfterSearch(Cleared(es), q) == AfterSearch(es, q)
  {
    var a := AfterSearch(Cleared(es), q);
    var b := AfterSearch(es, q);
    forall i | 0 <= i < |es| ensures a[i] == b[i] {
      assert Matches(Cleared(es)[i], q) == Matches(es[i], q);
    }
  }

  /** Repeating a search leaves the page as the first search left it. */
  lemma SearchIdempotent(es: seq<Element>, q: string)
    ensures AfterSearch(AfterSearch(es, q), q) == AfterSearch(es, q)
  {
    var a := AfterSearch(AfterSearch(es, q), q);
    var b := AfterSearch(es, q);
    forall i | 0 <= i < |es| ensures a[i] == b[i] {
      assert Matches(b[i], q) == Matches(es[i], q);
    }
  }

  /** The lowest index of a matching element, or None when nothing matches. */
  function FirstMatch(es: seq<Element>, q: string): (r: Option<nat>)
    ensures r.None? <==> forall i :: 0 <= i < |es| ==> !Matches(es[i], q)
    ensures r.Some? ==> r.value < |es| && Matches(es[r.value], q)
    ensures r.Some? ==> forall i :: 0 <= i < r.value ==> !Matches(es[i], q)
  {
    if es == [] then None
    else if Matches(es[0], q) then Some(0)
    else
      var r := FirstMatch(es[1..], q);
      assert forall i :: 1 <= i < |es| ==> es[i] == es[1..][i - 1];
      if r.None? then None else Some(r.value + 1)
  }

  /** Clearing the highlights does not move the first match. */
  lemma FirstMatchCleared(es: seq<Element>, q: string)
    ensures FirstMatch(Cleared(es), q) == FirstMatch(es, q)
  {
    MatchesIgnoreHighlights(es, q);
    var a := FirstMatch(Cleared(es), q);
    var b := FirstMatch(es, q);
    if a.Some? && b.Some? {
      assert !(a.value < b.value) && !(b.value < a.value);
    }
  }

  /** An empty query is exactly an input made only of whitespace. */
  lemma {:induction false} EmptyQueryIffBlank(input: string)
    ensures NormalizeQuery(input) == [] <==> forall i :: 0 <= i < |input| ==> IsSpace(input[i])
  {
    var l := ToLower(input);
    forall i | 0 <= i < |input| ensures IsSpace(l[i]) <==> IsSpace(input[i]) {
      assert l[i] == LowerChar(input[i]);
    }
  }

  /** `clearHighlights`, removing the highlight class element by element. */
  method ClearHighlights(doc: Document)
    modifies doc
    ensures doc.elements == Cleared(old(doc.elements))
  {
    ghost var es := doc.elements;
    var i := 0;
    while i < |doc.elements|
      invariant 0 <= i <= |doc.elements| == |es|
      invariant doc.elements[..i] == Cleared(es)[..i]
      invariant doc.elements[i..] == es[i..]
    {
      if Highlight in doc.elements[i].classes {
        doc.elements := doc.elements[i := RemoveClass(doc.elements[i], Highlight)];
      }
      assert doc.elements[i] == Cleared(es)[i];
      i := i + 1;
    }
  }

  /**
   * The scanning loop of `performSearch`: highlights every matching element
   * and remembers the first one.
   */
  method HighlightMatches(doc: Document, query: string) returns (firstMatch: Option<nat>)
    modifies doc
    ensures doc.elements == Highlighted(old(doc.elements), query)
    ensures firstMatch == FirstMatch(old(doc.elements), query)
  {
    ghost var es := doc.elements;
    firstMatch := None;
    var i := 0;
    while i < |doc.elements|
      invariant 0 <= i <= |doc.elements| == |es|
      invariant doc.elements[..i] == Highlighted(es, query)[..i]
      invariant doc.elements[i..] == es[i..]
      invariant firstMatch.None? ==> forall j :: 0 <= j < i ==> !Matches(es[j], query)
      invariant firstMatch.Some? ==>
                  && firstMatch.value < i && Matches(es[firstMatch.value], query)
                  && forall j :: 0 <= j < firstMatch.value ==> !Matches(es[j], query)
    {
      if Matches(doc.elements[i], query) {
        doc.elements := doc.elements[i := AddClass(doc.elements[i], Highlight)];
        if firstMatch.None? {
          firstMatch := Some(i);
        }
      }
      assert doc.elements[i] == Highlighted(es, query)[i];
      i := i + 1;
    }
    ghost var m := FirstMatch(es, query);
    if firstMatch.Some? && m.Some? {
      assert !(firstMatch.value < m.value) && !(m.value < firstMatch.value);
    }
  }

  /**
   * `performSearch` on the current input: for a blank query no element
   * changes and nothing is scrolled to; otherwise the page becomes
   * `AfterSearch` and the scroll target is the first match.
   */
  method PerformSearch(doc: Document, input: string) returns (firstMatch: Option<nat>)
    modifies doc
    ensures NormalizeQuery(input) == [] ==> doc.elements == old(doc.elements) && firstMatch.None?
    ensures NormalizeQuery(input) != [] ==>
              && doc.elements == AfterSearch(old(doc.elements), NormalizeQuery(input))
              && firstMatch == FirstMatch(old(doc.elements), NormalizeQuery(input))
  {
    var query := NormalizeQuery(input);
    if query == [] {
      return None;
    }
    FirstMatchCleared(doc.elements, query);
    ClearHighlights(doc);
    firstMatch := HighlightMatches(doc, query);
  }

  /** The 3-second timer of `highlightElement` firing for element `i`: its highlight goes, nothing else changes. */
  method ExpireHighlight(doc: Document, i: nat)
    requires i < |doc.elements|
    modifies doc
    ensures doc.elements == old(doc.elements)[i := RemoveClass(old(doc.elements)[i], Highlight)]
  {
    doc.elements := doc.elements[i := RemoveClass(doc.elements[i], Highlight)];
  }

  /** The suggestion terms of the search box, in their order. */
  function SearchTerms(): seq<string> {
    [ "portland cement", "blast furnace", "pozzolanic", "strength class",
      "constituents", "clinker", "slag", "fly ash", "limestone", "silica fume",
      "sulfate resistant", "heat of hydration", "setting time", "compressive strength"]
  }

  /** `terms.filter(term => term.includes(value) && term !== value)`. */
  function FilterTerms(terms: seq<string>, value: string): (r: seq<string>)
    ensures |r| <= |terms|
    ensures forall t :: t in r <==> t in terms && Contains(t, value) && t != value
  {
    if terms == [] then []
    else
      var rest := FilterTerms(terms[1..], value);
      assert forall t :: t in terms <==> t == terms[0] || t in terms[1..];
      if Contains(terms[0], value) && terms[0] != value then [terms[0]] + rest else rest
  }

  /** Filtering keeps document order: the filter of a concatenation is the concatenation of the filters. */
  lemma {:induction false} FilterTermsAppend(a: seq<string>, b: seq<string>, value: string)
    ensures FilterTerms(a + b, value) == FilterTerms(a, value) + FilterTerms(b, value)
  {
    if a != [] {
      assert (a + b)[1..] == a[1..] + b;
      FilterTermsAppend(a[1..], b, value);
    } else {
      assert a + b == b;
    }
  }

  /**
   * The `input` handler: the lower-cased value yields suggestions only when
   * its `length`, counted in UTF-16 code units, exceeds two.
   */
  function Suggestions(input: string, terms: seq<string>): (r: Option<seq<string>>)
    ensures r.Some? <==> Utf16Length(input) > 2
    ensures r.Some? ==> forall t :: t in r.value <==>
              t in terms && Contains(t, ToLower(input)) && t != ToLower(input)
  {
    var value := ToLower(input);
    ToLowerUtf16Length(input);
    if Utf16Length(value) > 2 then Some(FilterTerms(terms, value)) else None
  }

  /** Lower-casing keeps the `length`: only ASCII letters change, each into one. */
  lemma {:induction false} ToLowerUtf16Length(s: string)
    ensures Utf16Length(ToLower(s)) == Utf16Length(s)
  {
    if s != [] {
      assert ToLower(s)[1..] == ToLower(s[1..]);
      ToLowerUtf16Length(s[1..]);
    }
  }

  /** One emoji and one letter are three code units, so the filter runs, and the terms have no emoji. */
  lemma AstralInputFilters()
    ensures Suggestions("\U{1F600}a", SearchTerms()).Some?
  {
    Utf16LengthAstral();
    ToLowerUtf16Length("\U{1F600}a");
  }

  /** "sla" suggests the term "slag"; typing the whole term "slag" no longer suggests it. */
  lemma SuggestSlag()
    ensures Suggestions("sla", SearchTerms()).Some? && "slag" in Suggestions("sla", SearchTerms()).value
    ensures Suggestions("slag", SearchTerms()).Some? && "slag" !in Suggestions("slag", SearchTerms()).value
  {
    assert SearchTerms()[6] == "slag";
    assert StartsWith("slag", "sla");
    assert ToLower("sla") == "sla";
    assert ToLower("slag") == "slag";
  }
}

# Cement standards guide: the page script's rules

`app.js` is the script of a single-page guide to the European cement
standard: families CEM I to CEM V, their subtypes and compositions. This
project models the deterministic rules of that script in Dafny, with the
page replaced by plain data, and proves properties of the model:

- **Catalog** (`Catalog.dfy`): `cementData`, the five cement families, with
  every JavaScript object turned into an ordered sequence, because
  non-numeric object keys keep insertion order (the table has no
  integer-like keys, which JavaScript would list first). A key lookup finds a family for exactly the five
  keys.
- **Details** (`Details.dfy`): what `showCementDetails` puts into the modal.
  - The content is a sequence of sections: three paragraphs, the
    applications list (its `<li>` markup kept as text), the subtype grid
    when the family has subtypes, and the attribution.
  - A component reads `material: range`. Only the first `_` of the material
    becomes a space, as with JavaScript's `replace('_', ' ')`.
  - The partner of the renderer is a decoder. The title and the sections
    read back as the family, and every catalog family meets the character
    restrictions this needs.
- **Modal** (`Modal.dfy`): the modal as a class whose fields are its class
  list, `document.body.style.overflow`, its title and its content.
  - Showing a known key opens it.
  - The close button, a backdrop click, and Escape while it is open close it.
  - Also here is the Tab/Shift+Tab focus trap.
- **Dom** (`Dom.dfy`): an element is a record of its tag, its
  `textContent`, its class set and its attributes. The page is a class
  holding its elements in document order.
- **Search** (`Search.dfy`):
  - `performSearch`: the query is lower-cased and trimmed. A blank query
    changes nothing. Otherwise all highlights are cleared, every match is
    highlighted, and the first match is the scroll target.
  - `clearHighlights`, the timer that removes one highlight, and the
    suggestion filter.
- **Tabs** (`Tabs.dfy`): the tab button click.
- **Navigation** (`Navigation.dfy`): the scroll-spy and the nav-link click.
- **Text** (`Text.dfy`): the string operations the script relies on.
  These are `toLowerCase`, `trim`, `includes`, first-occurrence `replace`
  and `join`, plus the `Split` that inverts `join`.

`key.replace('_', ' ')` with a string pattern replaces only the first
underscore, so `fly_ash_siliceous` renders as `fly ash_siliceous`
(`Text.ReplaceFirstFlyAsh`).

Inputs the browser supplies are parameters:
- which element was clicked, as its index in the page;
- whether a click hit the modal backdrop itself;
- the key pressed and whether Shift was held;
- the element geometry and `scrollY`;
- the search box's value.

A method's returned value stands for the element the page scrolls to
(`Search.PerformSearch`, `Navigation.OnNavClick`), the element to focus
(`Modal.FocusTrap`), or the section id the scroll-spy settles on
(`Navigation.OnScroll`'s `current`).

## Model

| member | source | states |
|---|---|---|
| Catalog.CementData | app.js:6-64 | `cementData`: the entries CEM_I, CEM_II, CEM_III, CEM_IV and CEM_V in the order the literal lists them, each paired with its record (the constants `CemI` to `CemV`, field for field as at app.js:7-63) |
| Catalog.LookupIn | app.js:192 | the lookup yields nothing exactly when no entry has the key, and otherwise yields the value of an entry with that key |
| Catalog.Lookup | app.js:6-64 | `cementData[type]` finds a family for exactly the keys CEM_I, CEM_II, CEM_III, CEM_IV and CEM_V |
| Catalog.LookupFindsEntry | app.js:192 | a found family is the one stored under that key in the table |
| Catalog.CatalogInvariant | app.js:6-64 | the table's keys are distinct; every family has a name and a description; every subtype mapping is non-empty and every composition has a component |
| Catalog.LookupCemIII | app.js:30-41 | CEM_III has clinker range "5-64%" and the subtypes CEM III/A, III/B, III/C in that order |
| Catalog.OnlyCemIHasNoSubtypes | app.js:13 | among the five families, exactly CEM_I has `subtypes: null` |
| Text.ToLower | app.js:126 | `toLowerCase`: every ASCII capital becomes its small letter, every other character is kept |
| Text.Utf16Length | app.js:434 | `length` counts UTF-16 code units: at least one and at most two per character, and exactly one per character when none is above U+FFFF |
| Text.Utf16LengthAstral | app.js:434 | an emoji followed by a letter has `length` 3 |
| Text.Contains | app.js:138 | `includes`: the query starts the text at some position, scanned left to right |
| Text.Join | app.js:233 | `Array.prototype.join`: the parts in order with the separator between neighbours, "" for no parts |
| Text.IsSpace | app.js:126 | the characters `trim` strips: the ECMAScript WhiteSpace and LineTerminator code points |
| Text.Trim | app.js:126 | the trimmed query is empty exactly when the input is all whitespace; otherwise it neither starts nor ends with whitespace; it is a slice of the input with only whitespace cut off on either side |
| Text.ContainsOccurs | app.js:138 | a query the scan finds occurs as a contiguous slice of the text |
| Text.OccursContains | app.js:138 | the scan finds every contiguous occurrence of the query |
| Text.ContainsIffOccurs | app.js:138 | `includes` holds exactly when the query occurs as a contiguous slice of the text |
| Text.ReplaceFirst | app.js:232 | `replace('_', ' ')` keeps the length and changes only the position of the first `_`, leaving any later `_` in place |
| Text.ReplaceFirstFlyAsh | app.js:232 | `fly_ash_siliceous` becomes `fly ash_siliceous`, not `fly ash siliceous` |
| Text.ReplaceFirstChars | app.js:232 | every character of a replaced name other than the space came from the name |
| Text.ReplaceFirstUndo | app.js:232 | for a name without spaces, replacing the first space back by `_` restores the name |
| Text.SplitJoin | app.js:233 | parts joined with a separator whose first character occurs in none of them split back into the same parts, in order |
| Details.ListItems | app.js:217 | each application wrapped in `<li>` and `</li>`, in catalog order, concatenated with no separator |
| Details.ComponentText | app.js:232 | one composition entry as `${key.replace('_', ' ')}: ${value}` |
| Details.ComponentTexts | app.js:231-232 | `Object.entries(composition).map(...)`: one text per entry, in insertion order, as many texts as entries |
| Details.CompositionText | app.js:231-233 | the composition entries in insertion order, joined by ", " |
| Details.SubtypeItems | app.js:227-236 | the grid has one item per subtype, with the subtype names in insertion order |
| Details.Render | app.js:197-247 | the content has five sections, or six with subtypes; the subtype grid is present exactly when `subtypes` is not null, at position 4, with one item per subtype in order; the attribution is always last |
| Details.ListItemsAsJoin | app.js:217 | the applications markup is one `<li>` per application, in catalog order |
| Details.ListItemsDecode | app.js:217 | applications without `<` are read back from their markup exactly |
| Details.ComponentDecode | app.js:232 | a rendered component `material: range` reads back as the component, and contains no comma |
| Details.ComponentsDecode | app.js:231-233 | the rendered components of a composition read back as the composition, in order |
| Details.CompositionDecode | app.js:231-233 | the comma-joined composition text reads back as the composition, in insertion order |
| Details.SubtypesDecode | app.js:227-236 | the grid items read back as the subtypes, names and compositions, in insertion order |
| Details.RenderDecode | app.js:195-247 | the title and the content determine the family they were rendered from |
| Details.CatalogRenderable | app.js:6-64 | every catalog family meets the character restrictions of the round trip |
| Details.CemIIIGridOrder | app.js:36-40 | the CEM III grid lists CEM III/A, III/B and III/C, in that order |
| Modal.Modal.constructor | app.js:178-180 | the modal is wired to the catalog, whose every family renders without loss |
| Modal.Modal.ShowCementDetails | app.js:191-252 | an unknown key changes nothing; a known key sets the title to the family's name and the content to its rendering, which reads back as the family, removes `hidden` and sets overflow to "hidden" |
| Modal.Modal.CloseModal | app.js:254-257 | the modal is hidden and overflow is "", title and content kept |
| Modal.Modal.OnModalClick | app.js:261-265 | a click on the backdrop itself closes the modal; a click inside it changes nothing |
| Modal.Modal.IsOpen | app.js:268 | the modal is open exactly when its class list lacks "hidden" |
| Modal.Modal.OnKeyDown | app.js:267-271 | Escape closes an open modal; Escape on a closed modal and every other key change nothing |
| Modal.FocusTrap | app.js:526-539 | focus is moved exactly on Shift+Tab from the first focusable element (to the last) and on Tab from the last (to the first); otherwise the default applies |
| Modal.FocusTrapWraps | app.js:531-537 | the forward wrap lands on the first element and the backward wrap on the last |
| Search.IsSearchable | app.js:133 | the selector `h1, h2, h3, h4, p, li` and the four card classes |
| Search.NormalizeQuery | app.js:126 | the query is the input lower-cased, then trimmed |
| Search.Matches | app.js:137-138 | a scanned element matches when its lower-cased `textContent` includes the query and it lacks `attribution` |
| Search.Cleared | app.js:162-166 | no element is highlighted afterwards, and everything else of every element is kept |
| Search.MatchesIgnoreHighlights | app.js:138 | whether an element matches does not depend on its highlight |
| Search.Highlighted | app.js:136-144 | the scanning pass adds the highlight to each matching element and leaves the others as they are |
| Search.AfterSearch | app.js:130-144 | the page after a non-empty search: cleared, then highlighted |
| Search.HighlightsExactlyMatches | app.js:130-144 | after a search an element is highlighted exactly when it is searchable, its lower-cased text contains the query and it lacks `attribution`; nothing else of any element changes |
| Search.SearchIgnoresOldHighlights | app.js:130 | the highlights before a search do not affect its result |
| Search.SearchIdempotent | app.js:125-153 | searching again for the same query changes nothing more |
| Search.FirstMatch | app.js:134-144 | the scroll target is the lowest-index match, and there is none exactly when nothing matches |
| Search.FirstMatchCleared | app.js:130-144 | clearing the highlights does not move the first match |
| Search.EmptyQueryIffBlank | app.js:126-127 | the query is empty exactly when the input is all whitespace |
| Search.ClearHighlights | app.js:162-166 | the page becomes the cleared page |
| Search.HighlightMatches | app.js:134-144 | the loop highlights exactly the matches and returns the first one |
| Search.PerformSearch | app.js:125-153 | a blank query changes nothing and has no target; otherwise the page is cleared then highlighted and the target is the first match |
| Search.ExpireHighlight | app.js:157-159 | the timer removes the highlight of its one element and changes nothing else |
| Search.SearchTerms | app.js:426-430 | the fourteen suggestion terms of `searchTerms`, in their order |
| Search.FilterTerms | app.js:435-437 | a term is kept exactly when it contains the value and is not equal to it, and no more terms come out than went in |
| Search.FilterTermsAppend | app.js:435-437 | the filter keeps the terms' order |
| Search.Suggestions | app.js:432-439 | suggestions exist exactly for input whose `length` (UTF-16 code units) exceeds two, and are then the terms containing the lower-cased input and not equal to it |
| Search.ToLowerUtf16Length | app.js:433-434 | lower-casing keeps the `length` |
| Search.AstralInputFilters | app.js:434 | an emoji followed by a letter is long enough for the filter to run |
| Search.SuggestSlag | app.js:426-437 | among the script's terms, "sla" suggests "slag", and typing "slag" itself no longer suggests it |
| Tabs.IsTabButton | app.js:276 | the selector `.tab-btn`: the element has the class `tab-btn` |
| Tabs.IsTabPanel | app.js:277 | the selector `.tab-content`: the element has the class `tab-content` |
| Tabs.PanelId | app.js:281-289 | the panel id a button selects is its `data-tab` value followed by "-tab", with "null" for a missing attribute |
| Tabs.ActivateButton | app.js:284-285 | every button loses `active`, then the clicked one gains it |
| Tabs.ShowPanel | app.js:288-294 | a panel with the selected id loses `hidden`, every other panel gains it |
| Tabs.AfterTabClick | app.js:281-294 | the page after a click: the button loop, then the panel loop |
| Tabs.TabClickEffect | app.js:281-294 | the clicked button is the only active button; a panel is hidden exactly when its id is not `target + "-tab"`; other elements are unchanged; a button changes only in `active` and a panel only in `hidden`, unless it is both |
| Tabs.ExactlyOnePanelVisible | app.js:288-294 | with distinct panel ids and an existing target panel, that panel is the only visible one |
| Tabs.UnknownTargetHidesAll | app.js:288-294 | a target with no panel leaves every panel hidden |
| Tabs.TabClickIdempotent | app.js:280-295 | clicking the same button twice is the same as once |
| Tabs.OnTabClick | app.js:279-296 | the button loop, then the panel loop, leave the page as `AfterTabClick` |
| Navigation.IsNavLink | app.js:76 | the selector `.nav-link`: the element has the class `nav-link` |
| Navigation.IsSection | app.js:77 | the selector `.section`: the element has the class `section` |
| Navigation.InView | app.js:104-106 | a box is in view when `top - 100 <= scrollY < top - 100 + height` |
| Navigation.SectionInView | app.js:103-106 | the section loop's test for the element at one index: it is a `.section` and its box, raised by 100 pixels, holds `scrollY` |
| Navigation.LastInView | app.js:102-109 | the chosen section is the last one in document order with `top - 100 <= scrollY < top - 100 + height`, and there is none exactly when no section is in view |
| Navigation.CurrentSection | app.js:102-109 | `current` is "" when no section is in view, otherwise the `id` attribute (possibly null) of the last one |
| Navigation.MarkLinks | app.js:111-116 | every link loses `active` and regains it when its `href` equals `#${current}` |
| Navigation.AfterScroll | app.js:101-117 | the page after a scroll: the links marked for the current section |
| Navigation.ScrollEffect | app.js:101-117 | a link is active exactly when its href is `#` followed by the current id, which is `#` alone when no section is in view; non-links are unchanged, and links change only in `active` |
| Navigation.ScrollMarksAtMostOne | app.js:111-116 | two links with different hrefs are never both active after a scroll |
| Navigation.OnScroll | app.js:101-117 | the section loop yields the current id and the link loop leaves the page as `AfterScroll` |
| Navigation.Fragment | app.js:83 | `substring(1)`: the href without its first character |
| Navigation.NavTargetExists | app.js:83-86 | a click acts when the href is not null and some element has the fragment as its id |
| Navigation.ActivateLink | app.js:88-89 | every link loses `active`, then the clicked one gains it |
| Navigation.AfterNavClick | app.js:82-97 | the page after a click: links re-marked when the target exists, unchanged otherwise |
| Dom.GetAttribute | app.js:83 | `getAttribute`: the value, or null when the element has no such attribute |
| Dom.Id | app.js:289 | the `id` property: the `id` attribute's value, or "" when the element has none |
| Dom.HasClass | app.js:138 | `classList.contains`: the class is in the element's class set |
| Dom.AddClass | app.js:156 | `classList.add`: the class set gains the class, and nothing else of the element changes |
| Dom.RemoveClass | app.js:164 | `classList.remove`: the class set loses the class, and nothing else of the element changes |
| Dom.ElementById | app.js:84 | `getElementById`: the first element in document order that carries the id, none exactly when no element does or the id is "" |
| Dom.HasElementWithId | app.js:84 | `getElementById` finds an element: the id is not "" and some element carries it |
| Dom.Interpolate | app.js:113 | a value placed in a template string, with null written as "null" |
| Navigation.NavClickEffect | app.js:81-97 | with a null href or a missing target nothing changes; otherwise the clicked link is the only active link, and only link activity changes |
| Navigation.BareHashIsNoop | app.js:83-86 | a link with href "#" changes nothing, because `getElementById('')` finds no element |
| Navigation.NavClickIdempotent | app.js:81-97 | clicking the same link twice is the same as once |
| Navigation.OnNavClick | app.js:80-98 | the handler leaves the page as `AfterNavClick`; it returns a scroll target exactly when the href is not null and the fragment names an element, and that target is the element `getElementById` finds |

## Left out

- Chart construction (app.js:300-363) is a call into Chart.js, driven by floating-point constants.
- Browser animation and observer plumbing is left out (app.js:366-422, app.js:485-513). That covers the IntersectionObserver fade-in, the hover transforms, the constituent pulse, image lazy-loading and the scroll throttle.
- Clocks are left out:
  - The 3-second highlight removal is the explicit operation `Search.ExpireHighlight`, with no timer.
  - The 500 ms "Loading..." label of the detail buttons (app.js:443-456) and the unused `debounce` (app.js:460-470) are not modelled.
- Effects without state in the model are left out: the smooth `scrollIntoView` (app.js:147-151 and app.js:92-95; the element scrolled to is the returned index of `Search.PerformSearch` and `Navigation.OnNavClick`), the ARIA labels (app.js:541-545) and the theme `console.log` (app.js:473-480).
- HTML is not parsed. The modal's content is a list of sections, not an `innerHTML` string. The elements that content creates do not join the modelled page, so the search does not see them.
- The modal element and its title element `#modalTitle` (app.js:178-179) are the fields of `Modal.Modal`, kept apart from the `Dom.Document` page that the search, tab and nav handlers work on. A search therefore never scans the title that `showCementDetails` wrote (app.js:195), nor the modal's own classes.
- An element's `textContent` is a field of its record; how it derives from child elements is not modelled.
- Text.ToLower: lower-cases ASCII letters only, not the full Unicode mapping of `toLowerCase`.
- `trim` is modelled on the ECMAScript WhiteSpace and LineTerminator characters listed in `Text.IsSpace`. The Unicode category Zs is taken as the characters listed there.
- Catalog.Lookup: covers the table's own keys only. `cementData[type]` also finds inherited `Object.prototype` members such as "constructor". The model treats those keys as unknown, as if the record were a plain dictionary. For such a key the script first sets the title to the member's `name` (app.js:195; "Object" for "constructor") and then throws a TypeError at app.js:217, because `cement.applications` is undefined, so the modal stays closed with that title; the model leaves the title unchanged.
- Details.RenderDecode: holds only for families whose strings avoid the separators the decoder cuts at:
  - no `<` in an application;
  - no ` `, `,` or `:` in a material;
  - no `,` or `:` in a range.

  `Details.CatalogRenderable` proves that every catalog family meets these restrictions.
- Modal.Modal.ShowCementDetails: the key is a string. A button without `data-cement` passes `null`, which looks up the key "null" and finds nothing.
- Navigation.OnNavClick: `e.preventDefault()` (app.js:82) is not modelled; the browser's own jump to the fragment has no state in the model.
- Navigation.OnScroll: `scrollY`, `offsetTop` and `offsetHeight` are whole numbers. A fractional `scrollY` is not modelled.
- Modal.FocusTrap:
  - The focusable elements are the list collected once when the page is set up (app.js:522-524), passed in as a parameter.
  - The element focused is the result; `preventDefault` is implied by a `Some` result.
- Search.Suggestions: the script computes the suggestions and discards them; the model returns them.
- Text.Contains: compares characters, where `includes` compares UTF-16 code units. For strings without lone surrogates the two agree; lone surrogates cannot be written as Dafny characters and are not modelled.
- Navigation.Fragment: drops the first character, where `substring(1)` drops one code unit. For an href starting with a character above U+FFFF, the script keeps a lone low surrogate, which a Dafny character cannot hold. Such ids are not modelled.
- The element lists the handlers loop over are the page's lists at set-up time; elements added later are not modelled.

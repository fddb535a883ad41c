# YouTube channel tab video filter, modelled in Dafny

The userscript adds a small filter bar to YouTube channel pages. The bar has a text input, a Filter button and a Clear button, and it sits right after the page's last channel tab. It hides every video entry whose title does not contain all the words typed into the input.

- **Query.** The committed query is kept in a single variable, `currentQuery`.
- **Matching.** The query is split on whitespace into tokens. A title matches when its lower-cased text contains every lower-cased token as a substring. An empty query matches every title.
- **Title.** An entry's title is the trimmed text of its title element. If that text is blank, the element's `title` attribute is used instead. An entry with no title element has the empty title.
- **Re-application.** After each batch of child-list changes under `document.body` (nodes inserted or removed anywhere below it; attribute and text changes, including the script's own `style.display` writes, do not trigger it), and 600 ms after each `yt-navigate-finish` event, the script puts the bar back if it is missing and the last channel tab is present. If a query is committed, it also filters the entries present at that moment.

The project has six modules:

- `Text` (`text.dfy`) covers whitespace, ASCII lower-casing, `trim` and `includes`, with the properties later proofs need.
- `Matcher` (`matcher.dfy`) covers the tokenizer `split(/\s+/).filter(Boolean)` and `matches`, with its algebra: token order and repetition do not matter, case does not matter, appending a token narrows the match, and trimming changes nothing.
- `Items` (`items.dfy`) covers video entries, `getTitleText`, and the visibility one filter pass produces (`Filtered`), with its laws: the last pass wins, a pass is idempotent, a blank query shows all, and untitled entries are hidden by any token.
- `Script` (`controller.dfy`) holds the class `Controller`. Its fields are the page state the script reads and sets: the committed query, the input's value, the number of filter bars on the page, whether the anchor tab is present, and the array of entries. Its methods are `applyFilter`, `attachUI`, the three event handlers and the page-change callback. The invariant `Valid` says the bar is on the page at most once; every method keeps it. The predicate `InSync` says every entry's visibility is what the committed query gives it: the Filter button, the Enter key and the Clear button establish it, and the page-change callback preserves it (and establishes it when a query is committed). It is not an invariant, since the host page can add entries at any time.
- `Examples` (`examples.dfy`) holds worked cases, e.g. "widget review" against "Review: Widget Pro", "widgets" against "Widget Pro", and "cat video" against two titles.
- `Scenarios` (`scenarios.dfy`) holds event sequences applied to a `Controller` and verified.

Two consequences of the script as written:

- **A navigation keeps the query.** The `yt-navigate-finish` callback (youtube-filter.js:116-121) runs the same re-attach-and-refilter step as the observer, so a navigation never resets `currentQuery`.
- **A recreated bar starts empty.** `attachUI` never sets the new input's value (youtube-filter.js:31-33), so a recreated bar starts with an empty input while the committed query stays active (`Scenarios.BarRecreatedKeepsQuery`).

Whitespace and letter case are ASCII only (see "Left out").

## Model

| member | source | states |
|---|---|---|
| Text.IsSpace | youtube-filter.js:58 | The whitespace class shared by `trim` and by `\s` (line 93), restricted to ASCII: a character is whitespace exactly when it is space, tab, line feed, vertical tab, form feed or carriage return |
| Text.LowerChar | youtube-filter.js:94-95 | An ASCII capital becomes its small letter; every other character is unchanged; lower-casing maps whitespace to whitespace and nothing else to whitespace |
| Text.Lower | youtube-filter.js:94-95 | Lower-casing keeps the length and lower-cases each character in place |
| Text.LowerIdempotent | youtube-filter.js:94-95 | Lower-casing an already lower-cased string changes nothing |
| Text.Trim | youtube-filter.js:58 | The trimmed string neither starts nor ends with whitespace, and it is empty exactly when the input is all whitespace |
| Text.TrimParts | youtube-filter.js:58 | The input is the trimmed string with a run of whitespace before it and another after it, so trimming removes only whitespace and only at the ends |
| Text.TrimTrimmed | youtube-filter.js:58 | A string without whitespace at either end is left unchanged by trimming |
| Text.TrimIdempotent | youtube-filter.js:58 | Trimming twice gives the same result as trimming once |
| Text.Includes | youtube-filter.js:95 | `includes` is true exactly when the needle occurs as a contiguous substring at some index (the empty needle occurs everywhere) |
| Matcher.Tokens | youtube-filter.js:93 | Every token is non-empty and contains no whitespace, and a query has no tokens exactly when it is all whitespace |
| Matcher.TokensSplitAtSpace | youtube-filter.js:93 | A whitespace character separates the tokens before it from those after it: the tokens of `a + ws + b` are the tokens of `a` followed by those of `b` |
| Matcher.TokensTrim | youtube-filter.js:93 | Trimming a query leaves its tokens unchanged |
| Matcher.TokensLower | youtube-filter.js:93-94 | Lower-casing the query lower-cases each token and keeps their number and order |
| Matcher.TokensOfWord | youtube-filter.js:93 | A non-empty string without whitespace is its own single token |
| Matcher.Every | youtube-filter.js:95 | `every(includes)` is true exactly when each lower-cased token occurs in the lower-cased title |
| Matcher.Matches | youtube-filter.js:91-96 | A title matches exactly when every lower-cased token of the query occurs as a substring of the lower-cased title |
| Matcher.WhitespaceQueryMatchesAll | youtube-filter.js:92-95 | An empty or whitespace-only query matches every title |
| Matcher.EmptyTitleMatchesIff | youtube-filter.js:91-96 | The empty title matches exactly the empty and whitespace-only queries |
| Matcher.MatchesDependsOnTokenSet | youtube-filter.js:93-95 | Two queries with the same set of tokens match the same titles, whatever their order and repetitions |
| Matcher.MatchesLowerQuery | youtube-filter.js:94-95 | Lower-casing the query does not change which titles it matches |
| Matcher.MatchesIgnoresCase | youtube-filter.js:94-95 | Titles and queries that differ only in letter case give the same answer |
| Matcher.MatchesAppendToken | youtube-filter.js:93-95 | `q + " " + w` matches exactly the titles that both `q` and `w` match (AND semantics) |
| Matcher.MatchesTrim | youtube-filter.js:91-96 | Trimming the query does not change which titles it matches |
| Matcher.MatchesWord | youtube-filter.js:91-96 | A one-word query matches exactly the titles that contain the word, ignoring case |
| Items.GetTitleText | youtube-filter.js:85-89 | No title element gives ""; a title text that is not blank gives that text trimmed (never empty); a blank text gives the `title` attribute; the result is empty exactly when there is no element, or the text is blank and the attribute empty |
| Items.Filtered | youtube-filter.js:98-107 | After a pass, every entry keeps its title and is hidden exactly when its title does not match the query |
| Items.FilteredIgnoresVisibility | youtube-filter.js:98-107 | The result of a pass depends only on the titles, not on which entries were hidden before |
| Items.FilteredLastQueryWins | youtube-filter.js:98-107 | A pass with `q1` followed by a pass with `q2` gives the same result as the pass with `q2` alone |
| Items.FilteredIdempotent | youtube-filter.js:98-107 | Two passes with the same query give the same result as one |
| Items.BlankQueryShowsAll | youtube-filter.js:92 | A pass with an empty or whitespace-only query shows every entry |
| Items.UntitledHiddenByAnyToken | youtube-filter.js:86-88 | An entry without a title is hidden by every query that has a token |
| Items.FilteredTrim | youtube-filter.js:57-60 | Filtering with the trimmed input shows the same entries as filtering with the raw input |
| Script.Controller.constructor | youtube-filter.js:14-15 | The script starts with the empty query and no bar on the page |
| Script.Controller.ApplyFilter | youtube-filter.js:98-107 | The entry array afterwards equals `Filtered` of the array before; nothing else changes |
| Script.Controller.FilterEntry | youtube-filter.js:99-106 | The entry at index `i` keeps its title and is hidden exactly when its title does not match; every other entry is unchanged |
| Script.Controller.AttachUI | youtube-filter.js:17-55 | If a bar is already present or the anchor tab is missing, nothing changes. Otherwise exactly one bar appears, with an empty input, and the committed query is unchanged. At most one bar is ever present (`Valid`). |
| Script.Controller.FilterClick | youtube-filter.js:57-60 | The query becomes the trimmed input, and the entries are filtered with it. This gives the same visibility as the raw input, and afterwards the entries are in sync with the query. |
| Script.Controller.KeyDown | youtube-filter.js:68-73 | On "Enter", the same as the Filter button. On any other key, the query and the entries are unchanged. |
| Script.Controller.ClearClick | youtube-filter.js:62-66 | The input and the query become empty, and every entry is shown with its title unchanged |
| Script.Controller.Reconcile | youtube-filter.js:110-121 | The bar is re-inserted only when it is missing and the anchor is present (a new bar has an empty input), and the query is never changed. With a committed query, the entries are filtered with it and end in sync; without one, they are unchanged. Sync is preserved in both cases. |
| Examples.WordAt | youtube-filter.js:91-96 | A one-word query matches a title that contains the word, in any letter case, at a given index |
| Examples.WidgetReviewMatches | youtube-filter.js:91-96 | "widget review" matches "Review: Widget Pro" |
| Examples.WidgetsNoStemming | youtube-filter.js:91-96 | "widgets" does not match "Widget Pro" |
| Examples.CatVideoMissesDogPark | youtube-filter.js:91-96 | "cat video" does not match "Dog park fun" |
| Examples.CatVideoMatchesCompilation | youtube-filter.js:91-96 | "cat video" matches "Funny Cat Videos Compilation" |
| Examples.TitleOfTrimmedText | youtube-filter.js:87 | A title element whose text has no surrounding whitespace yields that text as the title |
| Examples.CatVideoPass | youtube-filter.js:98-107 | One pass with "cat video" hides "Dog park fun" and shows "Funny Cat Videos Compilation", whatever their visibility was before |
| Examples.TrimPadded | youtube-filter.js:58 | Trimming "  cat " gives "cat" |
| Scenarios.AttachTwice | youtube-filter.js:18 | Calling `attachUI` twice with the anchor present leaves exactly one bar |
| Scenarios.NoAnchorNoBar | youtube-filter.js:21-22 | Without the anchor tab, a page change inserts no bar |
| Scenarios.EnterFilters | youtube-filter.js:68-73 | Typing "cat video" and pressing Enter commits that query, hides "Dog park fun" and shows "Funny Cat Videos Compilation" |
| Scenarios.ClearAfterFilter | youtube-filter.js:62-66 | Clear after that filter empties the input and the query and shows both entries |
| Scenarios.FilterTrimsInput | youtube-filter.js:58 | The Filter button commits "  cat " as "cat" and leaves the input's text as typed |
| Scenarios.BarRecreatedKeepsQuery | youtube-filter.js:110-113 | When the page drops the bar and replaces the entries, the next page change puts back a bar with an empty input, keeps the committed query, and leaves the new entries filtered with it |

## Left out

- Text.IsSpace: whitespace is space plus the code points 9 to 13 only. JavaScript's `trim` and `\s` also treat the no-break space, the line and paragraph separators, the byte-order mark and the other Unicode space separators as whitespace.
- Text.LowerChar: only the ASCII capitals A–Z are lower-cased. `toLowerCase` also maps the rest of Unicode, including mappings that change a string's length.
- Element lookup by selector is not modelled. The model is given the result: which page elements are entries (youtube-filter.js:99) and which element inside an entry is its title element (youtube-filter.js:86). The entries are the `items` array and `Items.Item.titleEl`.
- The bar's construction, styling and placement are not modelled (youtube-filter.js:24-55, 76-83). These include the element styles, the placeholder, `styleBtn`, and insertion right after the anchor tab. The bar is represented only by how many elements carry its id and by its input's value.
- Inline styles other than hiding are not modelled. `item.style.removeProperty('display')` also removes any other inline `display` value an entry had. The model's `hidden` flag does not capture that.
- Timing and event delivery are not modelled. This covers the `MutationObserver` registration (youtube-filter.js:114), the `yt-navigate-finish` listener and its 600 ms delay (youtube-filter.js:116-117), and how events are queued. `Script.Controller.Reconcile` is the callback's body; a scenario stands for a trigger by calling it.
- Script.Controller.FilterClick, Script.Controller.KeyDown and Script.Controller.ClearClick require a bar to be on the page, because their listeners are attached to the bar's elements. The model does not track which bar instance a listener belongs to, and listeners of a removed bar are not modelled.
- Typing into the input and the changes the host page makes on its own are not modelled as operations. The input's new text, entries appearing or disappearing, the bar being dropped, and the anchor tab coming and going are written as direct assignments to the controller's fields (see `Scenarios`).
- In `el.textContent.trim() || el.title || ''` (youtube-filter.js:87), for an HTML element `el.title` is a string, so the final `|| ''` changes nothing; for any other element (an SVG element, say) `el.title` is `undefined` and `|| ''` turns it into `''`. The model reads an absent `title` attribute as `titleAttr == ""`, which covers both cases, so `Items.GetTitleText` has no separate branch for it.


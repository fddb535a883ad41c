/**
 The video entries the filter works on, what it reads from each one (its
 title), and the visibility every entry has once the filter has run over all
 of them.
 */
module Items {
  import opened Text
  import opened Matcher

  datatype Option<T> = None | Some(value: T)

  /** The element an entry's title is read from: its text content and its
      `title` attribute (the empty string when the attribute is absent). */
  datatype TitleElement = TitleElement(text: string, titleAttr: string)

  /** One rendered video entry. `titleEl` is the first match of the title
      selectors inside it, if any; `hidden` is whether its inline style says
      `display: none`. */
  datatype Item = Item(titleEl: Option<TitleElement>, hidden: bool)

  /** `getTitleText(item)`: the element's trimmed text, or its `title`
      attribute when that text is blank, or the empty string when the entry
      has no title element. */
  function GetTitleText(item: Item): (r: string)
    ensures item.titleEl.None? ==> r == ""
    ensures item.titleEl.Some? && !AllSpace(item.titleEl.value.text) ==> r == Trim(item.titleEl.value.text) != ""
    ensures item.titleEl.Some? && AllSpace(item.titleEl.value.text) ==> r == item.titleEl.value.titleAttr
    ensures r == "" <==> item.titleEl.None? || (AllSpace(item.titleEl.value.text) && item.titleEl.value.titleAttr == "")
  {
    match item.titleEl
    case None => ""
    case Some(el) =>
      var text := Trim(el.text);
      if text != "" then text
      else if el.titleAttr != "" then el.titleAttr
      else ""
  }

  /** The entry as one pass of the filter leaves it. */
  function Refiltered(item: Item, query: string): Item {
    item.(hidden := !Matches(GetTitleText(item), query))
  }

  /** The entries after the filter has run over all of them with `query`:
      each keeps its title and is hidden exactly when its title does not match. */
  function Filtered(items: seq<Item>, query: string): (r: seq<Item>)
    ensures |r| == |items|
    ensures forall k :: 0 <= k < |items| ==>
      r[k].titleEl == items[k].titleEl && r[k].hidden == !Matches(GetTitleText(items[k]), query)
  {
    seq(|items|, k requires 0 <= k < |items| => Refiltered(items[k], query))
  }

  /** What the filter leaves depends on the titles alone, not on which entries
      were hidden before. */
  lemma FilteredIgnoresVisibility(a: seq<Item>, b: seq<Item>, query: string)
    requires |a| == |b| && forall k :: 0 <= k < |a| ==> a[k].titleEl == b[k].titleEl
    ensures Filtered(a, query) == Filtered(b, query)
  {
    var fa, fb := Filtered(a, query), Filtered(b, query);
    forall k | 0 <= k < |a| ensures fa[k] == fb[k] {
      assert GetTitleText(a[k]) == GetTitleText(b[k]);
    }
  }

  /** Only the last pass counts: filtering with one query and then another
      leaves what filtering with the second alone leaves. */
  lemma FilteredLastQueryWins(items: seq<Item>, q1: string, q2: string)
    ensures Filtered(Filtered(items, q1), q2) == Filtered(items, q2)
  {
    FilteredIgnoresVisibility(Filtered(items, q1), items, q2);
  }

  /** Running the filter twice with the same query is the same as once. */
  lemma FilteredIdempotent(items: seq<Item>, query: string)
    ensures Filtered(Filtered(items, query), query) == Filtered(items, query)
  {
    FilteredLastQueryWins(items, query, query);
  }

  /** An empty or whitespace-only query shows every entry. */
  lemma BlankQueryShowsAll(items: seq<Item>, query: string)
    requires AllSpace(query)
    ensures forall k :: 0 <= k < |items| ==> !Filtered(items, query)[k].hidden
  {
    forall k | 0 <= k < |items| ensures Matches(GetTitleText(items[k]), query) {
      WhitespaceQueryMatchesAll(GetTitleText(items[k]), query);
    }
  }

  /** An entry without a title (no title element, or a blank text and no
      `title` attribute) is hidden by every query that has a token. */
  lemma UntitledHiddenByAnyToken(items: seq<Item>, query: string, k: nat)
    requires k < |items| && !AllSpace(query)
    requires items[k].titleEl.None? || (AllSpace(items[k].titleEl.value.text) && items[k].titleEl.value.titleAttr == "")
    ensures Filtered(items, query)[k].hidden
  {
    EmptyTitleMatchesIff(query);
  }

  /** Trimming the query first, as the Filter button and the Enter key do,
      does not change what the filter shows. */
  lemma FilteredTrim(items: seq<Item>, query: string)
    ensures Filtered(items, Trim(query)) == Filtered(items, query)
  {
    forall k | 0 <= k < |items| ensures Matches(GetTitleText(items[k]), Trim(query)) == Matches(GetTitleText(items[k]), query) {
      MatchesTrim(GetTitleText(items[k]), query);
    }
  }
}

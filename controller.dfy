/**
 The userscript's state and its event handlers: the committed query, the
 filter bar (an input with a Filter and a Clear button) inserted after the
 channel page's last tab, and the video entries whose visibility the filter
 sets.
 */
module Script {
  import opened Text
  import opened Matcher
  import opened Items

  class Controller {
    /** `currentQuery`: the last query committed with the Filter button, the
        Enter key or the Clear button. */
    var currentQuery: string
    /** The value of the filter bar's text input. */
    var inputValue: string
    /** How many elements on the page carry the filter bar's fixed id
        (`yt-channel-filter-ui-v2`). */
    var uiCount: nat
    /** Whether the page holds the last channel tab the bar is inserted after. */
    var anchorPresent: bool
    /** The video entries on the page, in document order. */
    var items: array<Item>

    /** The filter bar is on the page at most once. */
    ghost predicate Valid()
      reads this
    {
      uiCount <= 1
    }

    /** Every entry's visibility is what the committed query gives it. */
    ghost predicate InSync()
      reads this, items
    {
      items[..] == Filtered(items[..], currentQuery)
    }

    /** The script as it starts on a page: no query and no filter bar yet. */
    constructor (anchorPresent: bool, items: array<Item>)
      ensures Valid()
      ensures currentQuery == "" && inputValue == "" && uiCount == 0
      ensures this.anchorPresent == anchorPresent && this.items == items
    {
      currentQuery := "";
      inputValue := "";
      uiCount := 0;
      this.anchorPresent := anchorPresent;
      this.items := items;
    }

    /** `applyFilter(query)`: hides each entry whose title does not match
        `query` and shows each entry whose title does. */
    method ApplyFilter(query: string)
      modifies items
      ensures items[..] == Filtered(old(items[..]), query)
    {
      var i := 0;
      while i < items.Length
        invariant 0 <= i <= items.Length
        invariant forall k :: 0 <= k < i ==> items[k] == Refiltered(old(items[k]), query)
        invariant forall k :: i <= k < items.Length ==> items[k] == old(items[k])
      {
        FilterEntry(i, query);
        i := i + 1;
      }
      assert forall k :: 0 <= k < items.Length ==> items[..][k] == Filtered(old(items[..]), query)[k];
    }

    /** The callback `applyFilter` runs on each entry: hides the entry at
        index `i` when its title does not match `query`, shows it otherwise,
        and leaves every other entry alone. */
    method FilterEntry(i: nat, query: string)
      requires i < items.Length
      modifies items
      ensures items[i].titleEl == old(items[i].titleEl)
      ensures items[i].hidden == !Matches(GetTitleText(old(items[i])), query)
      ensures forall k :: 0 <= k < items.Length && k != i ==> items[k] == old(items[k])
    {
      var item := items[i];
      var title := GetTitleText(item);
      if !Matches(title, query) {
        items[i] := item.(hidden := true);
      } else {
        items[i] := item.(hidden := false);
      }
    }

    /** `attachUI()`: does nothing when the bar is already on the page or the
        last tab is not; otherwise inserts the bar, with an empty input. */
    method AttachUI()
      requires Valid()
      modifies this
      ensures Valid()
      ensures currentQuery == old(currentQuery) && anchorPresent == old(anchorPresent) && items == old(items)
      ensures old(uiCount) == 0 && anchorPresent ==> uiCount == 1 && inputValue == ""
      ensures old(uiCount) > 0 || !anchorPresent ==> uiCount == old(uiCount) && inputValue == old(inputValue)
    {
      if uiCount > 0 {
        return;
      }
      if !anchorPresent {
        return;
      }
      uiCount := uiCount + 1;
      inputValue := "";
    }

    /** The Filter button's click handler: commits the trimmed input as the
        query and filters with it. */
    method FilterClick()
      requires uiCount > 0
      modifies this, items
      ensures currentQuery == Trim(old(inputValue))
      ensures inputValue == old(inputValue) && uiCount == old(uiCount)
      ensures anchorPresent == old(anchorPresent) && items == old(items)
      ensures items[..] == Filtered(old(items[..]), currentQuery)
      ensures items[..] == Filtered(old(items[..]), inputValue)
      ensures InSync()
    {
      currentQuery := Trim(inputValue);
      ApplyFilter(currentQuery);
      FilteredTrim(old(items[..]), inputValue);
      FilteredIdempotent(old(items[..]), currentQuery);
    }

    /** The input's keydown handler: on Enter, the same as the Filter button;
        any other key changes nothing. */
    method KeyDown(key: string)
      requires uiCount > 0
      modifies this, items
      ensures key == "Enter" ==> currentQuery == Trim(old(inputValue)) && items[..] == Filtered(old(items[..]), currentQuery)
      ensures key == "Enter" ==> InSync()
      ensures key != "Enter" ==> currentQuery == old(currentQuery) && items[..] == old(items[..])
      ensures inputValue == old(inputValue) && uiCount == old(uiCount)
      ensures anchorPresent == old(anchorPresent) && items == old(items)
    {
      if key == "Enter" {
        FilterClick();
      }
    }

    /** The Clear button's click handler: empties the input and the query and
        shows every entry. */
    method ClearClick()
      requires uiCount > 0
      modifies this, items
      ensures inputValue == "" && currentQuery == ""
      ensures uiCount == old(uiCount) && anchorPresent == old(anchorPresent) && items == old(items)
      ensures items[..] == Filtered(old(items[..]), "")
      ensures forall k :: 0 <= k < items.Length ==> !items[k].hidden && items[k].titleEl == old(items[k].titleEl)
      ensures InSync()
    {
      inputValue := "";
      currentQuery := "";
      ApplyFilter("");
      BlankQueryShowsAll(old(items[..]), "");
      FilteredIdempotent(old(items[..]), "");
    }

    /** The page-change callback (the mutation observer's, and the one run
        after the host page reports a finished navigation): re-inserts the bar
        when it is missing and, when a query is committed, filters again
        with it. */
    method Reconcile()
      requires Valid()
      modifies this, items
      ensures Valid()
      ensures currentQuery == old(currentQuery) && anchorPresent == old(anchorPresent) && items == old(items)
      ensures uiCount == (if old(uiCount) == 0 && anchorPresent then 1 else old(uiCount))
      ensures inputValue == (if old(uiCount) == 0 && anchorPresent then "" else old(inputValue))
      ensures currentQuery != "" ==> items[..] == Filtered(old(items[..]), currentQuery)
      ensures currentQuery == "" ==> items[..] == old(items[..])
      ensures currentQuery != "" ==> InSync()
      ensures old(InSync()) ==> InSync()
    {
      AttachUI();
      if currentQuery != "" {
        ApplyFilter(currentQuery);
        FilteredIdempotent(old(items[..]), currentQuery);
      }
    }
  }
}

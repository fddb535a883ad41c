/**
 Sequences of events on one page, applied to the controller and verified:
 the filter bar is inserted once however often the script tries, a committed
 query survives the page re-rendering its entries, and Clear shows
 everything again. Typing into the input and the changes the host page makes
 on its own (new entries, a removed bar) are written as direct assignments
 to the controller's fields.
 */
module Scenarios {
  import opened Text
  import opened Items
  import opened Examples
  import opened Script

  /** Two attempts in a row leave exactly one filter bar. */
  method AttachTwice(items: array<Item>) returns (c: Controller)
    ensures c.uiCount == 1 && c.Valid()
  {
    c := new Controller(true, items);
    c.AttachUI();
    c.AttachUI();
  }

  /** Without the last channel tab there is nowhere to insert the bar, and
      nothing happens. */
  method NoAnchorNoBar(items: array<Item>) returns (c: Controller)
    modifies items
    ensures c.uiCount == 0 && c.currentQuery == ""
  {
    c := new Controller(false, items);
    c.Reconcile();
  }

  /** The two entries of the worked example, both shown, with the bar on the page. */
  method CatVideoPage() returns (c: Controller)
    ensures fresh(c) && fresh(c.items) && c.uiCount == 1 && c.Valid()
    ensures c.items[..] == [Item(Some(TitleElement("Dog park fun", "")), false),
                            Item(Some(TitleElement("Funny Cat Videos Compilation", "")), false)]
  {
    var items := new Item[2];
    items[0] := Item(Some(TitleElement("Dog park fun", "")), false);
    items[1] := Item(Some(TitleElement("Funny Cat Videos Compilation", "")), false);
    c := new Controller(true, items);
    c.AttachUI();
  }

  /** Typing "cat video" and pressing Enter hides "Dog park fun" and shows
      "Funny Cat Videos Compilation". */
  method EnterFilters() returns (c: Controller)
    ensures fresh(c) && fresh(c.items) && c.currentQuery == "cat video" && c.uiCount == 1
    ensures c.items.Length == 2 && c.items[0].hidden && !c.items[1].hidden
    ensures c.items[0].titleEl == Some(TitleElement("Dog park fun", ""))
    ensures c.items[1].titleEl == Some(TitleElement("Funny Cat Videos Compilation", ""))
  {
    c := CatVideoPage();
    c.inputValue := "cat video";
    CatVideoPass(c.items[..], false, false);
    TrimTrimmed("cat video");
    c.KeyDown("Enter");
  }

  /** Clear after a filtering pass shows both entries and empties the input
      and the query. */
  method ClearAfterFilter() returns (c: Controller)
    ensures c.inputValue == "" && c.currentQuery == ""
    ensures forall k :: 0 <= k < c.items.Length ==> !c.items[k].hidden
    ensures c.items.Length == 2
    ensures c.items[0].titleEl == Some(TitleElement("Dog park fun", ""))
    ensures c.items[1].titleEl == Some(TitleElement("Funny Cat Videos Compilation", ""))
  {
    c := EnterFilters();
    c.ClearClick();
  }

  /** The Filter button commits the input without its surrounding whitespace. */
  method FilterTrimsInput(c: Controller)
    requires c.uiCount == 1
    modifies c, c.items
    ensures c.currentQuery == "cat" && c.inputValue == "  cat "
  {
    c.inputValue := "  cat ";
    TrimPadded("  cat ");
    c.FilterClick();
  }

  /** When the page re-renders, dropping the bar and replacing the entries,
      the next page change puts back a bar with an empty input, keeps the
      committed query, and filters the new entries with it. */
  method BarRecreatedKeepsQuery(c: Controller, rerendered: array<Item>)
    requires c.Valid() && c.uiCount == 1 && c.anchorPresent && c.currentQuery != ""
    modifies c, rerendered
    ensures c.uiCount == 1 && c.inputValue == "" && c.currentQuery == old(c.currentQuery)
    ensures c.items == rerendered && c.InSync()
  {
    c.uiCount := 0;
    c.items := rerendered;
    c.Reconcile();
  }
}

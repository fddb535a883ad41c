/**
 Worked cases of the matcher and of one filter pass, each fact stated on its
 own so that the verifier evaluates one literal string at a time.
 */
module Examples {
  import opened Text
  import opened Matcher
  import opened Items

  /** A one-word query matches a title that holds the word, in any letter
      case, at index `i`; `v` is the title's text there. */
  lemma WordAt(title: string, i: nat, v: string, w: string)
    requires w != [] && NoSpace(w) && Lower(v) == Lower(w)
    requires i + |v| <= |title| && title[i..i + |v|] == v
    ensures Matches(title, w)
  {
    MatchesWord(title, w);
    LowerSlice(title, i, i + |v|);
    assert OccursAt(Lower(title), Lower(w), i);
  }

  /** "widget review" matches "Review: Widget Pro": the tokens may appear in
      any order and in any letter case. */
  lemma WidgetReviewMatches(title: string, query: string)
    requires title == "Review: Widget Pro" && query == "widget review"
    ensures Matches(title, query)
  {
    assert query == "widget" + " " + "review";
    MatchesAppendToken(title, "widget", "review");
    WidgetInReview(title);
    ReviewInReview(title);
  }

  lemma WidgetInReview(title: string)
    requires title == "Review: Widget Pro"
    ensures Matches(title, "widget")
  {
    WidgetInReviewSlice(title);
    assert NoSpace("widget") && Lower("Widget") == Lower("widget");
    WordAt(title, 8, "Widget", "widget");
  }

  lemma WidgetInReviewSlice(title: string)
    requires title == "Review: Widget Pro"
    ensures title[8..14] == "Widget"
  {
  }

  lemma ReviewInReview(title: string)
    requires title == "Review: Widget Pro"
    ensures Matches(title, "review")
  {
    ReviewInReviewSlice(title);
    assert NoSpace("review") && Lower("Review") == Lower("review");
    WordAt(title, 0, "Review", "review");
  }

  lemma ReviewInReviewSlice(title: string)
    requires title == "Review: Widget Pro"
    ensures title[0..6] == "Review"
  {
  }

  /** "widgets" does not match "Widget Pro": a token must occur whole, there
      is no stemming. */
  lemma WidgetsNoStemming(title: string, query: string)
    requires title == "Widget Pro" && query == "widgets"
    ensures !Matches(title, query)
  {
    assert NoSpace(query);
    assert Lower(query) == query;
    MatchesWord(title, query);
    LowerWidgetPro(title);
    NoWidgets(Lower(title), query);
  }

  lemma LowerWidgetPro(title: string)
    requires title == "Widget Pro"
    ensures Lower(title) == "widget pro"
  {
  }

  lemma NoWidgets(hay: string, w: string)
    requires hay == "widget pro" && w == "widgets"
    ensures !Occurs(hay, w)
  {
    forall i | 0 <= i && i + 7 <= |hay| ensures !OccursAt(hay, w, i) {
      assert hay[i..i + 7][6] == hay[i + 6];
    }
  }

  /** "cat video" does not match "Dog park fun", which has no "cat". */
  lemma CatVideoMissesDogPark(title: string)
    requires title == "Dog park fun"
    ensures !Matches(title, "cat video")
  {
    assert "cat video" == "cat" + " " + "video";
    MatchesAppendToken(title, "cat", "video");
    CatNotInDogPark(title);
  }

  lemma CatNotInDogPark(title: string)
    requires title == "Dog park fun"
    ensures !Matches(title, "cat")
  {
    NoSpaceInCat("cat");
    MatchesWord(title, "cat");
    LowerDogPark(title);
    NoCat(Lower(title), "cat");
  }

  lemma NoSpaceInCat(w: string)
    requires w == "cat"
    ensures w != [] && NoSpace(w) && Lower(w) == w
  {
  }

  lemma LowerDogPark(title: string)
    requires title == "Dog park fun"
    ensures Lower(title) == "dog park fun"
  {
  }

  lemma NoCat(hay: string, w: string)
    requires hay == "dog park fun" && w == "cat"
    ensures !Occurs(hay, w)
  {
    forall i | 0 <= i && i + 3 <= |hay| ensures !OccursAt(hay, w, i) {
      assert hay[i..i + 3][0] == hay[i];
    }
  }

  /** "cat video" matches "Funny Cat Videos Compilation". */
  lemma CatVideoMatchesCompilation(title: string)
    requires title == "Funny Cat Videos Compilation"
    ensures Matches(title, "cat video")
  {
    assert "cat video" == "cat" + " " + "video";
    MatchesAppendToken(title, "cat", "video");
    CatInCompilation(title);
    VideoInCompilation(title);
  }

  lemma CatInCompilation(title: string)
    requires title == "Funny Cat Videos Compilation"
    ensures Matches(title, "cat")
  {
    CatInCompilationSlice(title);
    assert NoSpace("cat") && Lower("Cat") == Lower("cat");
    WordAt(title, 6, "Cat", "cat");
  }

  lemma CatInCompilationSlice(title: string)
    requires title == "Funny Cat Videos Compilation"
    ensures title[6..9] == "Cat"
  {
  }

  lemma VideoInCompilation(title: string)
    requires title == "Funny Cat Videos Compilation"
    ensures Matches(title, "video")
  {
    VideoInCompilationSlice(title);
    assert NoSpace("video") && Lower("Video") == Lower("video");
    WordAt(title, 10, "Video", "video");
  }

  lemma VideoInCompilationSlice(title: string)
    requires title == "Funny Cat Videos Compilation"
    ensures title[10..15] == "Video"
  {
  }

  /** The title read from an entry whose title element's text is already
      trimmed is that text. */
  lemma TitleOfTrimmedText(item: Item)
    requires item.titleEl.Some? && item.titleEl.value.text != []
    requires !IsSpace(item.titleEl.value.text[0]) && !IsSpace(item.titleEl.value.text[|item.titleEl.value.text| - 1])
    ensures GetTitleText(item) == item.titleEl.value.text
  {
    TrimTrimmed(item.titleEl.value.text);
  }

  /** One pass with "cat video" over the two entries hides the first and
      shows the second, whatever their visibility was before. */
  lemma CatVideoPass(items: seq<Item>, h0: bool, h1: bool)
    requires items == [Item(Some(TitleElement("Dog park fun", "")), h0),
                       Item(Some(TitleElement("Funny Cat Videos Compilation", "")), h1)]
    ensures Filtered(items, "cat video")[0].hidden
    ensures !Filtered(items, "cat video")[1].hidden
  {
    TitleOfTrimmedText(items[0]);
    TitleOfTrimmedText(items[1]);
    CatVideoMissesDogPark(items[0].titleEl.value.text);
    CatVideoMatchesCompilation(items[1].titleEl.value.text);
  }

  /** Trimming drops the whitespace around a word. */
  lemma TrimPadded(s: string)
    requires s == "  cat "
    ensures Trim(s) == "cat"
  {
    assert SkipSpace(s, 2) == 2;
    assert SkipSpace(s, 1) == 2;
    assert SkipSpace(s, 0) == 2;
    assert SkipSpaceBack(s, 2, 5) == 5;
    assert SkipSpaceBack(s, 2, 6) == 5;
    assert s[2..5] == "cat";
  }
}

/**
 * The per-page extraction step of `parse_review_urls_of_hotel`
 * (tripadvisor-scrapper.py), over an abstract page.
 *
 * A page is what `soup.find('div', attrs={'data-test-target': 'reviews-tab'})`
 * finds: the reviews container, if there is one, as the sequence of its
 * direct children.  A child is either an element tag, which records the
 * values of its `class` attribute (if it has one) and the text of its first
 * `q` element (if it has one), or a text node (such as the whitespace
 * between two tags), on which `has_attr` does not exist.
 */
module Pages {
  import opened Wrappers

  datatype Child =
    | Tag(classes: Option<seq<string>>, quote: Option<string>)
    | Text

  datatype Page = Page(reviewsTab: Option<seq<Child>>)

  /** Why a page breaks the extraction: there is no reviews container
      (iterating over None raises TypeError), the child at position `child`
      is a text node (a string has no `has_attr`, so AttributeError), or the
      review entry at position `child` has no `q` element (`None.text`
      raises AttributeError). */
  datatype ExtractError = NoReviewsTab | NotATag(child: nat) | NoQuote(child: nat)

  /** The site-specific marker of a review entry: a `class` attribute with
      exactly two values. */
  predicate IsReviewEntry(c: Child)
  {
    c.Tag? && c.classes.Some? && |c.classes.value| == 2
  }

  /** The inner loop over the children of the container, as a function of
      the children seen so far. */
  function Scan(cs: seq<Child>): Result<seq<string>, ExtractError>
    decreases |cs|
  {
    if cs == [] then Ok([])
    else
      match Scan(cs[..|cs| - 1])
      case Err(e) => Err(e)
      case Ok(texts) =>
        var c := cs[|cs| - 1];
        if c.Text? then Err(NotATag(|cs| - 1))
        else if !IsReviewEntry(c) then Ok(texts)
        else if c.quote.None? then Err(NoQuote(|cs| - 1))
        else Ok(texts + [c.quote.value])
  }

  /** The texts one page contributes, or why it cannot: a missing container
      is its own error, and no other error names it. */
  function Extract(page: Page): (r: Result<seq<string>, ExtractError>)
    ensures r == Err(NoReviewsTab) <==> page.reviewsTab.None?
  {
    match page.reviewsTab
    case None => Err(NoReviewsTab)
    case Some(cs) => ScanFailsAtFirst(cs); Scan(cs)
  }

  /** Reference definition: the positions of the review entries, in document order. */
  function ReviewIndices(cs: seq<Child>): (idx: seq<nat>)
    ensures forall m :: 0 <= m < |idx| ==> idx[m] < |cs| && IsReviewEntry(cs[idx[m]])
    ensures forall m, n :: 0 <= m < n < |idx| ==> idx[m] < idx[n]
    ensures forall i :: 0 <= i < |cs| && IsReviewEntry(cs[i]) ==> i in idx
    decreases |cs|
  {
    if cs == [] then []
    else
      var init := cs[..|cs| - 1];
      assert forall i :: 0 <= i < |init| ==> init[i] == cs[i];
      ReviewIndices(init) + (if IsReviewEntry(cs[|cs| - 1]) then [|cs| - 1] else [])
  }

  /** A quoteless review entry. */
  predicate Quoteless(c: Child)
  {
    IsReviewEntry(c) && c.quote.None?
  }

  /** A child that makes Scan fail: a text node or a quoteless review entry. */
  predicate Breaks(c: Child)
  {
    c.Text? || Quoteless(c)
  }

  /** The children yield texts exactly when none of them is a text node and
      no review entry lacks a `q`. */
  lemma {:induction false} ScanSucceedsIff(cs: seq<Child>)
    ensures Scan(cs).Ok? <==> forall i :: 0 <= i < |cs| ==> !Breaks(cs[i])
    decreases |cs|
  {
    if cs != [] {
      var init := cs[..|cs| - 1];
      ScanSucceedsIff(init);
      assert forall i :: 0 <= i < |init| ==> init[i] == cs[i];
    }
  }

  /** When Scan succeeds, it yields the first-`q` texts of exactly the review
      entries, one each, in document order. */
  lemma {:induction false} ScanTexts(cs: seq<Child>)
    requires Scan(cs).Ok?
    ensures var texts, idx := Scan(cs).value, ReviewIndices(cs);
      |texts| == |idx| && forall m :: 0 <= m < |texts| ==> cs[idx[m]].quote == Some(texts[m])
    decreases |cs|
  {
    if cs != [] {
      var init := cs[..|cs| - 1];
      ScanTexts(init);
      assert forall i :: 0 <= i < |init| ==> init[i] == cs[i];
    }
  }

  /** When Scan fails, it names the first child that breaks it: a text node
      or a quoteless review entry.  No other error comes out of it. */
  lemma {:induction false} ScanFailsAtFirst(cs: seq<Child>)
    ensures Scan(cs).Err? ==> Scan(cs).error.NotATag? || Scan(cs).error.NoQuote?
    ensures forall i: nat :: Scan(cs) == Err(NotATag(i)) <==>
      i < |cs| && cs[i].Text? && forall h :: 0 <= h < i ==> !Breaks(cs[h])
    ensures forall i: nat :: Scan(cs) == Err(NoQuote(i)) <==>
      i < |cs| && Quoteless(cs[i]) && forall h :: 0 <= h < i ==> !Breaks(cs[h])
    decreases |cs|
  {
    if cs != [] {
      var init := cs[..|cs| - 1];
      ScanFailsAtFirst(init);
      ScanSucceedsIff(init);
      assert forall i :: 0 <= i < |init| ==> init[i] == cs[i];
    }
  }

  /** Once a prefix of the children fails, the whole container fails the same way. */
  lemma {:induction false} ScanFailureIsFinal(cs: seq<Child>, n: nat)
    requires n <= |cs| && Scan(cs[..n]).Err?
    ensures Scan(cs) == Scan(cs[..n])
    decreases |cs| - n
  {
    if n < |cs| {
      assert cs[..n + 1][..n] == cs[..n];
      ScanFailureIsFinal(cs, n + 1);
    } else {
      assert cs[..n] == cs;
    }
  }

  /** Extraction distributes over splitting the container's children. */
  lemma {:induction false} ScanAppend(a: seq<Child>, b: seq<Child>)
    requires Scan(a).Ok? && Scan(b).Ok?
    ensures Scan(a + b) == Ok(Scan(a).value + Scan(b).value)
    decreases |b|
  {
    if b == [] {
      assert a + b == a;
      assert Scan(a).value + Scan(b).value == Scan(a).value;
    } else {
      var initB := b[..|b| - 1];
      assert (a + b)[..|a + b| - 1] == a + initB;
      assert (a + b)[|a + b| - 1] == b[|b| - 1];
      ScanAppend(a, initB);
      var c := b[|b| - 1];
      if IsReviewEntry(c) {
        assert Scan(a).value + Scan(initB).value + [c.quote.value] == Scan(a).value + (Scan(initB).value + [c.quote.value]);
      }
    }
  }

  lemma ScanSingle(c: Child)
    ensures Scan([c]) == if c.Text? then Err(NotATag(0))
                         else if !IsReviewEntry(c) then Ok([])
                         else if c.quote.None? then Err(NoQuote(0))
                         else Ok([c.quote.value])
  {
    var one := [c];
    assert one[..|one| - 1] == [] && one[|one| - 1] == c;
    if c.Tag? && c.quote.Some? {
      assert [] + [c.quote.value] == [c.quote.value];
    }
  }

  /** Three tags of which two carry two class values and one carries
      none give exactly two texts, in document order. */
  lemma TwoOfThree(classes: seq<string>, first: string, second: string)
    requires |classes| == 2
    ensures Scan([Tag(Some(classes), Some(first)), Tag(None, None), Tag(Some(classes), Some(second))])
      == Ok([first, second])
  {
    var cs := [Tag(Some(classes), Some(first)), Tag(None, None), Tag(Some(classes), Some(second))];
    var one, two := cs[..1], cs[..2];
    assert one[..0] == [] && one[0] == cs[0];
    assert [] + [first] == [first];
    assert Scan(one) == Ok([first]);
    assert two[..1] == one && two[1] == cs[1];
    assert Scan(two) == Ok([first]);
    assert cs[..|cs| - 1] == two && cs[|cs| - 1] == cs[2];
    assert IsReviewEntry(cs[2]) && cs[2].quote == Some(second);
    assert [first] + [second] == [first, second];
  }

  /** A text node between two review entries, as the parser produces for the
      line break between two tags, ends the extraction at that node even
      though the entry before it is fine. */
  lemma TextBetweenEntries(classes: seq<string>, first: string, second: string)
    requires |classes| == 2
    ensures Scan([Tag(Some(classes), Some(first)), Text, Tag(Some(classes), Some(second))])
      == Err(NotATag(1))
  {
    var cs := [Tag(Some(classes), Some(first)), Text, Tag(Some(classes), Some(second))];
    var one, two := cs[..1], cs[..2];
    assert one[..0] == [] && one[0] == cs[0];
    assert Scan(one) == Ok([] + [first]);
    assert two[..1] == one && two[1] == Text;
    assert Scan(two) == Err(NotATag(1));
    assert cs[..|cs| - 1] == two;
  }

  /** A page yields texts exactly when it has the reviews container and no
      child of it breaks the inner loop; the texts are then those of its
      review entries, one each, in document order. */
  lemma ExtractSucceedsIff(page: Page)
    ensures Extract(page).Ok? <==> (page.reviewsTab.Some? &&
      forall i :: 0 <= i < |page.reviewsTab.value| ==> !Breaks(page.reviewsTab.value[i]))
    ensures Extract(page).Ok? ==> var cs, idx := page.reviewsTab.value, ReviewIndices(page.reviewsTab.value);
      |Extract(page).value| == |idx| && forall m :: 0 <= m < |idx| ==> cs[idx[m]].quote == Some(Extract(page).value[m])
  {
    if page.reviewsTab.Some? {
      ScanSucceedsIff(page.reviewsTab.value);
      if Extract(page).Ok? {
        ScanTexts(page.reviewsTab.value);
      }
    }
  }
}

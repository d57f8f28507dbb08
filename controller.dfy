/**
 * The page state of dom-manipulation/script.js: the module-level `quotes`
 * array and the `#categorySelect` element, with the operations that change
 * or read them.
 */
module QuoteController {
  import opened Text
  import opened Quotes
  import opened Catalog

  class Controller {
    /** The `quotes` array, in insertion order. */
    var quotes: seq<Quote>
    /** Whether `#categorySelect` is in the document yet. */
    var hasSelect: bool
    /** The values of the selector's options, in document order. */
    var options: seq<string>
    /** `select.value`: the value of the chosen option, "" when none is chosen. */
    var selected: string

    /**
     * Every quote is well formed; once the selector exists it offers "all"
     * followed by the categories of `quotes`, and one of its options is chosen.
     */
    ghost predicate Valid()
      reads this
    {
      && (forall i :: 0 <= i < |quotes| ==> WellFormed(quotes[i]))
      && (hasSelect ==> options == ["all"] + Categories(quotes) && selected in options)
      && (!hasSelect ==> options == [] && selected == "")
    }

    /** The category `showRandomQuote` currently filters on ("" for none). */
    function Filter(): string
      reads this
    {
      ActiveCategory(hasSelect, selected)
    }

    /** The quotes `showRandomQuote` currently draws from. */
    function CurrentPool(): seq<Quote>
      reads this
    {
      Pool(quotes, Filter())
    }

    /** The page as loaded: the four initial quotes and no selector yet. */
    constructor ()
      ensures Valid()
      ensures quotes == InitialQuotes() && !hasSelect
    {
      quotes := InitialQuotes();
      hasSelect := false;
      options := [];
      selected := "";
      InitialQuotesWellFormed();
    }

    /**
     * The selector part of `createAddQuoteForm`: a new select holding only
     * "all", then filled by `populateCategorySelect`.
     */
    method CreateCategorySelect()
      requires Valid() && !hasSelect
      modifies this
      ensures Valid()
      ensures hasSelect && selected == "all" && quotes == old(quotes)
      ensures options == ["all"] + Categories(quotes)
    {
      hasSelect := true;
      options := ["all"];
      selected := "all";
      PopulateCategorySelect();
    }

    /**
     * `populateCategorySelect`: nothing happens without a selector; otherwise
     * its options become "all" followed by the category list, and the value
     * read before the rebuild is assigned back.
     */
    method PopulateCategorySelect()
      modifies this
      ensures quotes == old(quotes) && hasSelect == old(hasSelect)
      ensures !hasSelect ==> options == old(options) && selected == old(selected)
      ensures hasSelect ==> options == ["all"] + Categories(quotes)
      ensures hasSelect ==> selected == RestoredSelection(old(selected), options)
      ensures old(Valid()) ==> Valid() && selected == old(selected)
    {
      if !hasSelect {
        return;
      }
      var previous := selected;
      options := ["all"];
      var categories := Categories(quotes);
      var i := 0;
      while i < |categories|
        invariant 0 <= i <= |categories|
        invariant options == ["all"] + categories[..i]
        invariant quotes == old(quotes) && hasSelect
      {
        options := options + [categories[i]];
        i := i + 1;
      }
      selected := RestoredSelection(previous, options);
      if old(Valid()) {
        assert "" !in categories;
      }
    }

    /**
     * `showRandomQuote`: "no quotes" exactly when the pool is empty; otherwise
     * some quote of the pool, which has the filtered category when there is a
     * filter. In a valid state the pool is empty only when `quotes` is.
     */
    method ShowRandomQuote() returns (d: Display)
      ensures d.NoQuotes? <==> CurrentPool() == []
      ensures d.Shown? ==> d.index < |CurrentPool()|
                           && d.text == CurrentPool()[d.index].text
                           && d.shownCategory == CategoryOrGeneral(CurrentPool()[d.index])
      ensures d.Shown? && Filter() != "" ==> CurrentPool()[d.index].category == Filter()
      ensures !hasSelect || selected == "all" ==> CurrentPool() == quotes
      ensures d.Shown? && hasSelect && selected != "all" && selected != "" ==>
                CurrentPool()[d.index].category == selected
      ensures Valid() && quotes != [] ==> d.Shown?
    {
      var pool := Pool(quotes, Filter());
      if Valid() && quotes != [] && Filter() != "" {
        assert selected in Categories(quotes) && selected != "all";
        OfferedCategoryHasQuotes(quotes, selected);
      }
      if pool == [] {
        return NoQuotes;
      }
      var i :| 0 <= i < |pool|;
      assert pool[i] in pool;
      d := Shown(i, pool[i].text, CategoryOrGeneral(pool[i]));
    }

    /**
     * `quotes.push(q)` followed by `populateCategorySelect()`: the quote is
     * appended, the options gain its category, and the choice is kept.
     */
    method Push(q: Quote)
      requires Valid() && WellFormed(q)
      modifies this
      ensures Valid()
      ensures quotes == old(quotes) + [q]
      ensures hasSelect == old(hasSelect) && selected == old(selected)
    {
      var previous := quotes;
      CategoriesAfterAppend(previous, q);
      quotes := previous + [q];
      forall i | 0 <= i < |quotes| ensures WellFormed(quotes[i]) {
        if i < |previous| {
          assert quotes[i] == previous[i];
        }
      }
      PopulateCategorySelect();
    }

    /**
     * `addQuote`: a blank text is rejected and nothing changes. Otherwise the
     * trimmed text with the normalised category is appended, the selector is
     * rebuilt keeping its choice, and a quote is shown.
     */
    method AddQuote(rawText: string, rawCategory: string) returns (ok: bool, shown: Option<Display>)
      requires Valid()
      modifies this
      ensures Valid()
      ensures ok <==> !AllSpace(rawText)
      ensures ok <==> shown.Some?
      ensures !ok ==> quotes == old(quotes) && options == old(options)
      ensures ok ==> quotes == old(quotes) + [Quote(Trim(rawText), NormalizeCategory(rawCategory))]
      ensures hasSelect == old(hasSelect) && selected == old(selected)
      ensures ok ==> shown.value.Shown? && shown.value.index < |CurrentPool()|
                     && shown.value.text == CurrentPool()[shown.value.index].text
                     && shown.value.shownCategory == CategoryOrGeneral(CurrentPool()[shown.value.index])
      ensures ok && Filter() != "" ==> CurrentPool()[shown.value.index].category == Filter()
    {
      var q := NewQuote(rawText, rawCategory);
      if q.None? {
        return false, None;
      }
      Push(q.value);
      var d := ShowRandomQuote();
      ok, shown := true, Some(d);
    }
  }
}

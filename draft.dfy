/**
 * The earlier draft, dom-manipulation/scrit.js: a `quotes` array with no
 * category filter. Adding needs both fields and keeps the category's case;
 * showing draws from the whole list.
 */
module DraftController {
  import opened Text
  import opened Quotes
  import Catalog

  /** The four quotes the draft page starts with. */
  function DraftInitialQuotes(): seq<Quote> {
    [ Quote("The best way to get started is to quit talking and begin doing.", "Motivation"),
      Quote("Life is what happens when you're busy making other plans.", "Life"),
      Quote("The purpose of our lives is to be happy.", "Happiness"),
      Quote("Don’t let yesterday take up too much of today.", "Motivation") ]
  }

  /** What holds of every entry: some text and a non-empty, trimmed category. */
  predicate DraftWellFormed(q: Quote) {
    q.text != [] && q.category != [] && Trimmed(q.category)
  }

  lemma DraftQuoteWellFormed(q: Quote)
    requires q in DraftInitialQuotes()
    ensures DraftWellFormed(q)
  {
  }

  class Draft {
    /** The `quotes` array, in insertion order. */
    var quotes: seq<Quote>

    ghost predicate Valid()
      reads this
    {
      forall i :: 0 <= i < |quotes| ==> DraftWellFormed(quotes[i])
    }

    constructor ()
      ensures Valid() && quotes == DraftInitialQuotes()
    {
      var initial := DraftInitialQuotes();
      forall i | 0 <= i < |initial| ensures DraftWellFormed(initial[i]) {
        DraftQuoteWellFormed(initial[i]);
      }
      quotes := initial;
    }

    /**
     * `showRandomQuote`: "no quotes" exactly when the list is empty;
     * otherwise some quote of the list, shown with its category as stored.
     */
    method ShowRandomQuote() returns (d: Display)
      ensures d.NoQuotes? <==> quotes == []
      ensures d.Shown? ==> d.index < |quotes|
                           && d.text == quotes[d.index].text
                           && d.shownCategory == quotes[d.index].category
      ensures d.Shown? && Valid() ==> d.text != [] && d.shownCategory != []
    {
      if |quotes| == 0 {
        return NoQuotes;
      }
      var i :| 0 <= i < |quotes|;
      d := Shown(i, quotes[i].text, quotes[i].category);
    }

    /**
     * `addQuote`: rejected, with nothing changed, when either trimmed field
     * is empty; otherwise exactly one quote, both fields trimmed and the
     * category's case kept, is appended.
     */
    method AddQuote(rawText: string, rawCategory: string) returns (ok: bool)
      requires Valid()
      modifies this
      ensures Valid()
      ensures ok <==> !AllSpace(rawText) && !AllSpace(rawCategory)
      ensures quotes == if ok then old(quotes) + [Quote(Trim(rawText), Trim(rawCategory))] else old(quotes)
    {
      var text := Trim(rawText);
      var category := Trim(rawCategory);
      if text == "" || category == "" {
        return false;
      }
      quotes := quotes + [Quote(text, category)];
      ok := true;
    }
  }

  /**
   * Whatever the draft accepts, the later version accepts too, with the same
   * text and the category lower-cased; the later version also accepts a
   * blank category, which the draft rejects.
   */
  lemma LaterVersionAcceptsMore(rawText: string, rawCategory: string)
    ensures !AllSpace(rawText) && !AllSpace(rawCategory) ==>
              Catalog.NewQuote(rawText, rawCategory) == Some(Quote(Trim(rawText), Lower(Trim(rawCategory))))
    ensures !AllSpace(rawText) && AllSpace(rawCategory) ==>
              Catalog.NewQuote(rawText, rawCategory) == Some(Quote(Trim(rawText), "general"))
  {
  }
}

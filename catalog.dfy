/**
 * The pure logic of dom-manipulation/script.js: how `addQuote` validates and
 * normalises its input, how `populateCategorySelect` derives the category
 * list, and how `showRandomQuote` chooses the pool it draws from.
 */
module Catalog {
  import opened Text
  import opened StringOrder
  import opened Quotes

  /** The four quotes the page starts with. */
  function InitialQuotes(): seq<Quote> {
    [ Quote("The only limit to our realization of tomorrow is our doubts of today.", "inspiration"),
      Quote("Life is what happens when you're busy making other plans.", "life"),
      Quote("The purpose of our lives is to be happy.", "life"),
      Quote("Do one thing every day that scares you.", "courage") ]
  }

  /** `q.category || 'general'`: a missing or empty category reads as "general". */
  function CategoryOrGeneral(q: Quote): (c: string)
    ensures c != []
    ensures q.category != [] ==> c == q.category
    ensures q.category == [] ==> c == "general"
  {
    if q.category == "" then "general" else q.category
  }

  /**
   * `category.trim().toLowerCase() || 'general'`: never empty, trimmed and in
   * lower case; blank input gives "general", and any other input gives its
   * trimmed, lower-cased form (which is "general" again for "general").
   */
  function NormalizeCategory(raw: string): (c: string)
    ensures c != [] && Trimmed(c) && NoUpper(c)
    ensures AllSpace(raw) <==> c == "general" && Lower(Trim(raw)) == []
    ensures !AllSpace(raw) ==> c == Lower(Trim(raw))
  {
    LowerKeepsTrimmed(Trim(raw));
    var c := Lower(Trim(raw));
    if c == "" then "general" else c
  }

  /** Normalising an already normalised category changes nothing. */
  lemma NormalizeCategoryIdempotent(raw: string)
    ensures NormalizeCategory(NormalizeCategory(raw)) == NormalizeCategory(raw)
  {
  }

  /**
   * What holds of every entry of `quotes`: some text, and a category that is
   * non-empty, trimmed and in lower case.
   */
  predicate WellFormed(q: Quote) {
    q.text != [] && q.category != [] && Trimmed(q.category) && NoUpper(q.category)
  }

  lemma InitialQuotesWellFormed()
    ensures forall i :: 0 <= i < |InitialQuotes()| ==> WellFormed(InitialQuotes()[i])
  {
  }

  /**
   * The validation and normalisation `addQuote` performs before it pushes:
   * no quote when the text is blank; otherwise the trimmed text with the
   * normalised category.
   */
  function NewQuote(rawText: string, rawCategory: string): (r: Option<Quote>)
    ensures r.None? <==> AllSpace(rawText)
    ensures r.Some? ==> r.value.text == Trim(rawText) && r.value.category == NormalizeCategory(rawCategory)
    ensures r.Some? ==> WellFormed(r.value) && Trimmed(r.value.text)
  {
    var text := Trim(rawText);
    if text == "" then None else Some(Quote(text, NormalizeCategory(rawCategory)))
  }

  /** Example: the white-space-only text " \t " is refused, though the category "x" is not blank. */
  lemma NewQuoteBlankText()
    ensures NewQuote(" \t ", "x") == None
  {
  }

  /** Example: "Stay hungry." with an empty category is stored under "general". */
  lemma NewQuoteBlankCategory()
    ensures NewQuote("Stay hungry.", "") == Some(Quote("Stay hungry.", "general"))
  {
    var t := "Stay hungry.";
    assert !IsSpace(t[0]) && !IsSpace(t[|t| - 1]);
    TrimOfTrimmed(t);
    assert AllSpace("");
  }

  /** Example: " Be bold " with " Life " is stored as "Be bold" under "life". */
  lemma NewQuoteNormalises()
    ensures NewQuote(" Be bold ", " Life ") == Some(Quote("Be bold", "life"))
  {
    var t, c := " Be bold ", " Life ";
    assert StartIndex(t, 1) == 1 && EndIndex(t, 1, |t| - 1) == |t| - 1;
    assert Trim(t) == t[1..|t| - 1] == "Be bold";
    assert StartIndex(c, 1) == 1 && EndIndex(c, 1, |c| - 1) == |c| - 1;
    assert Trim(c) == c[1..|c| - 1] == "Life";
    var l := Lower("Life");
    assert l[0] == 'l' && l[1] == 'i' && l[2] == 'f' && l[3] == 'e';
    assert l == "life";
  }

  /**
   * `quotes.map(q => q.category || 'general')`: one entry per quote, its
   * stored category, or "general" when it has none.
   */
  function CategoryColumn(qs: seq<Quote>): (r: seq<string>)
    ensures |r| == |qs|
    ensures forall i :: 0 <= i < |qs| && qs[i].category != [] ==> r[i] == qs[i].category
    ensures forall i :: 0 <= i < |qs| && qs[i].category == [] ==> r[i] == "general"
  {
    seq(|qs|, i requires 0 <= i < |qs| => CategoryOrGeneral(qs[i]))
  }

  /**
   * `Array.from(new Set(xs))`: each value once, nothing added and nothing
   * lost. The order of the values is not stated, as the list is sorted next.
   */
  function Distinct(xs: seq<string>): (r: seq<string>)
    ensures NoDuplicates(r)
    ensures forall x :: x in r <==> x in xs
  {
    if xs == [] then []
    else
      var init, last := xs[..|xs| - 1], xs[|xs| - 1];
      assert xs == init + [last];
      var d := Distinct(init);
      if last in d then d else d + [last]
  }

  /** `c` is the category, or "general", of some quote in `qs`. */
  predicate HasCategory(qs: seq<Quote>, c: string) {
    exists i :: 0 <= i < |qs| && CategoryOrGeneral(qs[i]) == c
  }

  /**
   * The option values after "all" in the category selector: the distinct
   * categories of `qs` (a missing one read as "general"), each exactly once,
   * in ascending order.
   */
  function Categories(qs: seq<Quote>): (r: seq<string>)
    ensures StrictlySorted(r)
    ensures forall c :: c in r <==> HasCategory(qs, c)
  {
    var column := CategoryColumn(qs);
    var d := Distinct(column);
    SortDistinct(d);
    forall c ensures c in column <==> HasCategory(qs, c) {
      if c in column {
        var i :| 0 <= i < |column| && column[i] == c;
        assert CategoryOrGeneral(qs[i]) == c;
      }
      if HasCategory(qs, c) {
        var i :| 0 <= i < |qs| && CategoryOrGeneral(qs[i]) == c;
        assert column[i] == c;
      }
    }
    Sort(d)
  }

  /**
   * The category list is fixed by its contents alone: any strictly ascending
   * list of exactly the categories of `qs` is `Categories(qs)`.
   */
  lemma CategoriesUnique(qs: seq<Quote>, s: seq<string>)
    requires StrictlySorted(s)
    requires forall c :: c in s <==> HasCategory(qs, c)
    ensures s == Categories(qs)
  {
    StrictlySortedUnique(s, Categories(qs));
  }

  /** Appending a quote adds its category to the list and removes none. */
  lemma CategoriesAfterAppend(qs: seq<Quote>, q: Quote)
    ensures forall c :: c in Categories(qs + [q]) <==> c in Categories(qs) || c == CategoryOrGeneral(q)
  {
    var qs' := qs + [q];
    forall c ensures HasCategory(qs', c) <==> HasCategory(qs, c) || c == CategoryOrGeneral(q) {
      if HasCategory(qs', c) {
        var i :| 0 <= i < |qs'| && CategoryOrGeneral(qs'[i]) == c;
        if i < |qs| {
          assert qs'[i] == qs[i];
        }
      }
      if HasCategory(qs, c) {
        var i :| 0 <= i < |qs| && CategoryOrGeneral(qs[i]) == c;
        assert qs'[i] == qs[i];
      }
      if c == CategoryOrGeneral(q) {
        assert qs'[|qs|] == q;
      }
    }
  }

  /** `quotes.filter(q => q.category === c)`: the quotes whose category is `c`. */
  function FilterCategory(qs: seq<Quote>, c: string): (r: seq<Quote>)
    ensures |r| <= |qs|
    ensures forall q :: q in r <==> q in qs && q.category == c
  {
    if qs == [] then []
    else
      assert qs == [qs[0]] + qs[1..];
      (if qs[0].category == c then [qs[0]] else []) + FilterCategory(qs[1..], c)
  }

  /**
   * Filtering keeps the original order: the filter of a concatenation is the
   * concatenation of the filters.
   */
  lemma {:induction false} FilterAppend(a: seq<Quote>, b: seq<Quote>, c: string)
    ensures FilterCategory(a + b, c) == FilterCategory(a, c) + FilterCategory(b, c)
  {
    if a != [] {
      assert (a + b)[1..] == a[1..] + b;
      FilterAppend(a[1..], b, c);
    } else {
      assert a + b == b;
    }
  }

  /**
   * The category `showRandomQuote` filters on: the selector's value unless
   * there is no selector or it reads "all". The empty string stands for
   * "no filter", as both `null` and `""` are falsy where the pool is chosen.
   */
  function ActiveCategory(hasSelect: bool, value: string): (c: string)
    ensures c == "" || (hasSelect && c == value && value != "all")
    ensures hasSelect && value != "all" ==> c == value
  {
    if hasSelect && value != "all" then value else ""
  }

  /**
   * `category ? quotes.filter(q => q.category === category) : quotes`: the
   * whole list when there is no filter, otherwise exactly the quotes of that
   * category.
   */
  function Pool(qs: seq<Quote>, category: string): (r: seq<Quote>)
    ensures category == "" ==> r == qs
    ensures category != "" ==> forall q :: q in r <==> q in qs && q.category == category
  {
    if category == "" then qs else FilterCategory(qs, category)
  }

  /**
   * When no quote lacks a category, choosing any category the selector
   * offers, other than "all", leaves quotes to draw from, all of that
   * category.
   */
  lemma OfferedCategoryHasQuotes(qs: seq<Quote>, c: string)
    requires forall i :: 0 <= i < |qs| ==> qs[i].category != []
    requires c in Categories(qs) && c != "all"
    ensures Pool(qs, ActiveCategory(true, c)) != []
    ensures forall q :: q in Pool(qs, ActiveCategory(true, c)) ==> q.category == c
  {
  }

  /**
   * A quote added with category "All" is stored as "all", the value of the
   * selector's "All" option. The category then appears in the list, but
   * choosing it draws from every quote, not only from those stored as "all".
   */
  lemma CategoryNamedAll()
    ensures NormalizeCategory("All") == "all"
    ensures var qs := [Quote("Be bold", "life"), Quote("Be kind", "all")];
            "all" in Categories(qs) && Quote("Be bold", "life") in Pool(qs, ActiveCategory(true, "all"))
  {
    TrimOfTrimmed("All");
    assert Lower("All") == "all";
    var qs := [Quote("Be bold", "life"), Quote("Be kind", "all")];
    assert CategoryOrGeneral(qs[1]) == "all";
    assert HasCategory(qs, "all");
  }

  /**
   * The selector's value after `populateCategorySelect` rebuilds its options
   * and assigns back the value it read before: the previous value, read as
   * "all" when nothing was chosen, if it is still an option; otherwise no
   * option is chosen and the value reads "".
   */
  function RestoredSelection(previous: string, options: seq<string>): (v: string)
    ensures v == "" || v in options
    ensures (if previous == "" then "all" else previous) in options ==>
              v == (if previous == "" then "all" else previous)
    ensures (if previous == "" then "all" else previous) !in options ==> v == ""
  {
    var current := if previous == "" then "all" else previous;
    if current in options then current else ""
  }
}

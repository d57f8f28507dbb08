# Quote collection controller, modelled in Dafny

The repository is a browser "random quote generator". Each page keeps a
module-level `quotes` array of `{ text, category }` records. A button shows a
random quote, and a small form adds a new one. Two versions of the controller
are modelled here:

- `dom-manipulation/script.js`, the fuller version. `addQuote` trims the text
  and refuses a blank one. It trims and lower-cases the category and falls back
  to `"general"`. `populateCategorySelect` fills a `<select>` with `"all"`
  followed by the sorted distinct categories and re-applies the previous choice.
  `showRandomQuote` draws from the whole list, or from the quotes of the chosen
  category.
- `dom-manipulation/scrit.js`, an earlier draft. `addQuote` needs both fields
  non-blank and keeps the category's case. `showRandomQuote` draws from the
  whole list.

Modules:

- `Text` (text.dfy): `String.prototype.trim` over the ECMAScript white-space
  set, and `toLowerCase` on ASCII letters.
- `StringOrder` (ordering.dfy): the default string order of
  `Array.prototype.sort`, proved a strict total order. Insertion sort, proved to
  give a sorted permutation. A proof that a strictly ascending list is fixed by
  its set of values, so the category list does not depend on the sort algorithm.
- `Quotes` (quotes.dfy): the `Quote` record and the `Display` outcome of
  showing a quote (no quotes, or the drawn index with text and category label).
- `Catalog` (catalog.dfy): the pure logic of script.js. This covers input
  normalisation, the category list (`Array.from(new Set(...)).sort()`), the
  pool filter and the selection restore rule.
- `QuoteController` (controller.dfy): class `Controller`. It holds the `quotes`
  field and the selector state of script.js: whether the select exists, its
  option values, and its value. Its methods reassign these fields.
- `DraftController` (draft.dfy): class `Draft`, the `quotes` field of scrit.js
  with its two methods.

The random draw is nondeterministic: `var i :| 0 <= i < |pool|`. Every
postcondition therefore holds for whichever index is drawn.

In script.js the option list and the shown label read a missing category as
`"general"` (`q.category || 'general'`). The filter instead compares the raw
`q.category`. The model keeps both readings. `OfferedCategoryHasQuotes`
therefore needs every stored category to be non-empty. `Controller.Valid`
carries that invariant, and `addQuote` and the initial list keep it.

Neither modelled file stores quotes in local storage, imports or exports
JSON, or restores a saved category. The value restored after a rebuild is
the selector's own previous value.

The selector's first option has the value "all", and that value also means
"no filter". A quote added with the category "All" is stored as "all"
(script.js:96), so the list then offers "all" a second time, and choosing it
draws from every quote (script.js:62-71). `CategoryNamedAll` shows this on a
concrete list, and `OfferedCategoryHasQuotes` excludes that one category.

## Model

| member | source | states |
|---|---|---|
| Text.StartIndex | dom-manipulation/script.js:95 | the leading white space `trim` removes runs up to the returned index, which is the first non-space character or the end |
| Text.EndIndex | dom-manipulation/script.js:95 | the trailing white space `trim` removes starts at the returned index, which lies between `lo` and `hi`; when that index is above `lo`, the character before it is not white space |
| Text.Trim | dom-manipulation/script.js:95 | `trim()` returns an infix of the input with only white space cut at either end; the result is trimmed, and it is empty exactly when the input is blank |
| Text.TrimIdempotent | dom-manipulation/script.js:95 | trimming twice is trimming once |
| Text.TrimOfTrimmed | dom-manipulation/scrit.js:30 | a string with no white space at either end is its own trim |
| Text.IsSpace | dom-manipulation/script.js:95 | defines the characters `trim()` removes: the ECMAScript white-space and line-terminator code points |
| Text.LowerChar | dom-manipulation/script.js:96 | an ASCII capital becomes the character 32 code points later, its small letter; every other character is unchanged; the result is never a capital and is white space exactly when the input is |
| Text.Lower | dom-manipulation/script.js:96 | `toLowerCase()` keeps the length, replaces each ASCII capital by its small letter at the same index and keeps every other character, so no capital is left, the white-space positions are kept, and lower-case input is unchanged |
| Text.LowerKeepsTrimmed | dom-manipulation/script.js:96 | lower-casing a trimmed string leaves it trimmed, and empty only if it was empty |
| StringOrder.Below | dom-manipulation/script.js:64 | defines the order of `.sort()` without a comparator: character by character, a proper prefix first; its properties are the four lemmas below |
| StringOrder.BelowReflexive | dom-manipulation/script.js:64 | every string sorts no later than itself |
| StringOrder.BelowAntisymmetric | dom-manipulation/script.js:64 | two strings each sorting no later than the other are equal |
| StringOrder.BelowTransitive | dom-manipulation/script.js:64 | the sort order is transitive |
| StringOrder.BelowTotal | dom-manipulation/script.js:64 | any two strings are comparable |
| StringOrder.LessIsStrictTotalOrder | dom-manipulation/script.js:64 | strict comparison is irreflexive, transitive, asymmetric and total on distinct strings |
| StringOrder.Insert | dom-manipulation/script.js:64 | one insertion step of the sort: the result is one element longer and holds exactly the new element and the old values |
| StringOrder.InsertPermutes | dom-manipulation/script.js:64 | inserting adds exactly one occurrence of the element and nothing else |
| StringOrder.InsertSorted | dom-manipulation/script.js:64 | inserting into an ascending list keeps it ascending |
| StringOrder.Sort | dom-manipulation/script.js:64 | `.sort()` returns an ascending permutation of its input: same multiset of values, sorted |
| StringOrder.SortDistinct | dom-manipulation/script.js:64 | sorting pairwise distinct values gives a strictly ascending list of the same values |
| StringOrder.StrictlySortedUnique | dom-manipulation/script.js:64 | two strictly ascending lists with the same values are equal, so any correct sort gives the same category list |
| Catalog.InitialQuotes | dom-manipulation/script.js:4-9 | defines the four quotes the page starts with, text and category as written |
| Catalog.InitialQuotesWellFormed | dom-manipulation/script.js:4-9 | each of the four initial quotes has text and a non-empty, trimmed, lower-case category |
| Catalog.CategoryOrGeneral | dom-manipulation/script.js:64 | the category read as `q.category` or else "general" is never empty: the stored category whenever there is one, and "general" when it is empty |
| Catalog.NormalizeCategory | dom-manipulation/script.js:96 | the stored category is non-empty, trimmed and lower-case; blank input gives "general", and any other input gives the lower-cased trimmed input |
| Catalog.NormalizeCategoryIdempotent | dom-manipulation/script.js:96 | normalising a normalised category changes nothing |
| Catalog.NewQuote | dom-manipulation/script.js:95-101 | a blank text is rejected whatever the category; otherwise the record is the trimmed text with the normalised category, and it is well formed |
| Catalog.NewQuoteBlankText | dom-manipulation/script.js:98-101 | example: `NewQuote(" \t ", "x")` is `None`, a white-space-only text rejected with a non-blank category; the general rule is `NewQuote`'s first ensures |
| Catalog.NewQuoteBlankCategory | dom-manipulation/script.js:96 | example: `NewQuote("Stay hungry.", "")` is the record "Stay hungry." with category "general"; the general rule is `NormalizeCategory`'s second ensures |
| Catalog.NewQuoteNormalises | dom-manipulation/script.js:95-96 | example: `NewQuote(" Be bold ", " Life ")` is the record "Be bold" with category "life", both fields trimmed and the category lower-cased; the general rule is the ensures of `NewQuote` and `NormalizeCategory` |
| Catalog.CategoryColumn | dom-manipulation/script.js:64 | the category column of `populateCategorySelect` has one entry per quote: its stored category, or "general" when it has none |
| Catalog.Distinct | dom-manipulation/script.js:64 | `Array.from(new Set(xs))` has no duplicates and holds exactly the values of `xs` |
| Catalog.Categories | dom-manipulation/script.js:64 | the options after "all" are strictly ascending, so each appears once, and hold exactly the categories of the quotes, with a missing category read as "general" |
| Catalog.CategoriesUnique | dom-manipulation/script.js:64 | any strictly ascending list of exactly those categories is the category list |
| Catalog.CategoriesAfterAppend | dom-manipulation/script.js:103-106 | after a push the category list gains the new quote's category and loses none |
| Catalog.FilterCategory | dom-manipulation/script.js:73 | the filter keeps exactly the quotes whose category equals the selection, and never more quotes than the list |
| Catalog.FilterAppend | dom-manipulation/script.js:73 | the filter keeps the original order: filtering a concatenation concatenates the filters |
| Catalog.ActiveCategory | dom-manipulation/script.js:70-71 | when a selector exists and its value is not "all", the filter is that value; otherwise there is none ("") |
| Catalog.Pool | dom-manipulation/script.js:73 | with no filter the pool is the whole list; with a filter it holds exactly the quotes of that category |
| Catalog.OfferedCategoryHasQuotes | dom-manipulation/script.js:64-73 | when no stored category is empty, choosing any listed category other than "all" gives a non-empty pool to draw from, all of that category |
| Catalog.CategoryNamedAll | dom-manipulation/script.js:62-73 | a category typed "All" is stored as "all"; once a quote has it, "all" is a listed category, yet choosing it draws from every quote, including one of another category |
| Catalog.RestoredSelection | dom-manipulation/script.js:60-66 | rebuilding keeps the previous value, read as "all" when none was chosen, if it is still an option; otherwise nothing is chosen and the value is "" |
| QuoteController.Controller.constructor | dom-manipulation/script.js:4-9 | the page starts with the four initial quotes and no selector |
| QuoteController.Controller.CreateCategorySelect | dom-manipulation/script.js:24-52 | the selector is created holding only "all" (lines 24-26), and the `populateCategorySelect()` call that ends `createAddQuoteForm` (line 52) fills it with "all" and the category list, "all" chosen |
| QuoteController.Controller.PopulateCategorySelect | dom-manipulation/script.js:55-67 | without a selector nothing changes; otherwise the options become "all" followed by the category list and the value is restored; the quotes are untouched; from a valid state the state stays valid and the choice is kept |
| QuoteController.Controller.ShowRandomQuote | dom-manipulation/script.js:69-80 | "no quotes" exactly when the pool is empty; the pool is the whole list without a selector or with "all" chosen; otherwise a quote of the pool at an index in range, of the chosen category when one is chosen, labelled with its category or "general"; in a valid state the pool is empty only if the list is |
| QuoteController.Controller.Push | dom-manipulation/script.js:103-106 | from a valid state, pushing a well-formed quote and rebuilding the selector appends exactly that quote, keeps the state valid and keeps the choice |
| QuoteController.Controller.AddQuote | dom-manipulation/script.js:92-108 | blank text is rejected and nothing changes; otherwise exactly one normalised record is appended after the unchanged old list, the selector's choice is kept, and a quote of the current pool is shown with its label, of the chosen category when there is a filter |
| DraftController.DraftInitialQuotes | dom-manipulation/scrit.js:2-7 | defines the four quotes the draft page starts with, category case kept |
| DraftController.DraftQuoteWellFormed | dom-manipulation/scrit.js:2-7 | each initial draft quote has text and a non-empty, trimmed category |
| DraftController.Draft.constructor | dom-manipulation/scrit.js:2-7 | the draft page starts with its four initial quotes |
| DraftController.Draft.ShowRandomQuote | dom-manipulation/scrit.js:16-25 | "no quotes" exactly when the list is empty; otherwise a quote at an index in range, shown with its category as stored, both non-empty in a valid state; the list is not modified |
| DraftController.Draft.AddQuote | dom-manipulation/scrit.js:29-39 | rejected, with nothing changed, when either trimmed field is empty; otherwise exactly one record of the trimmed text and trimmed category, case kept, is appended |
| DraftController.LaterVersionAcceptsMore | dom-manipulation/scrit.js:30-33 | an input the draft accepts is accepted by script.js with the same text and the category lower-cased; a blank category the draft rejects becomes "general" there |

## Left out

- DOM construction and rendering are not modelled. This covers the rest of `createAddQuoteForm` (labels, inputs, button) and the `innerHTML`/`textContent` writes. It also covers the quotation marks and prefixes around the shown text. `Display` keeps the drawn index and the shown text and category label.
- Event wiring and the `DOMContentLoaded` start-up sequence are not modelled. Each operation is a method the caller invokes.
- The `alert` on rejection is not modelled. Nor is clearing the input fields, or the draft's two-second confirmation message. Rejection is the returned `ok == false`.
- The uniform distribution of `Math.random` is not modelled. Only "some index in range" is captured.
- The missing-element guards (`textInput && ...`, `catInput && ...`) are not modelled. The inputs are taken as strings, so the null-element path of script.js:95-96 is not captured.
- The user picking an option in the selector is browser behaviour, not source code. `Controller.Valid` allows any option to be chosen.
- Text.Lower: lower-cases ASCII letters only, because full Unicode case mapping belongs to the JavaScript engine.
- StringOrder.Below: compares Unicode code points, where JavaScript compares UTF-16 code units. The two orders differ only between supplementary-plane characters and U+E000–U+FFFF.
- QuoteController.Controller.AddQuote: `Controller.Valid` records that every text is non-empty, but not that it is trimmed. Trimming is stated for each added quote (`NewQuote`), but is not carried as an invariant over the initial list.
- Local-storage persistence and JSON import/export are not modelled, because the modelled files do not implement them.

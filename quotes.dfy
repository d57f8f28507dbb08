/** The record both quote controllers keep, and what they put on screen. */
module Quotes {

  /** A `{ text, category }` entry of the `quotes` array. */
  datatype Quote = Quote(text: string, category: string)

  /**
   * What `showRandomQuote` renders: the "no quotes available" message, or
   * the quote at `index` of the pool it drew from, as its text and the
   * category label printed under it.
   */
  datatype Display = NoQuotes | Shown(index: nat, text: string, shownCategory: string)

  datatype Option<T> = None | Some(value: T)
}

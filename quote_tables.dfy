/**
 * The `quotes` and `quote_items` tables: quote rows by id, and the item rows
 * of each quote (in `sort_order`), held by one database object that the quote
 * routes update in place.
 */
module QuoteTables {

  import opened Js

  /** A snapshot of the two tables. */
  datatype Store = Store(quotes: map<string, Row>, items: map<string, seq<Row>>)

  /** The item rows of a quote; none when the quote has no entry. */
  function ItemsOf(s: Store, id: string): seq<Row> {
    if id in s.items then s.items[id] else []
  }

  class QuoteDb {
    var quotes: map<string, Row>
    var quoteItems: map<string, seq<Row>>

    constructor (quotes: map<string, Row>, quoteItems: map<string, seq<Row>>)
      ensures this.quotes == quotes && this.quoteItems == quoteItems
    {
      this.quotes := quotes;
      this.quoteItems := quoteItems;
    }

    function State(): Store
      reads this
    {
      Store(quotes, quoteItems)
    }
  }
}

/**
 * The quotes route (src/app/api/quotes/route.ts): GET by category, POST a
 * quote with defaults and its items, PATCH a quote by id, DELETE a quote.
 * The database assigns new quote ids; the model takes the id as an argument,
 * and an id that already exists fails the insert as a primary-key violation.
 * Inserted rows keep `undefined` columns, which read like absent ones.
 */
module QuotesRoute {

  import opened Wrappers
  import opened Js
  import opened Http
  import opened QuoteTables

  const CreateFailed: string := "Kunde inte skapa offert"
  const UpdateFailed: string := "Kunde inte uppdatera offert"
  const DeleteFailed: string := "Kunde inte ta bort offert"
  const FetchFailed: string := "Kunde inte hämta offerter"

  /** The new quote row: the body's columns, with defaults for currency, VAT and status. */
  function NewQuote(body: Value): (r: Row)
    ensures Col(r, "currency") == Or(Get(body, "currency"), Str("SEK"))
    ensures Col(r, "vat_included") == Or(Get(body, "vat_included"), Bool(false))
    ensures Col(r, "status") == Or(Get(body, "status"), Str("received"))
  {
    map[
      "category_id" := Get(body, "category_id"),
      "supplier_name" := Get(body, "supplier_name"),
      "quote_number" := Get(body, "quote_number"),
      "quote_date" := Get(body, "quote_date"),
      "valid_until" := Get(body, "valid_until"),
      "contact_person" := Get(body, "contact_person"),
      "contact_email" := Get(body, "contact_email"),
      "contact_phone" := Get(body, "contact_phone"),
      "total_amount" := Get(body, "total_amount"),
      "payment_terms" := Get(body, "payment_terms"),
      "delivery_terms" := Get(body, "delivery_terms"),
      "warranty_period" := Get(body, "warranty_period"),
      "file_path" := Get(body, "file_path"),
      "extracted_text" := Get(body, "extracted_text"),
      "ai_summary" := Get(body, "ai_summary"),
      "ai_analysis" := Get(body, "ai_analysis"),
      "notes" := Get(body, "notes"),
      "currency" := Or(Get(body, "currency"), Str("SEK")),
      "vat_included" := Or(Get(body, "vat_included"), Bool(false)),
      "status" := Or(Get(body, "status"), Str("received"))]
  }

  /** A body without currency, VAT flag or status gets 'SEK', false and 'received'. */
  lemma DefaultsApply(body: Value)
    requires !Truthy(Get(body, "currency")) && !Truthy(Get(body, "vat_included")) && !Truthy(Get(body, "status"))
    ensures var r := NewQuote(body);
      Col(r, "currency") == Str("SEK") && Col(r, "vat_included") == Bool(false) && Col(r, "status") == Str("received")
  {
  }

  /** One `quote_items` row: `total`, `type` and `category` are renamed, `unit` defaults to 'ST'. */
  function NewItem(quoteId: string, item: Value): (r: Result<Row, Thrown>)
    ensures IsNullish(item) <==> r.Failure?
    ensures r.Success? ==> Col(r.value, "quote_id") == Str(quoteId)
    ensures r.Success? ==> Col(r.value, "unit") == Or(Get(item, "unit"), Str("ST"))
    ensures r.Success? ==> Col(r.value, "product_category") == Get(item, "category")
    ensures r.Success? ==> Col(r.value, "item_type") == Get(item, "type")
    ensures r.Success? ==> Col(r.value, "total_amount") == Get(item, "total")
  {
    if IsNullish(item) then Failure(NullReadError(item, "position"))
    else Success(map[
      "position" := Get(item, "position"),
      "article_number" := Get(item, "article_number"),
      "description" := Get(item, "description"),
      "quantity" := Get(item, "quantity"),
      "unit_price" := Get(item, "unit_price"),
      "discount_percent" := Get(item, "discount_percent"),
      "net_price" := Get(item, "net_price"),
      "specifications" := Get(item, "specifications"),
      "quote_id" := Str(quoteId),
      "unit" := Or(Get(item, "unit"), Str("ST")),
      "total_amount" := Get(item, "total"),
      "item_type" := Get(item, "type"),
      "product_category" := Get(item, "category")])
  }

  /** `body.items.map(...)`; the first `null` item throws. */
  function NewItems(quoteId: string, items: seq<Value>): (r: Result<seq<Row>, Thrown>)
    ensures r.Success? <==> forall i :: 0 <= i < |items| ==> !IsNullish(items[i])
    ensures r.Success? ==> |r.value| == |items| && forall i :: 0 <= i < |items| ==> Success(r.value[i]) == NewItem(quoteId, items[i])
  {
    if |items| == 0 then Success([])
    else
      match NewItems(quoteId, items[..|items| - 1])
      case Failure(e) => Failure(e)
      case Success(rows) =>
        match NewItem(quoteId, items[|items| - 1])
        case Failure(e) => Failure(e)
        case Success(row) => Success(rows + [row])
  }

  /**
   * POST: 500 when the body cannot be read or the insert fails; otherwise
   * the created quote. Items are inserted only when `body.items` is
   * non-empty; an item insert failure is only logged. A non-array or a
   * `null` entry makes the mapping throw after the quote exists, giving 500.
   */
  method Post(db: QuoteDb, body: Option<Value>, newId: string, insertFails: bool, itemsFail: bool)
    returns (resp: Response<Row>)
    modifies db
    ensures body.None? || IsNullish(body.value) || insertFails || newId in old(db.quotes) ==>
      resp == Error(500, CreateFailed) && db.State() == old(db.State())
    ensures body.Some? && !IsNullish(body.value) && !insertFails && newId !in old(db.quotes) ==>
      var created := NewQuote(body.value)["id" := Str(newId)];
      var items := Get(body.value, "items");
      var rows := if items.Arr? then NewItems(newId, items.elems) else Failure(ErrorInstance(""));
      db.quotes == old(db.quotes)[newId := created]
      && (!NonEmpty(items) ==> resp == Ok(created) && db.quoteItems == old(db.quoteItems))
      && (NonEmpty(items) && rows.Failure? ==> resp == Error(500, CreateFailed) && db.quoteItems == old(db.quoteItems))
      && (NonEmpty(items) && rows.Success? ==>
            resp == Ok(created) && db.quoteItems == if itemsFail then old(db.quoteItems) else old(db.quoteItems)[newId := ItemsOf(old(db.State()), newId) + rows.value])
  {
    if body.None? || IsNullish(body.value) || insertFails || newId in db.quotes {
      return Error(500, CreateFailed);
    }
    var created := NewQuote(body.value)["id" := Str(newId)];
    db.quotes := db.quotes[newId := created];
    var items := Get(body.value, "items");
    if NonEmpty(items) {
      if !items.Arr? {
        return Error(500, CreateFailed);
      }
      var rows := NewItems(newId, items.elems);
      if rows.Failure? {
        return Error(500, CreateFailed);
      }
      if !itemsFail {
        var existing := if newId in db.quoteItems then db.quoteItems[newId] else [];
        db.quoteItems := db.quoteItems[newId := existing + rows.value];
      }
    }
    return Ok(created);
  }

  /** The columns PATCH writes: every body field but `id`, and a fresh `updated_at`. */
  function Updates(body: Value, now: string): (u: Row)
    ensures "id" !in u
    ensures Col(u, "updated_at") == Str(now)
    ensures forall k :: k != "id" && k != "updated_at" ==> Col(u, k) == Get(body, k)
  {
    var fields := if body.Obj? then body.fields else map[];
    DropUndefined((map k | k in fields && k != "id" :: fields[k]) + map["updated_at" := Str(now)])
  }

  /** PATCH: 500 when the body cannot be read, the id names no quote, or the update fails; otherwise the merged row. */
  method Patch(db: QuoteDb, body: Option<Value>, now: string, updateFails: bool) returns (resp: Response<Row>)
    modifies db
    ensures body.None? || IsNullish(body.value) || updateFails ==> resp == Error(500, UpdateFailed) && db.State() == old(db.State())
    ensures body.Some? && !IsNullish(body.value) && !updateFails ==>
      var id := Get(body.value, "id");
      (!(id.Str? && id.s in old(db.quotes)) ==> resp == Error(500, UpdateFailed) && db.State() == old(db.State()))
      && (id.Str? && id.s in old(db.quotes) ==>
            var merged := old(db.quotes)[id.s] + Updates(body.value, now);
            db.quotes == old(db.quotes)[id.s := merged] && db.quoteItems == old(db.quoteItems) && resp == Ok(merged))
  {
    if body.None? || IsNullish(body.value) || updateFails {
      return Error(500, UpdateFailed);
    }
    var id := Get(body.value, "id");
    if !(id.Str? && id.s in db.quotes) {
      return Error(500, UpdateFailed);
    }
    var merged := db.quotes[id.s] + Updates(body.value, now);
    db.quotes := db.quotes[id.s := merged];
    return Ok(merged);
  }

  /** A patch keeps the row's id and every column the body does not name. */
  lemma PatchKeepsRest(row: Row, body: Value, now: string, k: string)
    requires k != "updated_at" && Get(body, k) == Undefined
    ensures Col(row + Updates(body, now), k) == Col(row, k)
  {
  }

  /** DELETE: 400 without `id`, 500 when the delete fails, otherwise the quote is gone. */
  method Delete(db: QuoteDb, id: Option<string>, deleteFails: bool) returns (resp: Response<bool>)
    modifies db
    ensures id.None? || id.value == "" ==> resp == Error(400, "ID krävs") && db.State() == old(db.State())
    ensures id.Some? && id.value != "" && deleteFails ==> resp == Error(500, DeleteFailed) && db.State() == old(db.State())
    ensures id.Some? && id.value != "" && !deleteFails ==>
      resp == Ok(true) && db.quotes == old(db.quotes) - {id.value} && db.quoteItems == old(db.quoteItems)
  {
    if id.None? || id.value == "" {
      return Error(400, "ID krävs");
    }
    if deleteFails {
      return Error(500, DeleteFailed);
    }
    db.quotes := db.quotes - {id.value};
    return Ok(true);
  }

  /** The quotes GET lists: those of the category when one is given, each with its items embedded. */
  function Listing(s: Store, categoryId: Option<string>): (r: map<string, Row>)
    ensures forall id :: id in r <==> id in s.quotes && (categoryId.None? || categoryId.value == "" || Col(s.quotes[id], "category_id") == Str(categoryId.value))
    ensures forall id :: id in r ==> r[id] == s.quotes[id]["quote_items" := Arr(RowValues(ItemsOf(s, id)))]
  {
    map id | id in s.quotes && (categoryId.None? || categoryId.value == "" || Col(s.quotes[id], "category_id") == Str(categoryId.value))
      :: s.quotes[id]["quote_items" := Arr(RowValues(ItemsOf(s, id)))]
  }

  /** Rows as the JSON objects they are sent as. */
  function RowValues(rows: seq<Row>): (r: seq<Value>)
    ensures |r| == |rows| && forall i :: 0 <= i < |rows| ==> r[i] == Obj(rows[i])
  {
    seq(|rows|, i requires 0 <= i < |rows| => Obj(rows[i]))
  }

  /** GET: 500 on a query error, otherwise the listing. */
  method List(db: QuoteDb, categoryId: Option<string>, queryFails: bool) returns (resp: Response<map<string, Row>>)
    ensures queryFails ==> resp == Error(500, FetchFailed)
    ensures !queryFails ==> resp == Ok(Listing(db.State(), categoryId))
  {
    if queryFails {
      return Error(500, FetchFailed);
    }
    return Ok(Listing(db.State(), categoryId));
  }
}

/**
 * The batch analysis route (src/app/api/quotes/analyze-batch/route.ts): for
 * every requested quote still `pending`, run the LLM extraction, write the
 * results back to the quote, replace its line items, and count successes and
 * failures, each quote on its own.
 *
 * The database is a `QuoteDb` object holding the `quotes` table (id to row)
 * and the `quote_items` table (quote id to its item rows). What the outside
 * world does is a parameter `Env`: the model reply for a quote text, the
 * JSON parser, which writes fail, and the clock.
 */
module BatchAnalysis {

  import opened Wrappers
  import opened Text
  import opened Js
  import opened Http
  import JsonRecovery
  import opened QuoteTables
  import opened Lists

  // ---------------------------------------------------------------------------
  // Pure helpers of the route
  // ---------------------------------------------------------------------------

  /** `emptyToNull`: `''` and `undefined` become `null`; every other value passes through. */
  function EmptyToNull(v: Value): (r: Value)
    ensures v == Str("") || v == Undefined ==> r == Null
    ensures v != Str("") && v != Undefined ==> r == v
  {
    if v == Str("") || v == Undefined then Null else v
  }

  /** A number as the total derivation uses it; other values count as 0. */
  function Amount(v: Value): int {
    if v.Num? then v.n else 0
  }

  /** `item.total || (item.quantity && item.unit_price ? item.quantity * item.unit_price : 0)`, then `|| 0`. */
  function ItemAmount(item: Value): (r: Result<int, Thrown>)
    ensures IsNullish(item) <==> r.Failure?
    ensures r.Success? && Truthy(Get(item, "total")) ==> r.value == Amount(Get(item, "total"))
    ensures r.Success? && !Truthy(Get(item, "total")) && Truthy(Get(item, "quantity")) && Truthy(Get(item, "unit_price"))
      ==> r.value == Amount(Get(item, "quantity")) * Amount(Get(item, "unit_price"))
    ensures r.Success? && !Truthy(Get(item, "total")) && !(Truthy(Get(item, "quantity")) && Truthy(Get(item, "unit_price")))
      ==> r.value == 0
  {
    if IsNullish(item) then Failure(NullReadError(item, "total"))
    else
      var total := Get(item, "total");
      var quantity := Get(item, "quantity");
      var unitPrice := Get(item, "unit_price");
      var product := if Truthy(quantity) && Truthy(unitPrice) then Num(Amount(quantity) * Amount(unitPrice)) else Num(0);
      Success(Amount(Or(Or(total, product), Num(0))))
  }

  /** The `reduce` over the items, left to right from 0; the first `null` item throws. */
  function SumAmounts(items: seq<Value>): (r: Result<int, Thrown>)
    ensures r.Success? <==> forall i :: 0 <= i < |items| ==> !IsNullish(items[i])
  {
    if |items| == 0 then Success(0)
    else
      match SumAmounts(items[..|items| - 1])
      case Failure(e) => Failure(e)
      case Success(sum) =>
        match ItemAmount(items[|items| - 1])
        case Failure(e) => Failure(e)
        case Success(a) => Success(sum + a)
  }

  /** Each item's amount, in order, for a list without null items. */
  function ItemAmounts(items: seq<Value>): (r: seq<int>)
    requires forall i :: 0 <= i < |items| ==> !IsNullish(items[i])
    ensures |r| == |items|
    ensures forall i :: 0 <= i < |items| ==> ItemAmount(items[i]) == Success(r[i])
  {
    if |items| == 0 then []
    else ItemAmounts(items[..|items| - 1]) + [ItemAmount(items[|items| - 1]).value]
  }

  /** The reduce adds up the amount of every item. */
  lemma {:induction false} SumAmountsIsSum(items: seq<Value>)
    requires forall i :: 0 <= i < |items| ==> !IsNullish(items[i])
    ensures SumAmounts(items) == Success(SumInts(ItemAmounts(items)))
    decreases |items|
  {
    if |items| > 0 {
      var init := items[..|items| - 1];
      SumAmountsIsSum(init);
      assert ItemAmounts(items)[..|items| - 1] == ItemAmounts(init);
    }
  }

  /** The sum is additive over a split of the item list. */
  lemma {:induction false} SumAmountsAppend(a: seq<Value>, b: seq<Value>)
    requires SumAmounts(a).Success? && SumAmounts(b).Success?
    ensures SumAmounts(a + b) == Success(SumAmounts(a).value + SumAmounts(b).value)
    decreases |b|
  {
    if |b| == 0 {
      assert a + b == a;
    } else {
      var b' := b[..|b| - 1];
      assert (a + b)[..|a + b| - 1] == a + b';
      assert (a + b)[|a + b| - 1] == b[|b| - 1];
      SumAmountsAppend(a, b');
    }
  }

  /** Items that all carry a number as `total` sum to the sum of those totals. */
  lemma {:induction false} SumOfTotals(items: seq<Value>, totals: seq<int>)
    requires |items| == |totals|
    requires forall i :: 0 <= i < |items| ==> items[i].Obj? && Col(items[i].fields, "total") == Num(totals[i]) && totals[i] != 0
    ensures SumAmounts(items) == Success(SumInts(totals))
    decreases |items|
  {
    if |items| > 0 {
      SumOfTotals(items[..|items| - 1], totals[..|totals| - 1]);
    }
  }

  function SumInts(xs: seq<int>): int {
    if |xs| == 0 then 0 else SumInts(xs[..|xs| - 1]) + xs[|xs| - 1]
  }

  /**
   * The total written to the quote: the extracted `totals.total` when it is
   * truthy, otherwise the sum over the items when there are some.
   */
  function DerivedTotal(analysis: Value): (r: Result<Value, Thrown>)
    ensures Truthy(Get(Get(analysis, "totals"), "total")) ==> r == Success(Get(Get(analysis, "totals"), "total"))
    ensures !NonEmpty(Get(analysis, "items")) ==> r == Success(Get(Get(analysis, "totals"), "total"))
    ensures r.Success? && !Truthy(Get(Get(analysis, "totals"), "total")) && NonEmpty(Get(analysis, "items")) ==>
      Get(analysis, "items").Arr? && r.value.Num? && SumAmounts(Get(analysis, "items").elems) == Success(r.value.n)
  {
    var extracted := Get(Get(analysis, "totals"), "total");
    var items := Get(analysis, "items");
    if !Truthy(extracted) && NonEmpty(items) then
      if !items.Arr? then Failure(ErrorInstance("analysis.items.reduce is not a function"))
      else
        match SumAmounts(items.elems)
        case Failure(e) => Failure(e)
        case Success(sum) => Success(Num(sum))
    else Success(extracted)
  }

  /** Without a truthy stated total, the total written is the sum of every item's amount. */
  lemma DerivedTotalIsItemSum(analysis: Value)
    requires !Truthy(Get(Get(analysis, "totals"), "total")) && Get(analysis, "items").Arr? && NonEmpty(Get(analysis, "items"))
    requires forall i :: 0 <= i < |Get(analysis, "items").elems| ==> !IsNullish(Get(analysis, "items").elems[i])
    ensures DerivedTotal(analysis) == Success(Num(SumInts(ItemAmounts(Get(analysis, "items").elems))))
  {
    SumAmountsIsSum(Get(analysis, "items").elems);
  }

  /** The fields the update writes into the quote row, `undefined` ones dropped. */
  function AnalysisUpdate(quote: Row, analysis: Value, total: Value, now: string): (u: Row)
    ensures Col(u, "status") == Str("analyzed") && Col(u, "updated_at") == Str(now)
    ensures forall k :: k in u ==> u[k] != Undefined
  {
    var supplier := Get(analysis, "supplier");
    var info := Get(analysis, "quote_info");
    var terms := Get(analysis, "terms");
    var name := Or(Get(supplier, "name"), Col(quote, "supplier_name"));
    var count := Or(LengthOf(Get(analysis, "items")), Num(0));
    var summary := ToJsString(Or(Get(supplier, "name"), Str("Offert"))) + " - " + ToJsString(count) + " artiklar";
    DropUndefined(map[
      "quote_number" := EmptyToNull(Get(info, "quote_number")),
      "quote_date" := EmptyToNull(Get(info, "date")),
      "valid_until" := EmptyToNull(Get(info, "valid_until")),
      "contact_person" := EmptyToNull(Get(supplier, "contact_person")),
      "contact_email" := EmptyToNull(Get(supplier, "email")),
      "contact_phone" := EmptyToNull(Get(supplier, "phone")),
      "payment_terms" := EmptyToNull(Get(terms, "payment")),
      "delivery_terms" := EmptyToNull(Get(terms, "delivery")),
      "warranty_period" := EmptyToNull(Get(terms, "warranty")),
      "ai_summary" := Str(summary),
      "total_amount" := EmptyToNull(total),
      "supplier_name" := name,
      "ai_analysis" := analysis,
      "updated_at" := Str(now),
      "status" := Str("analyzed")
    ])
  }

  /**
   * The update stores the whole analysis, keeps the old supplier name unless
   * the analysis names one, and writes the derived total with `''` as `null`.
   */
  lemma UpdateContents(quote: Row, analysis: Value, total: Value, now: string)
    ensures var u := AnalysisUpdate(quote, analysis, total, now);
      Col(u, "ai_analysis") == analysis
      && Col(u, "supplier_name") == Or(Get(Get(analysis, "supplier"), "name"), Col(quote, "supplier_name"))
      && Col(u, "total_amount") == EmptyToNull(total)
  {
  }

  /** The `ai_summary` text: the extracted supplier name (or 'Offert') and the item count. */
  lemma SummaryText(quote: Row, analysis: Value, total: Value, now: string)
    requires Get(analysis, "items").Arr?
    ensures Col(AnalysisUpdate(quote, analysis, total, now), "ai_summary") ==
      Str(ToJsString(Or(Get(Get(analysis, "supplier"), "name"), Str("Offert"))) + " - "
          + ToJsString(Or(Num(|Get(analysis, "items").elems|), Num(0))) + " artiklar")
  {
  }

  /** One new `quote_items` row. */
  function ItemRow(quoteId: string, item: Value, index: nat): (r: Result<Row, Thrown>)
    ensures IsNullish(item) <==> r.Failure?
    ensures r.Success? ==> Col(r.value, "quote_id") == Str(quoteId) && Col(r.value, "sort_order") == Num(index)
    ensures r.Success? ==> Col(r.value, "total_price") == Or(Get(item, "total_price"), Null)
    ensures r.Success? ==> Col(r.value, "description") == Or(Get(item, "description"), Str(""))
    ensures r.Success? ==> forall k :: k in r.value ==> k in {"quote_id", "description", "quantity", "unit", "unit_price", "total_price", "sort_order"}
  {
    if IsNullish(item) then Failure(NullReadError(item, "description"))
    else Success(map[
      "quote_id" := Str(quoteId),
      "description" := Or(Get(item, "description"), Str("")),
      "quantity" := Or(Get(item, "quantity"), Null),
      "unit" := Or(Get(item, "unit"), Null),
      "unit_price" := Or(Get(item, "unit_price"), Null),
      "total_price" := Or(Get(item, "total_price"), Null),
      "sort_order" := Num(index)
    ])
  }

  /** The `map` over the extracted items; the first `null` item throws. */
  function ItemRows(quoteId: string, items: seq<Value>): (r: Result<seq<Row>, Thrown>)
    ensures r.Success? <==> forall i :: 0 <= i < |items| ==> !IsNullish(items[i])
    ensures r.Success? ==> |r.value| == |items|
    ensures r.Success? ==> forall i :: 0 <= i < |items| ==> Success(r.value[i]) == ItemRow(quoteId, items[i], i)
  {
    if |items| == 0 then Success([])
    else
      match ItemRows(quoteId, items[..|items| - 1])
      case Failure(e) => Failure(e)
      case Success(rows) =>
        match ItemRow(quoteId, items[|items| - 1], |items| - 1)
        case Failure(e) => Failure(e)
        case Success(row) => Success(rows + [row])
  }

  const UnknownError: string := "Okänt fel"

  /** The text of a caught failure, as the per-quote `catch` derives it. */
  function FailureReason(err: Thrown): (r: string)
    ensures err.ErrorInstance? ==> r == err.message
    ensures err.Raised? && err.value.Str? ==> r == err.value.s
    ensures err.Raised? && err.value.Obj? && "message" in err.value.fields ==> r == ToJsString(err.value.fields["message"])
    ensures err.Raised? && !err.value.Str? && !(err.value.Obj? && "message" in err.value.fields) ==> r == UnknownError
  {
    match err
    case ErrorInstance(m) => m
    case Raised(Str(s)) => s
    case Raised(Obj(f)) => if "message" in f then ToJsString(f["message"]) else UnknownError
    case Raised(_) => UnknownError
  }

  // ---------------------------------------------------------------------------
  // The outside world
  // ---------------------------------------------------------------------------

  /**
   * What the route cannot see: `extractQuoteData` for a quote text, whether
   * the quote update fails (and with what error object), whether deleting or
   * inserting the items fails, and the current time.
   */
  datatype Env = Env(
    extract: string -> Result<Value, Thrown>,
    updateError: string -> Option<Value>,
    deleteFails: string -> bool,
    insertFails: string -> bool,
    now: string)

  /**
   * `extractQuoteData(text)` as the route sees it: the model's reply to the
   * extraction prompt for `text`, taken through the JSON recovery ladder.
   */
  function ExtractQuoteData(
    reply: string -> Result<seq<JsonRecovery.ContentBlock>, Thrown>,
    parse: string -> Option<Value>): (extract: string -> Result<Value, Thrown>)
    ensures forall text :: extract(text) == JsonRecovery.HandleReply(reply(text), parse, JsonRecovery.Extraction).result
  {
    text => JsonRecovery.HandleReply(reply(text), parse, JsonRecovery.Extraction).result
  }

  // ---------------------------------------------------------------------------
  // One quote
  // ---------------------------------------------------------------------------


  /** How far the processing of one quote got. */
  datatype Stage =
    | NoText                                          // no extracted_text: nothing called, nothing written
    | FailedBeforeUpdate(err: Thrown)                 // extraction or total derivation threw
    | UpdateFailed(err: Thrown)                       // the update returned an error
    | FailedAfterUpdate(analysis: Value, total: Value, err: Thrown)  // the item mapping threw after the update
    | Updated(analysis: Value, total: Value, newItems: Option<seq<Row>>)  // success; items to replace, if any

  /** The course of one quote's processing. */
  function Course(id: string, quote: Row, env: Env): Stage {
    var text := Col(quote, "extracted_text");
    if !Truthy(text) then NoText
    else
      match env.extract(ToJsString(text))
      case Failure(e) => FailedBeforeUpdate(e)
      case Success(analysis) =>
        if IsNullish(analysis) then FailedBeforeUpdate(NullReadError(analysis, "totals"))
        else
          match DerivedTotal(analysis)
          case Failure(e) => FailedBeforeUpdate(e)
          case Success(total) =>
            if env.updateError(id).Some? then UpdateFailed(Raised(env.updateError(id).value))
            else
              var items := Get(analysis, "items");
              if !NonEmpty(items) then Updated(analysis, total, None)
              else if !items.Arr? then FailedAfterUpdate(analysis, total, ErrorInstance("analysis.items.map is not a function"))
              else
                match ItemRows(id, items.elems)
                case Failure(e) => FailedAfterUpdate(analysis, total, e)
                case Success(rows) => Updated(analysis, total, Some(rows))
  }

  const NoTextSuffix: string := ": Ingen text extraherad"

  /** The entry a quote adds to `errors`, or none when it counts as a success. */
  function ErrorEntry(quote: Row, stage: Stage): (r: Option<string>)
    ensures stage.Updated? <==> r.None?
    ensures stage.NoText? ==> r == Some(ToJsString(Col(quote, "supplier_name")) + NoTextSuffix)
    ensures stage.FailedBeforeUpdate? || stage.UpdateFailed? || stage.FailedAfterUpdate? ==>
      r == Some(ToJsString(Col(quote, "supplier_name")) + ": " + FailureReason(stage.err))
  {
    var name := ToJsString(Col(quote, "supplier_name"));
    match stage
    case NoText => Some(name + NoTextSuffix)
    case FailedBeforeUpdate(e) => Some(name + ": " + FailureReason(e))
    case UpdateFailed(e) => Some(name + ": " + FailureReason(e))
    case FailedAfterUpdate(_, _, e) => Some(name + ": " + FailureReason(e))
    case Updated(_, _, _) => None
  }

  /** The quote row after processing. */
  function QuoteAfter(quote: Row, stage: Stage, now: string): Row {
    match stage
    case FailedAfterUpdate(analysis, total, _) => quote + AnalysisUpdate(quote, analysis, total, now)
    case Updated(analysis, total, _) => quote + AnalysisUpdate(quote, analysis, total, now)
    case _ => quote
  }

  /** The quote's item rows after processing: delete (unless it fails), then insert (unless it fails). */
  function ItemsAfter(before: seq<Row>, id: string, stage: Stage, env: Env): seq<Row> {
    if stage.Updated? && stage.newItems.Some? then
      (if env.deleteFails(id) then before else []) + (if env.insertFails(id) then [] else stage.newItems.value)
    else before
  }

  /** The tables after processing quote `id`, fetched as `quote`. */
  function Step(s: Store, id: string, quote: Row, env: Env): (r: Store)
    ensures forall k :: k != id ==> (k in r.quotes <==> k in s.quotes) && (k in s.quotes ==> r.quotes[k] == s.quotes[k])
    ensures forall k :: k != id ==> ItemsOf(r, k) == ItemsOf(s, k)
  {
    var stage := Course(id, quote, env);
    var quotes := if stage.FailedAfterUpdate? || stage.Updated? then s.quotes[id := QuoteAfter(quote, stage, env.now)] else s.quotes;
    var items := if stage.Updated? && stage.newItems.Some? then s.items[id := ItemsAfter(ItemsOf(s, id), id, stage, env)] else s.items;
    Store(quotes, items)
  }

  // ---------------------------------------------------------------------------
  // Properties of one quote
  // ---------------------------------------------------------------------------

  /** A quote without extracted text fails with '<name>: Ingen text extraherad', and nothing is written. */
  lemma NoTextFails(s: Store, id: string, quote: Row, env: Env)
    requires !Truthy(Col(quote, "extracted_text"))
    ensures ErrorEntry(quote, Course(id, quote, env)) == Some(ToJsString(Col(quote, "supplier_name")) + NoTextSuffix)
    ensures Step(s, id, quote, env) == s
  {
  }

  /**
   * A successful quote is marked analyzed, keeps its old name unless the
   * analysis names the supplier, and its items are replaced only when the
   * analysis has some.
   */
  lemma SuccessWrites(s: Store, id: string, quote: Row, env: Env)
    requires Course(id, quote, env).Updated?
    ensures var r := Step(s, id, quote, env);
      id in r.quotes && Col(r.quotes[id], "status") == Str("analyzed")
      && (Course(id, quote, env).newItems.None? ==> ItemsOf(r, id) == ItemsOf(s, id))
  {
  }

  /**
   * The new item rows of a successful quote are the analysis items mapped one
   * by one, in order: one row per extracted item.
   */
  lemma NewItemsAreMapped(id: string, quote: Row, env: Env)
    requires Course(id, quote, env).Updated? && Course(id, quote, env).newItems.Some?
    ensures var stage := Course(id, quote, env);
      var items := Get(stage.analysis, "items");
      items.Arr? && NonEmpty(items) && |stage.newItems.value| == |items.elems|
      && forall i :: 0 <= i < |items.elems| ==> Success(stage.newItems.value[i]) == ItemRow(id, items.elems[i], i)
  {
  }

  /**
   * Item replacement: with both writes succeeding the quote's items are
   * exactly the new rows, numbered by position from 0; an insert that fails
   * after the delete leaves none, a failed delete keeps the old ones first.
   */
  lemma ItemsReplaced(s: Store, id: string, quote: Row, env: Env)
    requires Course(id, quote, env).Updated? && Course(id, quote, env).newItems.Some?
    ensures var rows := Course(id, quote, env).newItems.value;
      var after := ItemsOf(Step(s, id, quote, env), id);
      (!env.deleteFails(id) && !env.insertFails(id) ==> after == rows)
      && (!env.deleteFails(id) && env.insertFails(id) ==> after == [])
      && (env.deleteFails(id) && !env.insertFails(id) ==> after == ItemsOf(s, id) + rows)
      && (forall i :: 0 <= i < |rows| ==> Col(rows[i], "sort_order") == Num(i) && Col(rows[i], "quote_id") == Str(id))
  {
    var stage := Course(id, quote, env);
    NewItemsAreMapped(id, quote, env);
    var items := Get(stage.analysis, "items");
    forall i | 0 <= i < |stage.newItems.value|
      ensures Col(stage.newItems.value[i], "sort_order") == Num(i) && Col(stage.newItems.value[i], "quote_id") == Str(id)
    {
      assert Success(stage.newItems.value[i]) == ItemRow(id, items.elems[i], i);
    }
  }

  /** A failed update leaves both tables as they were. */
  lemma UpdateFailureWritesNothing(s: Store, id: string, quote: Row, env: Env)
    requires Course(id, quote, env).UpdateFailed? || Course(id, quote, env).FailedBeforeUpdate?
    ensures Step(s, id, quote, env) == s
  {
  }

  // ---------------------------------------------------------------------------
  // The batch
  // ---------------------------------------------------------------------------

  datatype Tally = Tally(success: nat, failed: nat, errors: seq<string>)

  /** A fetched quote: its id and the row as fetched. */
  datatype Fetched = Fetched(id: string, row: Row)

  /** The results after processing `batch` in order. */
  function TallyOf(batch: seq<Fetched>, env: Env): Tally {
    if |batch| == 0 then Tally(0, 0, [])
    else
      var t := TallyOf(batch[..|batch| - 1], env);
      var last := batch[|batch| - 1];
      match ErrorEntry(last.row, Course(last.id, last.row, env))
      case None => Tally(t.success + 1, t.failed, t.errors)
      case Some(e) => Tally(t.success, t.failed + 1, t.errors + [e])
  }

  /** The tables after processing `batch` in order. */
  function StoreAfter(s: Store, batch: seq<Fetched>, env: Env): Store {
    if |batch| == 0 then s
    else
      var last := batch[|batch| - 1];
      Step(StoreAfter(s, batch[..|batch| - 1], env), last.id, last.row, env)
  }

  /** Every processed quote is counted once: success + failed is the batch size, and each failure adds one error entry. */
  lemma {:induction false} TallyCounts(batch: seq<Fetched>, env: Env)
    ensures var t := TallyOf(batch, env);
      t.success + t.failed == |batch| && |t.errors| == t.failed
    decreases |batch|
  {
    if |batch| > 0 {
      TallyCounts(batch[..|batch| - 1], env);
    }
  }

  /** Whether processing a fetched quote adds an error entry. */
  predicate Fails(f: Fetched, env: Env) {
    ErrorEntry(f.row, Course(f.id, f.row, env)).Some?
  }

  /** The test `Fails` under `env`, as one value for `Filter`. */
  function FailsUnder(env: Env): Fetched -> bool {
    f => Fails(f, env)
  }

  /**
   * The error entries are those of the failed quotes, in batch order: the
   * i-th entry is the one the i-th failing quote produces on its own.
   */
  lemma {:induction false} ErrorsInOrder(batch: seq<Fetched>, env: Env)
    ensures var failed := Filter(batch, FailsUnder(env));
      var errors := TallyOf(batch, env).errors;
      |errors| == |failed|
      && forall i :: 0 <= i < |failed| ==> ErrorEntry(failed[i].row, Course(failed[i].id, failed[i].row, env)) == Some(errors[i])
    decreases |batch|
  {
    if |batch| > 0 {
      var init := batch[..|batch| - 1];
      var last := batch[|batch| - 1];
      ErrorsInOrder(init, env);
      assert FailsUnder(env)(last) == Fails(last, env);
    }
  }

  predicate DistinctIds(batch: seq<Fetched>) {
    forall i, j :: 0 <= i < j < |batch| ==> batch[i].id != batch[j].id
  }

  predicate InBatch(id: string, batch: seq<Fetched>) {
    exists i :: 0 <= i < |batch| && batch[i].id == id
  }

  /** An id missing from a batch is missing from every prefix of it. */
  lemma NotInPrefix(id: string, batch: seq<Fetched>, n: nat)
    requires n <= |batch| && !InBatch(id, batch)
    ensures !InBatch(id, batch[..n])
  {
    forall i | 0 <= i < n ensures batch[..n][i].id != id {
      assert batch[..n][i] == batch[i];
    }
  }

  /** The ids of a prefix of a batch of distinct ids are distinct, and none is the last id. */
  lemma DistinctPrefix(batch: seq<Fetched>)
    requires batch != [] && DistinctIds(batch)
    ensures DistinctIds(batch[..|batch| - 1]) && !InBatch(batch[|batch| - 1].id, batch[..|batch| - 1])
  {
    var init := batch[..|batch| - 1];
    forall i, j | 0 <= i < j < |init| ensures init[i].id != init[j].id {
      assert init[i] == batch[i] && init[j] == batch[j];
    }
    forall i | 0 <= i < |init| ensures init[i].id != batch[|batch| - 1].id {
      assert init[i] == batch[i];
    }
  }

  /** A quote outside the batch keeps its row and its items. */
  lemma {:induction false} OthersUntouched(s: Store, batch: seq<Fetched>, env: Env, id: string)
    requires !InBatch(id, batch)
    ensures var r := StoreAfter(s, batch, env);
      (id in r.quotes <==> id in s.quotes) && (id in s.quotes ==> r.quotes[id] == s.quotes[id])
      && ItemsOf(r, id) == ItemsOf(s, id)
    decreases |batch|
  {
    if |batch| > 0 {
      var init := batch[..|batch| - 1];
      NotInPrefix(id, batch, |batch| - 1);
      assert batch[|batch| - 1].id != id;
      OthersUntouched(s, init, env, id);
    }
  }

  /**
   * Each quote of a batch of distinct ids ends exactly as if it had been
   * processed alone: the others' processing does not reach it.
   */
  lemma {:induction false} QuotesIsolated(s: Store, batch: seq<Fetched>, env: Env, k: nat)
    requires DistinctIds(batch) && k < |batch|
    ensures var r := StoreAfter(s, batch, env);
      var alone := Step(s, batch[k].id, batch[k].row, env);
      (batch[k].id in r.quotes <==> batch[k].id in alone.quotes)
      && (batch[k].id in r.quotes ==> r.quotes[batch[k].id] == alone.quotes[batch[k].id])
      && ItemsOf(r, batch[k].id) == ItemsOf(alone, batch[k].id)
    decreases |batch|
  {
    var init := batch[..|batch| - 1];
    DistinctPrefix(batch);
    if k == |batch| - 1 {
      OthersUntouched(s, init, env, batch[k].id);
    } else {
      assert init[k] == batch[k];
      QuotesIsolated(s, init, env, k);
    }
  }

  // ---------------------------------------------------------------------------
  // Selection
  // ---------------------------------------------------------------------------

  predicate IsPending(quotes: map<string, Row>, id: string) {
    id in quotes && Col(quotes[id], "status") == Str("pending")
  }

  lemma InBatchAppend(batch: seq<Fetched>, f: Fetched)
    ensures forall id :: InBatch(id, batch) ==> InBatch(id, batch + [f])
    ensures InBatch(f.id, batch + [f])
  {
    forall id | InBatch(id, batch) ensures InBatch(id, batch + [f]) {
      var i :| 0 <= i < |batch| && batch[i].id == id;
      assert (batch + [f])[i] == batch[i];
    }
    assert (batch + [f])[|batch|] == f;
  }

  /**
   * The quotes `.in('id', quoteIds).eq('status', 'pending')` returns: the
   * requested ids that name a pending quote, each once, in request order.
   */
  function Selected(quotes: map<string, Row>, ids: seq<Value>): (r: seq<Fetched>)
    ensures DistinctIds(r)
    ensures forall i :: 0 <= i < |r| ==> IsPending(quotes, r[i].id) && r[i].row == quotes[r[i].id] && Str(r[i].id) in ids
    ensures forall id :: IsPending(quotes, id) && Str(id) in ids ==> InBatch(id, r)
  {
    if |ids| == 0 then []
    else
      var init := Selected(quotes, ids[..|ids| - 1]);
      var last := ids[|ids| - 1];
      assert forall v :: v in ids ==> v in ids[..|ids| - 1] || v == last;
      if last.Str? && IsPending(quotes, last.s) && !InBatch(last.s, init) then
        var r := init + [Fetched(last.s, quotes[last.s])];
        assert forall i :: 0 <= i < |init| ==> r[i] == init[i];
        InBatchAppend(init, Fetched(last.s, quotes[last.s]));
        r
      else init
  }

  /**
   * Only pending quotes are processed, and a quote that succeeded is no longer
   * pending, so requesting it again does not process it again.
   */
  lemma SucceededNotReselected(s: Store, batch: seq<Fetched>, env: Env, k: nat, ids: seq<Value>)
    requires DistinctIds(batch) && k < |batch|
    requires Course(batch[k].id, batch[k].row, env).Updated?
    ensures forall i :: 0 <= i < |Selected(StoreAfter(s, batch, env).quotes, ids)| ==>
      Selected(StoreAfter(s, batch, env).quotes, ids)[i].id != batch[k].id
  {
    QuotesIsolated(s, batch, env, k);
    var alone := Step(s, batch[k].id, batch[k].row, env);
    SuccessWrites(s, batch[k].id, batch[k].row, env);
    assert !IsPending(StoreAfter(s, batch, env).quotes, batch[k].id);
  }

  // ---------------------------------------------------------------------------
  // The stateful route
  // ---------------------------------------------------------------------------

  /** The body of the loop for one quote: returns the error entry, if any. */
  method AnalyzeOne(db: QuoteDb, id: string, quote: Row, env: Env) returns (entry: Option<string>)
    modifies db
    ensures db.State() == Step(old(db.State()), id, quote, env)
    ensures entry == ErrorEntry(quote, Course(id, quote, env))
  {
    var stage := Course(id, quote, env);
    entry := ErrorEntry(quote, stage);
    if stage.FailedAfterUpdate? || stage.Updated? {
      db.quotes := db.quotes[id := QuoteAfter(quote, stage, env.now)];
    }
    if stage.Updated? && stage.newItems.Some? {
      // delete the quote's items, then insert the new ones
      var kept := if id in db.quoteItems then db.quoteItems[id] else [];
      if !env.deleteFails(id) {
        kept := [];
      }
      var inserted := if env.insertFails(id) then [] else stage.newItems.value;
      db.quoteItems := db.quoteItems[id := kept + inserted];
    }
  }

  /**
   * The route: 401 without the cookie, 500 without the API key, 400 for a
   * missing, non-array or empty `quoteIds`, 500 when the fetch fails or the
   * body is no object, 400 when no requested quote is pending, and
   * otherwise the tally after processing each selected quote in turn.
   */
  method Post(db: QuoteDb, authed: bool, apiKeySet: bool, body: Option<Value>, fetchFails: bool, env: Env)
    returns (resp: Response<Tally>)
    modifies db
    ensures !authed ==> resp == Error(401, "Ej inloggad") && db.State() == old(db.State())
    ensures authed && !apiKeySet ==> resp == Error(500, "AI-tjänsten är inte konfigurerad") && db.State() == old(db.State())
    ensures authed && apiKeySet && (body.None? || IsNullish(body.value)) ==>
      resp == Error(500, "Kunde inte analysera offerterna") && db.State() == old(db.State())
    ensures authed && apiKeySet && body.Some? && !IsNullish(body.value) ==>
      var ids := Get(body.value, "quoteIds");
      var batch := Selected(old(db.quotes), Elements(ids));
      (!ids.Arr? || |ids.elems| == 0 ==> resp == Error(400, "Inga offerter valda") && db.State() == old(db.State()))
      && (ids.Arr? && |ids.elems| > 0 && fetchFails ==> resp == Error(500, "Kunde inte analysera offerterna") && db.State() == old(db.State()))
      && (ids.Arr? && |ids.elems| > 0 && !fetchFails && |batch| == 0 ==>
            resp == Error(400, "Inga offerter att analysera") && db.State() == old(db.State()))
      && (ids.Arr? && |ids.elems| > 0 && !fetchFails && |batch| > 0 ==>
            resp == Ok(TallyOf(batch, env)) && db.State() == StoreAfter(old(db.State()), batch, env))
  {
    if !authed {
      return Error(401, "Ej inloggad");
    }
    if !apiKeySet {
      return Error(500, "AI-tjänsten är inte konfigurerad");
    }
    if body.None? || IsNullish(body.value) {
      return Error(500, "Kunde inte analysera offerterna");
    }
    var ids := Get(body.value, "quoteIds");
    if !Truthy(ids) || !ids.Arr? || |ids.elems| == 0 {
      return Error(400, "Inga offerter valda");
    }
    if fetchFails {
      return Error(500, "Kunde inte analysera offerterna");
    }
    var batch := Selected(db.quotes, ids.elems);
    if |batch| == 0 {
      return Error(400, "Inga offerter att analysera");
    }
    var tally := AnalyzeAll(db, batch, env);
    return Ok(tally);
  }

  /** The `for (const quote of quotes)` loop: each quote in turn, each failure caught and counted. */
  method AnalyzeAll(db: QuoteDb, batch: seq<Fetched>, env: Env) returns (tally: Tally)
    modifies db
    ensures tally == TallyOf(batch, env)
    ensures db.State() == StoreAfter(old(db.State()), batch, env)
  {
    ghost var start := db.State();
    var success, failed, errors := 0, 0, [];
    var k := 0;
    while k < |batch|
      invariant 0 <= k <= |batch|
      invariant Tally(success, failed, errors) == TallyOf(batch[..k], env)
      invariant db.State() == StoreAfter(start, batch[..k], env)
    {
      var entry := AnalyzeOne(db, batch[k].id, batch[k].row, env);
      assert batch[..k + 1][..k] == batch[..k];
      match entry {
        case None => success := success + 1;
        case Some(e) =>
          failed := failed + 1;
          errors := errors + [e];
      }
      k := k + 1;
    }
    assert batch[..k] == batch;
    return Tally(success, failed, errors);
  }
}

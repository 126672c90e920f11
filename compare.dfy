/**
 * The compare route (src/app/api/compare/route.ts): check the request, send
 * the category's quotes to the comparison prompt (its context lines and, as
 * the `OFFERTER` block, the quote entries themselves), store the result with a
 * plain insert into the comparisons table, and return it even when the save
 * fails. Its GET is `ComparisonsTable.List`.
 */
module Compare {

  import opened Wrappers
  import opened Js
  import opened Http
  import JsonRecovery
  import opened Comparisons

  const TwoRequired: string := "Minst två offerter krävs för jämförelse"
  const CompareFailed: string := "Kunde inte jämföra offerter. Försök igen."
  const UnknownProject: string := "Okänt projekt"

  /**
   * `quoteIds.length < 2` as JavaScript compares: a missing length is
   * `undefined`, which is not below 2; `null` and booleans compare as 0 and 1.
   */
  predicate LengthBelowTwo(ids: Value) {
    match LengthOf(ids)
    case Num(n) => n < 2
    case Null => true
    case Bool(_) => true
    case _ => false
  }

  /** The request check: `!categoryId || !quoteIds || quoteIds.length < 2` rejects. */
  predicate Acceptable(body: Value) {
    Truthy(Get(body, "categoryId")) && Truthy(Get(body, "quoteIds")) && !LengthBelowTwo(Get(body, "quoteIds"))
  }

  /** An array of ids passes exactly when it has two or more entries; the fetched quotes do not enter the check. */
  lemma AcceptableArray(body: Value)
    requires Get(body, "quoteIds").Arr?
    ensures Acceptable(body) <==> Truthy(Get(body, "categoryId")) && |Get(body, "quoteIds").elems| >= 2
  {
  }

  /** The analysis entry sent for a quote without a stored `ai_analysis`. */
  function FallbackAnalysis(quote: Row): Value {
    Obj(map[
      "total" := Col(quote, "total_amount"),
      "items" := Col(quote, "quote_items"),
      "terms" := Obj(map[
        "payment" := Col(quote, "payment_terms"),
        "delivery" := Col(quote, "delivery_terms"),
        "warranty" := Col(quote, "warranty_period")])])
  }

  /** One entry of `quotesForComparison`. */
  function QuoteForComparison(quote: Row): (v: Value)
    ensures Get(v, "supplier_name") == Col(quote, "supplier_name")
    ensures Truthy(Col(quote, "ai_analysis")) ==> Get(v, "ai_analysis") == Col(quote, "ai_analysis")
    ensures !Truthy(Col(quote, "ai_analysis")) ==>
      var a := Get(v, "ai_analysis");
      Get(a, "total") == Col(quote, "total_amount") && Get(a, "items") == Col(quote, "quote_items")
      && Get(Get(a, "terms"), "payment") == Col(quote, "payment_terms")
      && Get(Get(a, "terms"), "delivery") == Col(quote, "delivery_terms")
      && Get(Get(a, "terms"), "warranty") == Col(quote, "warranty_period")
  {
    Obj(map["supplier_name" := Col(quote, "supplier_name"), "ai_analysis" := Or(Col(quote, "ai_analysis"), FallbackAnalysis(quote))])
  }

  /** `quotes.map(...)`: one entry per fetched quote, in order. */
  function QuotesForComparison(quotes: seq<Row>): (r: seq<Value>)
    ensures |r| == |quotes|
    ensures forall i :: 0 <= i < |quotes| ==> r[i] == QuoteForComparison(quotes[i])
  {
    seq(|quotes|, i requires 0 <= i < |quotes| => QuoteForComparison(quotes[i]))
  }

  /** `category.project?.name || 'Okänt projekt'`, as the prompt prints it. */
  function ProjectName(category: Row): (r: string)
    ensures !Truthy(Get(Col(category, "project"), "name")) ==> r == UnknownProject
    ensures Get(Col(category, "project"), "name").Str? && Truthy(Get(Col(category, "project"), "name")) ==>
      r == Get(Col(category, "project"), "name").s
  {
    ToJsString(Or(Get(Col(category, "project"), "name"), Str(UnknownProject)))
  }

  /**
   * Different suppliers in the same place give the prompt different quote
   * entries, so the comparison can depend on what the quotes contain and not
   * only on how many there are.
   */
  lemma EntriesTellQuotesApart(a: seq<Row>, b: seq<Row>, i: nat)
    requires |a| == |b| && i < |a|
    requires Col(a[i], "supplier_name") != Col(b[i], "supplier_name")
      || (Truthy(Col(a[i], "ai_analysis")) && Truthy(Col(b[i], "ai_analysis")) && Col(a[i], "ai_analysis") != Col(b[i], "ai_analysis"))
    ensures QuotesForComparison(a) != QuotesForComparison(b)
  {
    assert QuotesForComparison(a)[i] != QuotesForComparison(b)[i];
  }

  /**
   * `compareQuotes(...)`: the model's reply to the comparison prompt, through
   * the recovery ladder. The reply sees the context text and the quote
   * entries that the prompt's `OFFERTER` block serialises.
   */
  function CompareQuotes(
    reply: (string, seq<Value>) -> Result<seq<JsonRecovery.ContentBlock>, Thrown>,
    parse: string -> Option<Value>,
    projectName: string, categoryName: string, quotes: seq<Value>, specificationText: Value): Result<Value, Thrown>
  {
    JsonRecovery.HandleReply(
      reply(JsonRecovery.ComparisonContext(projectName, categoryName, quotes, specificationText), quotes),
      parse, JsonRecovery.Comparison).result
  }

  /**
   * The inserted row. Reading `comparison.summary` throws for a `null`
   * result and `comparison.recommendation.recommended_supplier` throws when
   * the recommendation is missing.
   */
  function SavedRow(categoryId: Value, quoteIds: Value, comparison: Value): (r: Result<Row, Thrown>)
    ensures r.Failure? <==> IsNullish(comparison) || IsNullish(Get(comparison, "recommendation"))
    ensures r.Success? ==> comparison.Obj? && "id" !in r.value
    ensures r.Success? ==> Col(r.value, "category_id") == categoryId && Col(r.value, "quote_ids") == quoteIds
    ensures r.Success? ==> Col(r.value, "recommendation") == Get(Get(comparison, "recommendation"), "recommended_supplier")
    ensures r.Success? ==> Col(r.value, "comparison_summary") == Get(comparison, "summary")
  {
    if IsNullish(comparison) then Failure(NullReadError(comparison, "summary"))
    else
      var recommendation := Get(comparison, "recommendation");
      if IsNullish(recommendation) then Failure(NullReadError(recommendation, "recommended_supplier"))
      else
        var row := map[
          "price_analysis" := Get(comparison, "price_comparison"),
          "specification_compliance" := Get(comparison, "specification_compliance"),
          "pros_cons" := Get(comparison, "pros_cons"),
          "recommendation_reasoning" := Get(recommendation, "reasoning"),
          "comparison_summary" := Get(comparison, "summary"),
          "recommendation" := Get(recommendation, "recommended_supplier"),
          "quote_ids" := quoteIds,
          "category_id" := categoryId];
        assert "id" !in row;
        assert row["category_id"] == categoryId && row["quote_ids"] == quoteIds;
        assert row["recommendation"] == Get(recommendation, "recommended_supplier");
        assert row["comparison_summary"] == Get(comparison, "summary");
        Success(DropUndefined(row))
  }

  /** `{ id: savedComparison?.id, ...comparison }`: the comparison's own fields win over `id`. */
  function ResponseBody(id: Value, comparison: map<string, Value>): (r: Value)
    ensures r.Obj?
    ensures forall k :: k in comparison && comparison[k] != Undefined ==> Col(r.fields, k) == comparison[k]
    ensures "id" !in comparison ==> Col(r.fields, "id") == id
  {
    Obj(DropUndefined(map["id" := id] + comparison))
  }

  /** A failed save still returns the whole comparison, without an id of its own. */
  lemma UnsavedResponse(comparison: map<string, Value>)
    requires "id" !in comparison
    ensures var r := ResponseBody(Undefined, comparison);
      "id" !in r.fields && forall k :: k in comparison && comparison[k] != Undefined ==> r.fields[k] == comparison[k]
  {
  }

  /**
   * POST: 500 when the body is not an object; 400 when the request check
   * fails; 500 when the category or the quotes cannot be fetched, the
   * comparison fails or its result lacks the read fields; otherwise the
   * comparison, with the id of the inserted row when the insert succeeded.
   */
  method Post(
    table: ComparisonsTable,
    body: Option<Value>,
    category: Option<Row>,
    fetched: Option<seq<Row>>,
    reply: (string, seq<Value>) -> Result<seq<JsonRecovery.ContentBlock>, Thrown>,
    parse: string -> Option<Value>,
    insertFails: bool)
    returns (resp: Response<Value>)
    requires table.Valid()
    modifies table
    ensures table.Valid()
    ensures body.None? || IsNullish(body.value) ==> resp == Error(500, CompareFailed) && table.rows == old(table.rows)
    ensures body.Some? && !IsNullish(body.value) && !Acceptable(body.value) ==>
      resp == Error(400, TwoRequired) && table.rows == old(table.rows)
    ensures body.Some? && !IsNullish(body.value) && Acceptable(body.value) && (category.None? || fetched.None?) ==>
      resp == Error(500, CompareFailed) && table.rows == old(table.rows)
    ensures body.Some? && !IsNullish(body.value) && Acceptable(body.value) && category.Some? && fetched.Some? ==>
      var b := body.value;
      var comparison := CompareQuotes(reply, parse, ProjectName(category.value), ToJsString(Col(category.value, "name")),
        QuotesForComparison(fetched.value), Get(b, "specificationText"));
      var row := if comparison.Success? then SavedRow(Get(b, "categoryId"), Get(b, "quoteIds"), comparison.value) else Failure(ErrorInstance(""));
      (comparison.Failure? || row.Failure? ==> resp == Error(500, CompareFailed) && table.rows == old(table.rows))
      && (comparison.Success? && row.Success? ==>
            var inserted := !insertFails && LatestIndex(old(table.rows), Get(b, "categoryId")).None?;
            (inserted ==> table.rows == old(table.rows) + [row.value["id" := Num(old(table.nextId))]]
                          && resp == Ok(ResponseBody(Num(old(table.nextId)), comparison.value.fields)))
            && (!inserted ==> table.rows == old(table.rows) && resp == Ok(ResponseBody(Undefined, comparison.value.fields))))
  {
    if body.None? || IsNullish(body.value) {
      return Error(500, CompareFailed);
    }
    var b := body.value;
    if !Acceptable(b) {
      return Error(400, TwoRequired);
    }
    if category.None? || fetched.None? {
      return Error(500, CompareFailed);
    }
    var quotes := QuotesForComparison(fetched.value);
    var comparison := CompareQuotes(reply, parse, ProjectName(category.value), ToJsString(Col(category.value, "name")),
      quotes, Get(b, "specificationText"));
    if comparison.Failure? {
      return Error(500, CompareFailed);
    }
    var row := SavedRow(Get(b, "categoryId"), Get(b, "quoteIds"), comparison.value);
    if row.Failure? {
      return Error(500, CompareFailed);
    }
    var saved := table.Insert(row.value, insertFails);
    var id := if saved.Some? then saved.value["id"] else Undefined;
    return Ok(ResponseBody(id, comparison.value.fields));
  }
}

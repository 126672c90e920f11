/**
 * The `comparisons` table and its route (src/app/api/comparisons/route.ts):
 * GET the newest comparison of a category, POST an upsert keyed on
 * `category_id`, DELETE every comparison of a category.
 *
 * The table is a sequence of rows in insertion order, so position order is
 * `created_at` order. `onConflict: 'category_id'` needs a unique constraint on
 * that column; the table keeps it as its invariant `Valid()`, which is also
 * what makes the plain insert of the compare route fail for a category that
 * already has a comparison.
 */
module Comparisons {

  import opened Wrappers
  import opened Js
  import opened Http

  predicate OfCategory(row: Row, category: Value) {
    Col(row, "category_id") == category
  }

  /** The unique constraint on `category_id`. */
  predicate OnePerCategory(rows: seq<Row>) {
    forall i, j :: 0 <= i < j < |rows| ==> Col(rows[i], "category_id") != Col(rows[j], "category_id")
  }

  /** The position of the category's newest row. */
  function LatestIndex(rows: seq<Row>, category: Value): (r: Option<nat>)
    ensures r.None? <==> forall i :: 0 <= i < |rows| ==> !OfCategory(rows[i], category)
    ensures r.Some? ==> r.value < |rows| && OfCategory(rows[r.value], category)
    ensures r.Some? ==> forall i :: r.value < i < |rows| ==> !OfCategory(rows[i], category)
  {
    if |rows| == 0 then None
    else if OfCategory(rows[|rows| - 1], category) then Some(|rows| - 1)
    else LatestIndex(rows[..|rows| - 1], category)
  }

  /** `.eq('category_id', c).order('created_at', { ascending: false }).limit(1)`; no row is `null`. */
  function LatestOf(rows: seq<Row>, category: Value): Option<Row> {
    match LatestIndex(rows, category)
    case None => None
    case Some(i) => Some(rows[i])
  }

  /** `.delete().eq('category_id', c)`: the rows of other categories, in their order. */
  function WithoutCategory(rows: seq<Row>, category: Value): (r: seq<Row>)
    ensures |r| <= |rows|
    ensures forall i :: 0 <= i < |r| ==> !OfCategory(r[i], category) && r[i] in rows
    ensures forall row :: row in rows && !OfCategory(row, category) ==> row in r
  {
    if |rows| == 0 then []
    else
      var init := WithoutCategory(rows[..|rows| - 1], category);
      var last := rows[|rows| - 1];
      assert forall row :: row in rows ==> row in rows[..|rows| - 1] || row == last;
      if OfCategory(last, category) then init else init + [last]
  }

  /** The columns POST writes. */
  function SavedFields(category: Value, specification: Value, quoteIds: Value, result: Value, now: string): (f: Row)
    ensures Col(f, "specification_id") == (if Truthy(specification) then specification else Null)
    ensures Col(f, "updated_at") == Str(now)
    ensures Col(f, "category_id") == category && Col(f, "quote_ids") == quoteIds && Col(f, "result") == result
  {
    map[
      "quote_ids" := quoteIds,
      "result" := result,
      "specification_id" := Or(specification, Null),
      "updated_at" := Str(now),
      "category_id" := category
    ]
  }

  /** The table after an upsert of `fields` on `category_id`: the category's row is updated, or a new row is appended. */
  function Upserted(rows: seq<Row>, fields: Row, id: nat): seq<Row> {
    match LatestIndex(rows, Col(fields, "category_id"))
    case Some(i) => rows[i := rows[i] + fields]
    case None => rows + [fields["id" := Num(id)]]
  }

  /**
   * After an upsert the category has exactly one row, which holds every column
   * written; the other rows are unchanged, and the constraint still holds.
   */
  lemma UpsertedOne(rows: seq<Row>, fields: Row, id: nat)
    requires OnePerCategory(rows) && "category_id" in fields && "id" !in fields
    ensures var r := Upserted(rows, fields, id);
      var c := fields["category_id"];
      OnePerCategory(r)
      && LatestIndex(r, c).Some?
      && (forall i :: 0 <= i < |r| && OfCategory(r[i], c) ==> i == LatestIndex(r, c).value)
      && (forall k :: k in fields ==> Col(r[LatestIndex(r, c).value], k) == fields[k])
      && (forall i :: 0 <= i < |rows| && !OfCategory(rows[i], c) ==> i < |r| && r[i] == rows[i])
  {
    var c := fields["category_id"];
    var r := Upserted(rows, fields, id);
    match LatestIndex(rows, c)
    case Some(i) =>
      assert OfCategory(r[i], c);
      forall a, b | 0 <= a < b < |r| ensures Col(r[a], "category_id") != Col(r[b], "category_id") {
        if a != i && b != i {
          assert r[a] == rows[a] && r[b] == rows[b];
        }
      }
    case None =>
      assert r[|rows|] == fields["id" := Num(id)];
      forall a, b | 0 <= a < b < |r| ensures Col(r[a], "category_id") != Col(r[b], "category_id") {
        if b < |rows| {
          assert r[a] == rows[a] && r[b] == rows[b];
        } else {
          assert r[a] == rows[a];
        }
      }
  }

  /** A second save for the same category replaces the first: one row, holding the second call's columns. */
  lemma SecondSaveReplaces(rows: seq<Row>, first: Row, second: Row, id1: nat, id2: nat)
    requires OnePerCategory(rows) && "category_id" in first && "category_id" in second
    requires "id" !in first && "id" !in second
    requires first["category_id"] == second["category_id"]
    ensures var r := Upserted(Upserted(rows, first, id1), second, id2);
      var c := second["category_id"];
      |r| == |Upserted(rows, first, id1)|
      && LatestIndex(r, c).Some?
      && (forall k :: k in second ==> Col(r[LatestIndex(r, c).value], k) == second[k])
      && (forall i :: 0 <= i < |r| && OfCategory(r[i], c) ==> i == LatestIndex(r, c).value)
  {
    UpsertedOne(rows, first, id1);
    UpsertedOne(Upserted(rows, first, id1), second, id2);
  }

  /** Deleting a category twice is deleting it once. */
  lemma {:induction false} DeleteIdempotent(rows: seq<Row>, category: Value)
    ensures WithoutCategory(WithoutCategory(rows, category), category) == WithoutCategory(rows, category)
    decreases |rows|
  {
    if |rows| > 0 {
      var init := rows[..|rows| - 1];
      DeleteIdempotent(init, category);
      var w := WithoutCategory(init, category);
      if !OfCategory(rows[|rows| - 1], category) {
        assert (w + [rows[|rows| - 1]])[..|w|] == w;
      }
    }
  }

  lemma LatestOfSnoc(rows: seq<Row>, row: Row, category: Value)
    ensures LatestOf(rows + [row], category) == if OfCategory(row, category) then Some(row) else LatestOf(rows, category)
  {
    assert (rows + [row])[..|rows|] == rows;
    if !OfCategory(row, category) && LatestIndex(rows, category).Some? {
      assert (rows + [row])[LatestIndex(rows, category).value] == rows[LatestIndex(rows, category).value];
    }
  }

  /** After a delete every other category keeps its newest comparison (the deleted one has none: `WithoutCategory`). */
  lemma {:induction false} DeleteKeepsOthers(rows: seq<Row>, category: Value, other: Value)
    requires other != category
    ensures LatestOf(WithoutCategory(rows, category), other) == LatestOf(rows, other)
    decreases |rows|
  {
    if |rows| > 0 {
      var init := rows[..|rows| - 1];
      var last := rows[|rows| - 1];
      assert rows == init + [last];
      DeleteKeepsOthers(init, category, other);
      LatestOfSnoc(init, last, other);
      if !OfCategory(last, category) {
        LatestOfSnoc(WithoutCategory(init, category), last, other);
      }
    }
  }

  /** Deleting keeps the constraint. */
  lemma WithoutKeepsOne(rows: seq<Row>, category: Value)
    requires OnePerCategory(rows)
    ensures OnePerCategory(WithoutCategory(rows, category))
    decreases |rows|
  {
    if |rows| > 0 {
      var init := rows[..|rows| - 1];
      WithoutKeepsOne(init, category);
      var w := WithoutCategory(init, category);
      var last := rows[|rows| - 1];
      if !OfCategory(last, category) {
        forall a, b | 0 <= a < b < |w| + 1 ensures Col((w + [last])[a], "category_id") != Col((w + [last])[b], "category_id") {
          if b == |w| {
            var j :| 0 <= j < |init| && init[j] == w[a];
            assert rows[j] == init[j];
          }
        }
      }
    }
  }

  /** A list in reverse order: `.order('created_at', { ascending: false })`. */
  function NewestFirst(rows: seq<Row>): (r: seq<Row>)
    ensures |r| == |rows|
    ensures forall i :: 0 <= i < |rows| ==> r[i] == rows[|rows| - 1 - i]
  {
    if |rows| == 0 then [] else [rows[|rows| - 1]] + NewestFirst(rows[..|rows| - 1])
  }

  /** The rows of one category, in their order. */
  function OnlyCategory(rows: seq<Row>, category: Value): (r: seq<Row>)
    ensures forall i :: 0 <= i < |r| ==> OfCategory(r[i], category) && r[i] in rows
    ensures forall row :: row in rows && OfCategory(row, category) ==> row in r
  {
    if |rows| == 0 then []
    else
      var init := OnlyCategory(rows[..|rows| - 1], category);
      var last := rows[|rows| - 1];
      assert forall row :: row in rows ==> row in rows[..|rows| - 1] || row == last;
      if OfCategory(last, category) then init + [last] else init
  }

  const NotLoggedIn: string := "Ej inloggad"
  const CategoryRequired: string := "categoryId krävs"
  const FieldsRequired: string := "category_id, quote_ids och result krävs"

  /** A query parameter `!value` rejects: absent or empty. */
  predicate Missing(param: Option<string>) {
    param.None? || param.value == ""
  }

  class ComparisonsTable {
    var rows: seq<Row>
    var nextId: nat

    predicate Valid()
      reads this
    {
      OnePerCategory(rows)
    }

    constructor ()
      ensures rows == [] && nextId == 0 && Valid()
    {
      rows := [];
      nextId := 0;
    }

    /** GET: 401 without the cookie, 400 without `categoryId`, 500 on a query error, else the newest row or `null`. */
    method GetLatest(authed: bool, categoryId: Option<string>, queryFails: bool) returns (resp: Response<Option<Row>>)
      ensures !authed ==> resp == Error(401, NotLoggedIn)
      ensures authed && Missing(categoryId) ==> resp == Error(400, CategoryRequired)
      ensures authed && !Missing(categoryId) && queryFails ==> resp == Error(500, "Kunde inte hämta jämförelse")
      ensures authed && !Missing(categoryId) && !queryFails ==> resp == Ok(LatestOf(rows, Str(categoryId.value)))
    {
      if !authed {
        return Error(401, NotLoggedIn);
      }
      if Missing(categoryId) {
        return Error(400, CategoryRequired);
      }
      if queryFails {
        return Error(500, "Kunde inte hämta jämförelse");
      }
      var latest := LatestIndex(rows, Str(categoryId.value));
      if latest.None? {
        return Ok(None);
      }
      return Ok(Some(rows[latest.value]));
    }

    /**
     * POST: 401 without the cookie; 500 when the body is not an object; 400
     * unless `category_id`, `quote_ids` and `result` are truthy; 500 when the
     * upsert fails; otherwise the upsert, returning the stored row.
     */
    method Post(authed: bool, body: Option<Value>, now: string, upsertFails: bool) returns (resp: Response<Row>)
      requires Valid()
      modifies this
      ensures Valid()
      ensures !authed ==> resp == Error(401, NotLoggedIn) && rows == old(rows)
      ensures authed && (body.None? || IsNullish(body.value)) ==> resp == Error(500, "Kunde inte spara jämförelse") && rows == old(rows)
      ensures authed && body.Some? && !IsNullish(body.value) ==>
        var b := body.value;
        var fields := SavedFields(Get(b, "category_id"), Get(b, "specification_id"), Get(b, "quote_ids"), Get(b, "result"), now);
        var complete := Truthy(Get(b, "category_id")) && Truthy(Get(b, "quote_ids")) && Truthy(Get(b, "result"));
        (!complete ==> resp == Error(400, FieldsRequired) && rows == old(rows))
        && (complete && upsertFails ==> resp == Error(500, "Kunde inte spara jämförelse") && rows == old(rows))
        && (complete && !upsertFails ==>
              rows == Upserted(old(rows), fields, old(nextId))
              && LatestIndex(rows, Get(b, "category_id")).Some?
              && resp == Ok(rows[LatestIndex(rows, Get(b, "category_id")).value]))
    {
      if !authed {
        return Error(401, NotLoggedIn);
      }
      if body.None? || IsNullish(body.value) {
        return Error(500, "Kunde inte spara jämförelse");
      }
      var b := body.value;
      var category := Get(b, "category_id");
      if !Truthy(category) || !Truthy(Get(b, "quote_ids")) || !Truthy(Get(b, "result")) {
        return Error(400, FieldsRequired);
      }
      if upsertFails {
        return Error(500, "Kunde inte spara jämförelse");
      }
      var fields := SavedFields(category, Get(b, "specification_id"), Get(b, "quote_ids"), Get(b, "result"), now);
      UpsertedOne(rows, fields, nextId);
      rows := Upserted(rows, fields, nextId);
      nextId := nextId + 1;
      return Ok(rows[LatestIndex(rows, category).value]);
    }

    /** DELETE: 401, 400 without `categoryId`, 500 on a query error; otherwise success whether or not a row existed. */
    method Delete(authed: bool, categoryId: Option<string>, queryFails: bool) returns (resp: Response<bool>)
      requires Valid()
      modifies this
      ensures Valid()
      ensures !authed ==> resp == Error(401, NotLoggedIn) && rows == old(rows)
      ensures authed && Missing(categoryId) ==> resp == Error(400, CategoryRequired) && rows == old(rows)
      ensures authed && !Missing(categoryId) && queryFails ==> resp == Error(500, "Kunde inte ta bort jämförelse") && rows == old(rows)
      ensures authed && !Missing(categoryId) && !queryFails ==>
        resp == Ok(true) && rows == WithoutCategory(old(rows), Str(categoryId.value))
    {
      if !authed {
        return Error(401, NotLoggedIn);
      }
      if Missing(categoryId) {
        return Error(400, CategoryRequired);
      }
      if queryFails {
        return Error(500, "Kunde inte ta bort jämförelse");
      }
      WithoutKeepsOne(rows, Str(categoryId.value));
      rows := WithoutCategory(rows, Str(categoryId.value));
      return Ok(true);
    }

    /**
     * A plain `.insert(fields).select().single()`: it fails when the write
     * fails or when the category already has a row (the unique constraint);
     * otherwise the row is appended with a fresh id and returned.
     */
    method Insert(fields: Row, writeFails: bool) returns (saved: Option<Row>)
      requires Valid()
      modifies this
      ensures Valid()
      ensures saved.None? <==> writeFails || LatestIndex(old(rows), Col(fields, "category_id")).Some?
      ensures saved.None? ==> rows == old(rows)
      ensures saved.Some? ==> saved.value == fields["id" := Num(old(nextId))] && rows == old(rows) + [saved.value]
    {
      if writeFails || LatestIndex(rows, Col(fields, "category_id")).Some? {
        return None;
      }
      var row := fields["id" := Num(nextId)];
      assert OnePerCategory(rows + [row]) by {
        forall a, b | 0 <= a < b < |rows| + 1
          ensures Col((rows + [row])[a], "category_id") != Col((rows + [row])[b], "category_id")
        {
          assert (rows + [row])[a] == rows[a];
          if b == |rows| {
            assert (rows + [row])[b] == row;
          }
        }
      }
      rows := rows + [row];
      nextId := nextId + 1;
      return Some(row);
    }

    /** The compare route's GET: every row, or the category's rows, newest first. */
    method List(categoryId: Option<string>, queryFails: bool) returns (resp: Response<seq<Row>>)
      ensures queryFails ==> resp == Error(500, "Kunde inte hämta jämförelser")
      ensures !queryFails && Missing(categoryId) ==> resp == Ok(NewestFirst(rows))
      ensures !queryFails && !Missing(categoryId) ==> resp == Ok(NewestFirst(OnlyCategory(rows, Str(categoryId.value))))
    {
      if queryFails {
        return Error(500, "Kunde inte hämta jämförelser");
      }
      var selected := rows;
      if !Missing(categoryId) {
        selected := OnlyCategory(rows, Str(categoryId.value));
      }
      return Ok(NewestFirst(selected));
    }
  }
}

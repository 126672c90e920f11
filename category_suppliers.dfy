/**
 * The `category_suppliers` links between a category and the suppliers asked
 * for a quote (src/app/api/category-suppliers/route.ts). The table is a
 * sequence of link rows in creation order, with distinct ids and at most one
 * link per (category, supplier) pair: the unique constraint whose violation
 * (code 23505) the POST handler reports as 409.
 */
module CategorySuppliers {

  import opened Wrappers
  import opened Js
  import opened Http

  const NotLoggedIn: string := "Ej inloggad"
  const InvalidRequest: string := "Ogiltig förfrågan"
  const IdRequired: string := "ID krävs"

  predicate SamePair(a: Row, b: Row) {
    Col(a, "category_id") == Col(b, "category_id") && Col(a, "supplier_id") == Col(b, "supplier_id")
  }

  /** Distinct ids, and the unique (category, supplier) constraint. */
  predicate WellFormed(links: seq<Row>) {
    forall i, j :: 0 <= i < j < |links| ==> Col(links[i], "id") != Col(links[j], "id") && !SamePair(links[i], links[j])
  }

  /** Whether a link for the pair of `row` already exists. */
  predicate HasPair(links: seq<Row>, row: Row) {
    exists i :: 0 <= i < |links| && SamePair(links[i], row)
  }

  /** The links of a category, in creation order (`.order('created_at')`). */
  function OfCategory(links: seq<Row>, category: string): (r: seq<Row>)
    ensures forall i :: 0 <= i < |r| ==> Col(r[i], "category_id") == Str(category) && r[i] in links
    ensures forall l :: l in links && Col(l, "category_id") == Str(category) ==> l in r
  {
    if |links| == 0 then []
    else
      var init := OfCategory(links[..|links| - 1], category);
      var last := links[|links| - 1];
      assert forall l :: l in links ==> l in links[..|links| - 1] || l == last;
      if Col(last, "category_id") == Str(category) then init + [last] else init
  }

  /** The listing goes link by link, so a category's links keep their creation order. */
  lemma {:induction false} OfCategoryAppend(a: seq<Row>, b: seq<Row>, category: string)
    ensures OfCategory(a + b, category) == OfCategory(a, category) + OfCategory(b, category)
    decreases |b|
  {
    if |b| == 0 {
      assert a + b == a;
    } else {
      var b' := b[..|b| - 1];
      assert (a + b)[..|a + b| - 1] == a + b';
      assert (a + b)[|a + b| - 1] == b[|b| - 1];
      OfCategoryAppend(a, b', category);
    }
  }

  /** The new link: always `pending`, with the deadline and notes as given. */
  function NewLink(id: string, body: Value): (r: Row)
    ensures Col(r, "status") == Str("pending")
    ensures Col(r, "id") == Str(id)
    ensures Col(r, "category_id") == Get(body, "category_id") && Col(r, "supplier_id") == Get(body, "supplier_id")
    ensures Col(r, "response_deadline") == Get(body, "response_deadline") && Col(r, "notes") == Get(body, "notes")
  {
    map[
      "response_deadline" := Get(body, "response_deadline"),
      "notes" := Get(body, "notes"),
      "category_id" := Get(body, "category_id"),
      "supplier_id" := Get(body, "supplier_id"),
      "status" := Str("pending"),
      "id" := Str(id)]
  }

  /**
   * The PATCH `updates` record: `updated_at` always; `status` when truthy,
   * with `sent_at` exactly when it is 'sent'; `response_deadline` and
   * `notes` whenever they are not `undefined`, so `null` clears them.
   */
  function Updates(body: Value, now: string): (u: Row)
    ensures "updated_at" in u && u["updated_at"] == Str(now)
    ensures "status" in u <==> Truthy(Get(body, "status"))
    ensures "status" in u ==> u["status"] == Get(body, "status")
    ensures "sent_at" in u <==> Get(body, "status") == Str("sent")
    ensures "sent_at" in u ==> u["sent_at"] == Str(now)
    ensures "response_deadline" in u <==> Get(body, "response_deadline") != Undefined
    ensures "response_deadline" in u ==> u["response_deadline"] == Get(body, "response_deadline")
    ensures "notes" in u <==> Get(body, "notes") != Undefined
    ensures "notes" in u ==> u["notes"] == Get(body, "notes")
    ensures "id" !in u && "category_id" !in u && "supplier_id" !in u
  {
    var status := Get(body, "status");
    var deadline := Get(body, "response_deadline");
    var notes := Get(body, "notes");
    var stamped := map["updated_at" := Str(now)];
    var withStatus :=
      if !Truthy(status) then stamped
      else if status == Str("sent") then stamped["status" := status]["sent_at" := Str(now)]
      else stamped["status" := status];
    var withDeadline := if deadline != Undefined then withStatus["response_deadline" := deadline] else withStatus;
    if notes != Undefined then withDeadline["notes" := notes] else withDeadline
  }

  /** Every row with the given id updated with `updates`, the others unchanged. */
  function UpdateWhere(links: seq<Row>, id: Value, updates: Row): (r: seq<Row>)
    ensures |r| == |links|
    ensures forall i :: 0 <= i < |links| ==> r[i] == if Col(links[i], "id") == id then links[i] + updates else links[i]
  {
    seq(|links|, i requires 0 <= i < |links| => if Col(links[i], "id") == id then links[i] + updates else links[i])
  }

  /** Every row but those with the given id, in order. */
  function DeleteWhere(links: seq<Row>, id: Value): (r: seq<Row>)
    ensures forall i :: 0 <= i < |r| ==> Col(r[i], "id") != id && r[i] in links
    ensures forall l :: l in links && Col(l, "id") != id ==> l in r
  {
    if |links| == 0 then []
    else
      var init := DeleteWhere(links[..|links| - 1], id);
      var last := links[|links| - 1];
      assert forall l :: l in links ==> l in links[..|links| - 1] || l == last;
      if Col(last, "id") == id then init else init + [last]
  }

  /** Updating never touches a link's id or pair when `updates` does not name them, so the table stays well formed. */
  lemma UpdateKeepsWellFormed(links: seq<Row>, id: Value, updates: Row)
    requires WellFormed(links)
    requires "id" !in updates && "category_id" !in updates && "supplier_id" !in updates
    ensures WellFormed(UpdateWhere(links, id, updates))
  {
    var r := UpdateWhere(links, id, updates);
    forall i, j | 0 <= i < j < |r| ensures Col(r[i], "id") != Col(r[j], "id") && !SamePair(r[i], r[j]) {
      assert Col(r[i], "id") == Col(links[i], "id") && Col(r[j], "id") == Col(links[j], "id");
      assert Col(r[i], "category_id") == Col(links[i], "category_id") && Col(r[j], "category_id") == Col(links[j], "category_id");
      assert Col(r[i], "supplier_id") == Col(links[i], "supplier_id") && Col(r[j], "supplier_id") == Col(links[j], "supplier_id");
    }
  }

  lemma {:induction false} DeleteKeepsWellFormed(links: seq<Row>, id: Value)
    requires WellFormed(links)
    ensures WellFormed(DeleteWhere(links, id))
    decreases |links|
  {
    if |links| > 0 {
      var init := links[..|links| - 1];
      var last := links[|links| - 1];
      assert WellFormed(init) by {
        forall i, j | 0 <= i < j < |init| ensures Col(init[i], "id") != Col(init[j], "id") && !SamePair(init[i], init[j]) {
          assert init[i] == links[i] && init[j] == links[j];
        }
      }
      DeleteKeepsWellFormed(init, id);
      var w := DeleteWhere(init, id);
      if Col(last, "id") != id {
        forall i, j | 0 <= i < j < |w| + 1
          ensures Col((w + [last])[i], "id") != Col((w + [last])[j], "id") && !SamePair((w + [last])[i], (w + [last])[j])
        {
          if j == |w| {
            var k :| 0 <= k < |init| && init[k] == w[i];
            assert links[k] == init[k];
          } else {
            assert (w + [last])[i] == w[i] && (w + [last])[j] == w[j];
          }
        }
      }
    }
  }

  class LinkTable {
    var links: seq<Row>

    predicate Valid()
      reads this
    {
      WellFormed(links)
    }

    constructor ()
      ensures links == [] && Valid()
    {
      links := [];
    }

    /** GET: 401, 400 without `categoryId`, 500 on a query error, else the category's links in creation order. */
    method List(authed: bool, categoryId: Option<string>, queryFails: bool) returns (resp: Response<seq<Row>>)
      ensures !authed ==> resp == Error(401, NotLoggedIn)
      ensures authed && (categoryId.None? || categoryId.value == "") ==> resp == Error(400, "categoryId krävs")
      ensures authed && categoryId.Some? && categoryId.value != "" && queryFails ==> resp == Error(500, "Kunde inte hämta leverantörer")
      ensures authed && categoryId.Some? && categoryId.value != "" && !queryFails ==> resp == Ok(OfCategory(links, categoryId.value))
    {
      if !authed {
        return Error(401, NotLoggedIn);
      }
      if categoryId.None? || categoryId.value == "" {
        return Error(400, "categoryId krävs");
      }
      if queryFails {
        return Error(500, "Kunde inte hämta leverantörer");
      }
      return Ok(OfCategory(links, categoryId.value));
    }

    /**
     * POST: 401; 400 for an unreadable body; 400 without both ids; 409 for a
     * unique violation (code 23505): the pair is already linked, or `newId`
     * is taken; 500 for another insert error; otherwise the new `pending`
     * link, appended. `newId` is the id the database assigns.
     */
    method Add(authed: bool, body: Option<Value>, newId: string, insertFails: bool) returns (resp: Response<Row>)
      requires Valid()
      modifies this
      ensures Valid()
      ensures !authed ==> resp == Error(401, NotLoggedIn) && links == old(links)
      ensures authed && (body.None? || IsNullish(body.value)) ==> resp == Error(400, InvalidRequest) && links == old(links)
      ensures authed && body.Some? && !IsNullish(body.value) ==>
        var b := body.value;
        var row := NewLink(newId, b);
        var complete := Truthy(Get(b, "category_id")) && Truthy(Get(b, "supplier_id"));
        (!complete ==> resp == Error(400, "category_id och supplier_id krävs") && links == old(links))
        && (complete && (HasPair(old(links), row) || exists i :: 0 <= i < |old(links)| && Col(old(links)[i], "id") == Str(newId)) ==>
              resp == Error(409, "Leverantören finns redan i kategorin") && links == old(links))
        && (complete && !HasPair(old(links), row) && (forall i :: 0 <= i < |old(links)| ==> Col(old(links)[i], "id") != Str(newId)) && insertFails ==>
              resp == Error(500, "Kunde inte lägga till leverantör") && links == old(links))
        && (complete && !HasPair(old(links), row) && !insertFails && (forall i :: 0 <= i < |old(links)| ==> Col(old(links)[i], "id") != Str(newId)) ==>
              resp == Ok(row) && links == old(links) + [row])
    {
      if !authed {
        return Error(401, NotLoggedIn);
      }
      if body.None? || IsNullish(body.value) {
        return Error(400, InvalidRequest);
      }
      var b := body.value;
      if !Truthy(Get(b, "category_id")) || !Truthy(Get(b, "supplier_id")) {
        return Error(400, "category_id och supplier_id krävs");
      }
      var row := NewLink(newId, b);
      if HasPair(links, row) || exists i :: 0 <= i < |links| && Col(links[i], "id") == Str(newId) {
        return Error(409, "Leverantören finns redan i kategorin");
      }
      if insertFails {
        return Error(500, "Kunde inte lägga till leverantör");
      }
      assert WellFormed(links + [row]) by {
        forall i, j | 0 <= i < j < |links| + 1
          ensures Col((links + [row])[i], "id") != Col((links + [row])[j], "id") && !SamePair((links + [row])[i], (links + [row])[j])
        {
          assert (links + [row])[i] == links[i];
          if j < |links| {
            assert (links + [row])[j] == links[j];
          }
        }
      }
      links := links + [row];
      return Ok(row);
    }

    /**
     * PATCH: 401; 400 for an unreadable body or a missing id; 500 when no
     * link has the id (`.single()` finds no row) or the update fails;
     * otherwise the link merged with `Updates`.
     */
    method Patch(authed: bool, body: Option<Value>, now: string, updateFails: bool) returns (resp: Response<Row>)
      requires Valid()
      modifies this
      ensures Valid()
      ensures !authed ==> resp == Error(401, NotLoggedIn) && links == old(links)
      ensures authed && (body.None? || IsNullish(body.value)) ==> resp == Error(400, InvalidRequest) && links == old(links)
      ensures authed && body.Some? && !IsNullish(body.value) && !Truthy(Get(body.value, "id")) ==>
        resp == Error(400, IdRequired) && links == old(links)
      ensures authed && body.Some? && !IsNullish(body.value) && Truthy(Get(body.value, "id")) ==>
        var id := Get(body.value, "id");
        var target := LinkIndex(old(links), id);
        (updateFails || target.None? ==> resp == Error(500, "Kunde inte uppdatera") && links == old(links))
        && (!updateFails && target.Some? ==>
              links == UpdateWhere(old(links), id, Updates(body.value, now)) && resp == Ok(links[target.value]))
    {
      if !authed {
        return Error(401, NotLoggedIn);
      }
      if body.None? || IsNullish(body.value) {
        return Error(400, InvalidRequest);
      }
      var id := Get(body.value, "id");
      if !Truthy(id) {
        return Error(400, IdRequired);
      }
      var updates := Updates(body.value, now);
      var target := LinkIndex(links, id);
      if updateFails || target.None? {
        return Error(500, "Kunde inte uppdatera");
      }
      UpdateKeepsWellFormed(links, id, updates);
      links := UpdateWhere(links, id, updates);
      return Ok(links[target.value]);
    }

    /** DELETE: 401, 400 without `id`, 500 on a query error; otherwise the link is gone (if it existed). */
    method Remove(authed: bool, id: Option<string>, deleteFails: bool) returns (resp: Response<bool>)
      requires Valid()
      modifies this
      ensures Valid()
      ensures !authed ==> resp == Error(401, NotLoggedIn) && links == old(links)
      ensures authed && (id.None? || id.value == "") ==> resp == Error(400, IdRequired) && links == old(links)
      ensures authed && id.Some? && id.value != "" && deleteFails ==> resp == Error(500, "Kunde inte ta bort") && links == old(links)
      ensures authed && id.Some? && id.value != "" && !deleteFails ==> resp == Ok(true) && links == DeleteWhere(old(links), Str(id.value))
    {
      if !authed {
        return Error(401, NotLoggedIn);
      }
      if id.None? || id.value == "" {
        return Error(400, IdRequired);
      }
      if deleteFails {
        return Error(500, "Kunde inte ta bort");
      }
      DeleteKeepsWellFormed(links, Str(id.value));
      links := DeleteWhere(links, Str(id.value));
      return Ok(true);
    }

    /** `markReminderSent`: stamps `reminder_sent_at` and `updated_at`; true exactly when the update had no error. */
    method MarkReminderSent(id: string, now: string, updateFails: bool) returns (ok: bool)
      requires Valid()
      modifies this
      ensures Valid()
      ensures ok <==> !updateFails
      ensures !ok ==> links == old(links)
      ensures ok ==> links == UpdateWhere(old(links), Str(id), map["reminder_sent_at" := Str(now), "updated_at" := Str(now)])
    {
      if updateFails {
        return false;
      }
      var stamp := map["reminder_sent_at" := Str(now), "updated_at" := Str(now)];
      UpdateKeepsWellFormed(links, Str(id), stamp);
      links := UpdateWhere(links, Str(id), stamp);
      return true;
    }
  }

  /** The position of the link with the given id. */
  function LinkIndex(links: seq<Row>, id: Value): (r: Option<nat>)
    ensures r.None? <==> forall i :: 0 <= i < |links| ==> Col(links[i], "id") != id
    ensures r.Some? ==> r.value < |links| && Col(links[r.value], "id") == id
  {
    if |links| == 0 then None
    else if Col(links[|links| - 1], "id") == id then Some(|links| - 1)
    else LinkIndex(links[..|links| - 1], id)
  }

  /**
   * The patched link: marking it 'sent' stamps `sent_at`, any other update
   * leaves `sent_at` as it was, and its id and pair never change.
   */
  lemma PatchedLink(row: Row, body: Value, now: string)
    ensures var r := row + Updates(body, now);
      Col(r, "id") == Col(row, "id") && SamePair(r, row)
      && (Get(body, "status") == Str("sent") ==> Col(r, "status") == Str("sent") && Col(r, "sent_at") == Str(now))
      && (Get(body, "status") != Str("sent") ==> Col(r, "sent_at") == Col(row, "sent_at"))
      && (!Truthy(Get(body, "status")) ==> Col(r, "status") == Col(row, "status"))
  {
  }
}

/**
 * The record logic of the supplier register (src/app/dashboard/suppliers/page.tsx):
 * the sorted tag list, the client-side search, the tag bar and its toggle,
 * the local list after a delete, and the request a save sends.
 */
module SuppliersPage {

  import opened Wrappers
  import opened Text
  import opened Js
  import opened Lists
  import opened Search
  import StringOrder
  import SupplierForm

  /** `s.category_tags || []` */
  function TagList(s: Supplier): (r: seq<string>)
    ensures s.tags.None? ==> r == []
    ensures s.tags.Some? ==> r == s.tags.value
  {
    if s.tags.Some? then s.tags.value else []
  }

  /** `suppliers.flatMap(s => s.category_tags || [])` */
  function TagsOf(suppliers: seq<Supplier>): (r: seq<string>)
    ensures forall t :: t in r <==> exists i :: 0 <= i < |suppliers| && t in TagList(suppliers[i])
  {
    if |suppliers| == 0 then []
    else
      var init := suppliers[..|suppliers| - 1];
      var last := suppliers[|suppliers| - 1];
      var r := TagsOf(init) + TagList(last);
      assert forall t :: t in r <==> exists i :: 0 <= i < |suppliers| && t in TagList(suppliers[i]) by {
        forall t ensures t in r <==> exists i :: 0 <= i < |suppliers| && t in TagList(suppliers[i]) {
          if t in TagsOf(init) {
            var i :| 0 <= i < |init| && t in TagList(init[i]);
            assert suppliers[i] == init[i];
          }
          if exists i :: 0 <= i < |suppliers| && t in TagList(suppliers[i]) {
            var i :| 0 <= i < |suppliers| && t in TagList(suppliers[i]);
            if i < |init| {
              assert init[i] == suppliers[i];
            }
          }
        }
      }
      r
  }

  /** `allTags`: every tag some supplier carries, once each, in ascending order. */
  function AllTags(suppliers: seq<Supplier>): (r: seq<string>)
    ensures StringOrder.Ascending(r)
    ensures forall t :: t in r <==> exists i :: 0 <= i < |suppliers| && t in TagList(suppliers[i])
  {
    StringOrder.SortedDistinct(TagsOf(suppliers))
  }

  /** The tag list depends only on which suppliers were fetched, not on their order. */
  lemma AllTagsIgnoreOrder(a: seq<Supplier>, b: seq<Supplier>)
    ensures AllTags(a + b) == AllTags(b + a)
  {
    forall t ensures t in TagsOf(a + b) <==> t in TagsOf(b + a) {
      if t in TagsOf(a + b) {
        var i :| 0 <= i < |a + b| && t in TagList((a + b)[i]);
        if i < |a| {
          assert (b + a)[|b| + i] == a[i];
        } else {
          assert (b + a)[i - |a|] == b[i - |a|];
        }
      }
      if t in TagsOf(b + a) {
        var i :| 0 <= i < |b + a| && t in TagList((b + a)[i]);
        if i < |b| {
          assert (a + b)[|a| + i] == b[i];
        } else {
          assert (a + b)[i - |b|] == a[i - |b|];
        }
      }
    }
    StringOrder.SortedDistinctSameSet(TagsOf(a + b), TagsOf(b + a));
  }

  /** The page's search also looks at the e-mail address. */
  predicate MatchesQuery(s: Supplier, query: string) {
    Contains(ToLower(s.name), query) || Mentions(s.contactPerson, query)
    || Mentions(s.contactEmail, query) || TagMentions(s.tags, query)
  }

  predicate Shown(s: Supplier, search: string) {
    search == "" || MatchesQuery(s, ToLower(search))
  }

  /** `filteredSuppliers`, in the fetched order. */
  function Filtered(suppliers: seq<Supplier>, search: string): (r: seq<Supplier>)
    ensures forall s :: s in r <==> s in suppliers && Shown(s, search)
    ensures |r| <= |suppliers|
  {
    Filter(suppliers, s => Shown(s, search))
  }

  /** An empty search shows every supplier, in order. */
  lemma EmptySearchShowsAll(suppliers: seq<Supplier>)
    ensures Filtered(suppliers, "") == suppliers
  {
    FilterAll(suppliers, s => Shown(s, ""));
  }

  /** A supplier found by its e-mail address alone is shown. */
  lemma FoundByEmail(s: Supplier, search: string)
    requires search != "" && s.contactEmail.Some? && Contains(ToLower(s.contactEmail.value), ToLower(search))
    ensures Shown(s, search)
  {
  }

  lemma SearchIgnoresCase(suppliers: seq<Supplier>, search: string)
    ensures Filtered(suppliers, ToLower(search)) == Filtered(suppliers, search)
  {
    LowerIdempotent(search);
    FilterSame(suppliers, s => Shown(s, ToLower(search)), s => Shown(s, search));
  }

  const BarTags: nat := 10

  /** The tag bar: absent without tags, else the first ten and a `+N till` counter. */
  function TagBar(allTags: seq<string>): (r: Option<Truncated<string>>)
    ensures r.None? <==> allTags == []
    ensures r.Some? ==> |r.value.shown| <= BarTags && |r.value.shown| <= |allTags| && r.value.shown == allTags[..|r.value.shown|]
    ensures r.Some? && |allTags| > BarTags ==> r.value.shown == allTags[..BarTags] && r.value.more == Some(|allTags| - BarTags)
    ensures r.Some? && |allTags| <= BarTags ==> r.value.shown == allTags && r.value.more.None?
  {
    if allTags == [] then None else Some(Truncate(allTags, BarTags))
  }

  /** A click on a tag: the selected tag is cleared, any other becomes the selection. */
  function ToggleTag(selected: Option<string>, tag: string): (r: Option<string>)
    ensures r.None? <==> selected == Some(tag)
    ensures r.Some? ==> r.value == tag
  {
    if selected == Some(tag) then None else Some(tag)
  }

  /** Clicks on the bar only ever select a tag some supplier carries. */
  lemma SelectionIsATag(suppliers: seq<Supplier>, selected: Option<string>, tag: string)
    requires TagBar(AllTags(suppliers)).Some? && tag in TagBar(AllTags(suppliers)).value.shown
    ensures ToggleTag(selected, tag).Some? ==>
      exists i :: 0 <= i < |suppliers| && ToggleTag(selected, tag).value in TagList(suppliers[i])
  {
    var all := AllTags(suppliers);
    var shown := TagBar(all).value.shown;
    var k :| 0 <= k < |shown| && shown[k] == tag;
    assert all[k] == tag && tag in all;
  }

  /** The local list after a delete: on success that id is gone and the rest kept in order. */
  function AfterDelete(list: seq<Supplier>, id: string, ok: bool): (r: seq<Supplier>)
    ensures !ok ==> r == list
    ensures ok ==> forall s :: s in r <==> s in list && s.id != id
  {
    if ok then Filter(list, (s: Supplier) => s.id != id) else list
  }

  /** Deleting the same id twice leaves the list as the first delete did. */
  lemma DeleteIdempotent(list: seq<Supplier>, id: string)
    ensures AfterDelete(AfterDelete(list, id, true), id, true) == AfterDelete(list, id, true)
  {
    var once := AfterDelete(list, id, true);
    FilterAll(once, (s: Supplier) => s.id != id);
  }

  /** A delete works entry by entry: the suppliers before and after keep their places. */
  lemma DeleteKeepsOrder(a: seq<Supplier>, b: seq<Supplier>, id: string)
    ensures AfterDelete(a + b, id, true) == AfterDelete(a, id, true) + AfterDelete(b, id, true)
  {
    FilterAppend(a, b, (s: Supplier) => s.id != id);
  }

  datatype Method = Put | Post

  datatype Request = Request(verb: Method, body: Row)

  /** The save response: `ok`, and the JSON body read on failure. */
  datatype SaveResponse = SaveResponse(ok: bool, body: Value)

  /** What `handleSave` does: the request, how the form's `onSave` call ends, and the supplier left in editing. */
  datatype SaveStep = SaveStep(request: Request, outcome: SupplierForm.SaveOutcome, editing: Option<Supplier>)

  /**
   * `handleSave`: PUT with `{ id, ...data }` when a supplier is being edited,
   * POST with the data otherwise. A failed response throws an error with the
   * body's `error` or 'Kunde inte spara', or the `TypeError` of reading
   * `error` from a `null` body, leaving the editing state as is; success
   * clears it.
   */
  function Save(editing: Option<Supplier>, data: Row, response: SaveResponse): (r: SaveStep)
    ensures editing.None? ==> r.request == Request(Post, data)
    ensures editing.Some? ==> r.request == Request(Put, map["id" := Str(editing.value.id)] + data)
    ensures response.ok ==> r.outcome == SupplierForm.Saved && r.editing.None?
    ensures !response.ok ==> r.editing == editing
    ensures !response.ok && IsNullish(response.body) ==>
      r.outcome == SupplierForm.ThrewError(NullReadError(response.body, "error").message)
    ensures !response.ok && !IsNullish(response.body) ==>
      r.outcome == SupplierForm.ThrewError(ToJsString(Or(Get(response.body, "error"), Str(SupplierForm.SaveFailed))))
  {
    var request := if editing.Some? then Request(Put, map["id" := Str(editing.value.id)] + data) else Request(Post, data);
    if response.ok then SaveStep(request, SupplierForm.Saved, None)
    else
      match Read(response.body, "error")
      case Failure(_) => SaveStep(request, SupplierForm.ThrewError(NullReadError(response.body, "error").message), editing)
      case Success(error) => SaveStep(request, SupplierForm.ThrewError(ToJsString(Or(error, Str(SupplierForm.SaveFailed)))), editing)
  }

  /**
   * An edit sends the edited supplier's id with the data's other fields
   * unchanged; an `id` in the data itself would win, as the spread comes last.
   */
  lemma EditSendsId(s: Supplier, data: Row, response: SaveResponse)
    ensures var body := Save(Some(s), data, response).request.body;
      "id" in body
      && ("id" !in data ==> body["id"] == Str(s.id))
      && ("id" in data ==> body["id"] == data["id"])
      && (forall k :: k in data ==> k in body && body[k] == data[k])
      && (forall k :: k in body ==> k == "id" || k in data)
  {
  }

  /** A failure whose body has no `error` text shows the form's own 'Kunde inte spara'. */
  lemma FailureWithoutMessage(editing: Option<Supplier>, data: Row, body: Value)
    requires !IsNullish(body) && !Truthy(Get(body, "error"))
    ensures Save(editing, data, SaveResponse(false, body)).outcome == SupplierForm.ThrewError(SupplierForm.SaveFailed)
  {
  }
}

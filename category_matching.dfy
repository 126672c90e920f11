/**
 * Category generation from a specification
 * (src/app/api/categories/generate/route.ts): the model proposes categories,
 * each with suggested tags, and every category is paired with the suppliers
 * whose own tags overlap its suggestions.
 */
module CategoryMatching {

  import opened Wrappers
  import opened Text
  import opened Js
  import opened Http

  /** A supplier as `select('id, name, category_tags')` returns it; `category_tags` may be `null`. */
  datatype Supplier = Supplier(id: Value, name: Value, tags: Option<seq<string>>)

  /** A generated category: its suggested tags and its other properties. */
  datatype GeneratedCategory = GeneratedCategory(fields: Row, suggestedTags: seq<string>)

  /** `{ id: s.id, name: s.name }` */
  datatype SupplierRef = SupplierRef(id: Value, name: Value)

  /** `{ ...category, matched_suppliers }` */
  datatype MatchedCategory = MatchedCategory(category: GeneratedCategory, matchedSuppliers: seq<SupplierRef>)

  /** The tag rule: either lower-cased tag contains the other. */
  predicate TagsMatch(tag: string, suggested: string) {
    Contains(ToLower(tag), ToLower(suggested)) || Contains(ToLower(suggested), ToLower(tag))
  }

  /** `suggested.some(s => TagsMatch(tag, s))` */
  function MatchesSome(tag: string, suggested: seq<string>): (b: bool)
    ensures b <==> exists j :: 0 <= j < |suggested| && TagsMatch(tag, suggested[j])
  {
    if |suggested| == 0 then false
    else TagsMatch(tag, suggested[0]) || MatchesSome(tag, suggested[1..])
  }

  /** `tags.some(t => suggested.some(s => TagsMatch(t, s)))` */
  function AnyTagMatches(tags: seq<string>, suggested: seq<string>): (b: bool)
    ensures b <==> exists i :: 0 <= i < |tags| && MatchesSome(tags[i], suggested)
  {
    if |tags| == 0 then false
    else MatchesSome(tags[0], suggested) || AnyTagMatches(tags[1..], suggested)
  }

  /** `supplier.category_tags?.some(...)`: a supplier without tags is `undefined`, which is falsy. */
  predicate SupplierMatches(supplier: Supplier, suggested: seq<string>) {
    supplier.tags.Some? && AnyTagMatches(supplier.tags.value, suggested)
  }

  /** A supplier matches exactly when one of its tags and one suggestion match. */
  lemma SupplierMatchesIff(supplier: Supplier, suggested: seq<string>)
    ensures SupplierMatches(supplier, suggested) <==>
      supplier.tags.Some?
      && exists i, j :: 0 <= i < |supplier.tags.value| && 0 <= j < |suggested| && TagsMatch(supplier.tags.value[i], suggested[j])
  {
    if supplier.tags.Some? && SupplierMatches(supplier, suggested) {
      var i :| 0 <= i < |supplier.tags.value| && MatchesSome(supplier.tags.value[i], suggested);
      var j :| 0 <= j < |suggested| && TagsMatch(supplier.tags.value[i], suggested[j]);
    }
  }

  /** The rule does not depend on which side is the supplier's tag. */
  lemma TagsMatchSymmetric(a: string, b: string)
    ensures TagsMatch(a, b) <==> TagsMatch(b, a)
  {
  }

  /** An empty suggestion matches every tag, since every string contains "". */
  lemma EmptySuggestionMatchesAll(supplier: Supplier, suggested: seq<string>, j: nat)
    requires supplier.tags.Some? && |supplier.tags.value| > 0
    requires j < |suggested| && suggested[j] == ""
    ensures SupplierMatches(supplier, suggested)
  {
    ContainsEmpty(ToLower(supplier.tags.value[0]));
    assert TagsMatch(supplier.tags.value[0], suggested[j]);
    assert MatchesSome(supplier.tags.value[0], suggested);
  }

  /** A tag equal to a suggestion up to case always matches it. */
  lemma SameTagMatches(tag: string, suggested: string)
    requires ToLower(tag) == ToLower(suggested)
    ensures TagsMatch(tag, suggested)
  {
    ContainsSelf(ToLower(tag));
  }

  /** The matching suppliers, in query order, reduced to id and name; no list gives `[]`. */
  function Matched(suppliers: seq<Supplier>, suggested: seq<string>): (r: seq<SupplierRef>)
    ensures |r| <= |suppliers|
  {
    if |suppliers| == 0 then []
    else
      var last := suppliers[|suppliers| - 1];
      Matched(suppliers[..|suppliers| - 1], suggested)
        + (if SupplierMatches(last, suggested) then [SupplierRef(last.id, last.name)] else [])
  }

  /** Matching works supplier by supplier and keeps the order: it distributes over concatenation. */
  lemma {:induction false} MatchedAppend(a: seq<Supplier>, b: seq<Supplier>, suggested: seq<string>)
    ensures Matched(a + b, suggested) == Matched(a, suggested) + Matched(b, suggested)
    decreases |b|
  {
    if |b| == 0 {
      assert a + b == a;
    } else {
      var b' := b[..|b| - 1];
      assert (a + b)[..|a + b| - 1] == a + b';
      assert (a + b)[|a + b| - 1] == b[|b| - 1];
      MatchedAppend(a, b', suggested);
    }
  }

  /** One supplier is kept, as its id and name, exactly when it matches. */
  lemma MatchedSingle(s: Supplier, suggested: seq<string>)
    ensures Matched([s], suggested) == if SupplierMatches(s, suggested) then [SupplierRef(s.id, s.name)] else []
  {
    assert [s][..0] == [];
  }

  /** Every listed supplier matches, and every matching supplier is listed. */
  lemma {:induction false} MatchedMembers(suppliers: seq<Supplier>, suggested: seq<string>)
    ensures forall s :: s in suppliers && SupplierMatches(s, suggested) ==> SupplierRef(s.id, s.name) in Matched(suppliers, suggested)
    ensures forall r :: r in Matched(suppliers, suggested) ==>
      exists s :: s in suppliers && SupplierMatches(s, suggested) && r == SupplierRef(s.id, s.name)
    decreases |suppliers|
  {
    if |suppliers| > 0 {
      var init := suppliers[..|suppliers| - 1];
      var last := suppliers[|suppliers| - 1];
      MatchedMembers(init, suggested);
      assert forall s :: s in suppliers ==> s in init || s == last;
      assert forall s :: s in init ==> s in suppliers;
    }
  }

  /** `categories.map(...)`: one entry per category, in order, its properties unchanged. */
  function WithSuppliers(categories: seq<GeneratedCategory>, suppliers: Option<seq<Supplier>>): (r: seq<MatchedCategory>)
    ensures |r| == |categories|
    ensures forall i :: 0 <= i < |categories| ==> r[i].category == categories[i]
    ensures forall i :: 0 <= i < |categories| ==>
      r[i].matchedSuppliers == if suppliers.None? then [] else Matched(suppliers.value, categories[i].suggestedTags)
  {
    seq(|categories|, i requires 0 <= i < |categories| =>
      MatchedCategory(categories[i], if suppliers.None? then [] else Matched(suppliers.value, categories[i].suggestedTags)))
  }

  /** A supplier without tags is matched to no category: the list is as if it were absent. */
  lemma UntaggedSkipped(before: seq<Supplier>, s: Supplier, after: seq<Supplier>, suggested: seq<string>)
    requires s.tags.None?
    ensures Matched(before + [s] + after, suggested) == Matched(before + after, suggested)
  {
    MatchedAppend(before + [s], after, suggested);
    MatchedAppend(before, [s], suggested);
    MatchedSingle(s, suggested);
    MatchedAppend(before, after, suggested);
  }

  /** The response body: the specification's id and name, and the matched categories. */
  datatype Generated = Generated(specificationId: Value, specificationName: Value, categories: seq<MatchedCategory>)

  const GenerateFailed: string := "Kunde inte generera kategorier. Försök igen."

  /**
   * POST: 401 without the cookie; 500 when the body cannot be read; 400
   * without `specificationId`; 404 for an unknown specification; 400 when it
   * has no extracted text; 500 when generation fails; otherwise the
   * categories with their matched suppliers. `generate` stands for the model
   * call on the specification text.
   */
  function Post(
    authed: bool,
    body: Option<Value>,
    specification: Option<Row>,
    suppliers: Option<seq<Supplier>>,
    generate: string -> Result<seq<GeneratedCategory>, Thrown>): (resp: Response<Generated>)
    ensures !authed ==> resp == Error(401, "Ej inloggad")
    ensures authed && (body.None? || IsNullish(body.value)) ==> resp == Error(500, GenerateFailed)
    ensures authed && body.Some? && !IsNullish(body.value) && !Truthy(Get(body.value, "specificationId")) ==>
      resp == Error(400, "specificationId krävs")
    ensures authed && body.Some? && !IsNullish(body.value) && Truthy(Get(body.value, "specificationId")) ==>
      (specification.None? ==> resp == Error(404, "Specifikationen hittades inte"))
      && (specification.Some? && !Truthy(Col(specification.value, "extracted_text")) ==>
            resp == Error(400, "Specifikationen har ingen extraherad text"))
    ensures (authed && body.Some? && !IsNullish(body.value) && Truthy(Get(body.value, "specificationId"))
             && specification.Some? && Truthy(Col(specification.value, "extracted_text"))) ==>
      var gen := generate(ToJsString(Col(specification.value, "extracted_text")));
      (gen.Failure? ==> resp == Error(500, GenerateFailed))
      && (gen.Success? ==>
            resp == Ok(Generated(Col(specification.value, "id"), Col(specification.value, "name"), WithSuppliers(gen.value, suppliers))))
    ensures resp.Ok? ==>
      && specification.Some?
      && var gen := generate(ToJsString(Col(specification.value, "extracted_text")));
      gen.Success? && resp.body.categories == WithSuppliers(gen.value, suppliers)
  {
    if !authed then Error(401, "Ej inloggad")
    else if body.None? || IsNullish(body.value) then Error(500, GenerateFailed)
    else if !Truthy(Get(body.value, "specificationId")) then Error(400, "specificationId krävs")
    else if specification.None? then Error(404, "Specifikationen hittades inte")
    else
      var spec := specification.value;
      if !Truthy(Col(spec, "extracted_text")) then Error(400, "Specifikationen har ingen extraherad text")
      else
        match generate(ToJsString(Col(spec, "extracted_text")))
        case Failure(_) => Error(500, GenerateFailed)
        case Success(categories) =>
          Ok(Generated(Col(spec, "id"), Col(spec, "name"), WithSuppliers(categories, suppliers)))
  }
}

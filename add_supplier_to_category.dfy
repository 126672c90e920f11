/**
 * The supplier picker of a category (src/components/email/AddSupplierToCategory.tsx):
 * which fetched suppliers it lists for a search, the message it shows when
 * none is listed, and the tag badges of a listed supplier.
 */
module AddSupplierToCategory {

  import opened Wrappers
  import opened Text
  import opened Lists
  import opened Search

  /** The query matches the name, the contact person or a tag; the e-mail address is not searched. */
  predicate MatchesQuery(s: Supplier, query: string) {
    Contains(ToLower(s.name), query) || Mentions(s.contactPerson, query) || TagMentions(s.tags, query)
  }

  /** The `filteredSuppliers` test: not already in the category, and matching a non-empty search. */
  predicate Listed(s: Supplier, existing: seq<string>, search: string) {
    s.id !in existing && (search == "" || MatchesQuery(s, ToLower(search)))
  }

  /** The listed suppliers, in the order they were fetched. */
  function Filtered(suppliers: seq<Supplier>, existing: seq<string>, search: string): (r: seq<Supplier>)
    ensures forall s :: s in r <==> s in suppliers && Listed(s, existing, search)
    ensures forall s :: s in r ==> s.id !in existing
    ensures |r| <= |suppliers|
  {
    Filter(suppliers, s => Listed(s, existing, search))
  }

  /** Listing goes supplier by supplier: the fetched order is kept. */
  lemma FilteredKeepsOrder(a: seq<Supplier>, b: seq<Supplier>, existing: seq<string>, search: string)
    ensures Filtered(a + b, existing, search) == Filtered(a, existing, search) + Filtered(b, existing, search)
  {
    FilterAppend(a, b, s => Listed(s, existing, search));
  }

  /** Without a search every supplier not yet in the category is listed; with none in it, all are. */
  lemma EmptySearchListsRemaining(suppliers: seq<Supplier>, existing: seq<string>)
    ensures Filtered(suppliers, existing, "") == Filter(suppliers, (s: Supplier) => s.id !in existing)
    ensures existing == [] ==> Filtered(suppliers, existing, "") == suppliers
  {
    FilterSame(suppliers, s => Listed(s, existing, ""), (s: Supplier) => s.id !in existing);
    if existing == [] {
      FilterAll(suppliers, s => Listed(s, existing, ""));
    }
  }

  /** The search ignores case: searching for a lower-cased query lists the same suppliers. */
  lemma SearchIgnoresCase(suppliers: seq<Supplier>, existing: seq<string>, search: string)
    ensures Filtered(suppliers, existing, ToLower(search)) == Filtered(suppliers, existing, search)
  {
    LowerIdempotent(search);
    FilterSame(suppliers, s => Listed(s, existing, ToLower(search)), s => Listed(s, existing, search));
  }

  const NoneRegistered: string := "Inga leverantörer registrerade"
  const NoMatch: string := "Inga leverantörer matchar sökningen"
  const AllAdded: string := "Alla leverantörer är redan tillagda"

  /** The message for an empty list: nothing fetched first, then an active search, then everything already added. */
  function EmptyStateMessage(suppliers: seq<Supplier>, search: string): (m: string)
    ensures m == NoneRegistered <==> suppliers == []
    ensures m == NoMatch <==> suppliers != [] && search != ""
    ensures m == AllAdded <==> suppliers != [] && search == ""
  {
    if suppliers == [] then NoneRegistered else if search != "" then NoMatch else AllAdded
  }

  /** When the list is empty, the message it shows is true of the fetched suppliers. */
  lemma EmptyStateIsAccurate(suppliers: seq<Supplier>, existing: seq<string>, search: string)
    requires Filtered(suppliers, existing, search) == []
    ensures EmptyStateMessage(suppliers, search) == AllAdded ==> forall s :: s in suppliers ==> s.id in existing
    ensures EmptyStateMessage(suppliers, search) == NoMatch ==>
      forall s :: s in suppliers && s.id !in existing ==> !MatchesQuery(s, ToLower(search))
  {
    forall s | s in suppliers
      ensures s.id in existing || (search != "" && !MatchesQuery(s, ToLower(search)))
    {
      assert s !in Filtered(suppliers, existing, search);
    }
  }

  const ShownTags: nat := 3

  /** A listed supplier's tag badges: none without tags, else the first three and a `+N` badge for the rest. */
  function TagBadges(s: Supplier): (r: Option<Truncated<string>>)
    ensures r.None? <==> s.tags.None? || s.tags.value == []
    ensures r.Some? ==> |r.value.shown| <= ShownTags && |r.value.shown| <= |s.tags.value| && r.value.shown == s.tags.value[..|r.value.shown|]
    ensures r.Some? && |s.tags.value| > ShownTags ==> r.value.shown == s.tags.value[..ShownTags] && r.value.more == Some(|s.tags.value| - ShownTags)
    ensures r.Some? && |s.tags.value| <= ShownTags ==> r.value.shown == s.tags.value && r.value.more.None?
  {
    if s.tags.Some? && s.tags.value != [] then Some(Truncate(s.tags.value, ShownTags)) else None
  }
}

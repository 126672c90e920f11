/**
 * The client-side search shared by the supplier lists and the project list:
 * an optional column matches when its lower-cased text includes the
 * lower-cased query (`field?.toLowerCase().includes(query)`), and a missing
 * column never matches.
 */
module Search {

  import opened Wrappers
  import opened Text

  /** A supplier as the supplier lists read it; `None` is a missing or `null` column. */
  datatype Supplier = Supplier(
    id: string,
    name: string,
    contactPerson: Option<string>,
    contactEmail: Option<string>,
    tags: Option<seq<string>>)

  /** `field?.toLowerCase().includes(query)` for an already lower-cased query. */
  predicate Mentions(field: Option<string>, query: string) {
    field.Some? && Contains(ToLower(field.value), query)
  }

  /** `tags?.some(tag => tag.toLowerCase().includes(query))` */
  predicate TagMentions(tags: Option<seq<string>>, query: string) {
    tags.Some? && exists i :: 0 <= i < |tags.value| && Contains(ToLower(tags.value[i]), query)
  }

  /** The empty query is found in every present column and in every non-empty tag list. */
  lemma EmptyQueryMentions(field: Option<string>, tags: Option<seq<string>>)
    ensures Mentions(field, "") <==> field.Some?
    ensures TagMentions(tags, "") <==> tags.Some? && |tags.value| > 0
  {
    if field.Some? {
      ContainsEmpty(ToLower(field.value));
    }
    if tags.Some? && |tags.value| > 0 {
      ContainsEmpty(ToLower(tags.value[0]));
    }
  }
}

/**
 * The record logic of the comparison view
 * (src/components/analysis/ComparisonView.tsx): which total a ranking entry
 * shows, when the raw total and the "dyrare" line appear, the score bands,
 * the truncated requirement lists and the scope badges. Rendering itself is
 * not modelled. Ranking entries are kept as the JSON values the comparison
 * returned, since the view reads them with `??` and `!==`.
 */
module ComparisonView {

  import opened Wrappers
  import opened Js
  import opened Lists

  /** `adjusted_total ?? raw_total ?? total ?? 0` */
  function DisplayTotal(item: Value): (r: Value)
    ensures !IsNullish(Get(item, "adjusted_total")) ==> r == Get(item, "adjusted_total")
    ensures IsNullish(Get(item, "adjusted_total")) && !IsNullish(Get(item, "raw_total")) ==> r == Get(item, "raw_total")
    ensures IsNullish(Get(item, "adjusted_total")) && IsNullish(Get(item, "raw_total")) && !IsNullish(Get(item, "total")) ==>
      r == Get(item, "total")
    ensures IsNullish(Get(item, "adjusted_total")) && IsNullish(Get(item, "raw_total")) && IsNullish(Get(item, "total")) ==>
      r == Num(0)
  {
    Coalesce(Coalesce(Coalesce(Get(item, "adjusted_total"), Get(item, "raw_total")), Get(item, "total")), Num(0))
  }

  /** `raw_total ?? total` */
  function RawTotal(item: Value): (r: Value)
    ensures !IsNullish(Get(item, "raw_total")) ==> r == Get(item, "raw_total")
    ensures IsNullish(Get(item, "raw_total")) ==> r == Get(item, "total")
  {
    Coalesce(Get(item, "raw_total"), Get(item, "total"))
  }

  /** Both totals present and different. */
  predicate HasAdjustment(item: Value) {
    Get(item, "adjusted_total") != Undefined && Get(item, "raw_total") != Undefined
    && Get(item, "adjusted_total") != Get(item, "raw_total")
  }

  /** An adjusted total of 0 is shown as 0: `??` only skips `null` and `undefined`. */
  lemma ZeroAdjustedKept(item: Value)
    requires Get(item, "adjusted_total") == Num(0)
    ensures DisplayTotal(item) == Num(0)
  {
  }

  /** Entries in the older format with only `total` show it both as the total and the raw total. */
  lemma OldFormat(item: Value)
    requires Get(item, "adjusted_total") == Undefined && Get(item, "raw_total") == Undefined
    ensures DisplayTotal(item) == Coalesce(Get(item, "total"), Num(0))
    ensures RawTotal(item) == Get(item, "total")
    ensures !HasAdjustment(item)
  {
  }

  /** With a real adjustment the main figure is the adjusted total and the raw line names a different one. */
  lemma AdjustedDiffersFromRaw(item: Value)
    requires HasAdjustment(item) && !IsNullish(Get(item, "adjusted_total")) && !IsNullish(Get(item, "raw_total"))
    ensures DisplayTotal(item) == Get(item, "adjusted_total")
    ensures RawTotal(item) == Get(item, "raw_total") && DisplayTotal(item) != RawTotal(item)
  {
  }

  /** `item.difference_from_lowest > 0`, for the values a comparison yields: numbers and booleans. */
  predicate Dearer(item: Value) {
    match Get(item, "difference_from_lowest")
    case Num(n) => n > 0
    case Bool(b) => b
    case _ => false
  }

  /** One rendered ranking entry. */
  datatype RankRow = RankRow(position: nat, supplier: Value, highlighted: bool, total: Value, rawLine: Option<Value>, dearer: bool)

  /** The raw-total line: shown for an adjustment whose raw total is truthy. */
  function RawLine(item: Value): (r: Option<Value>)
    ensures r.Some? <==> HasAdjustment(item) && Truthy(RawTotal(item))
    ensures r.Some? ==> r.value == RawTotal(item)
  {
    if HasAdjustment(item) && Truthy(RawTotal(item)) then Some(RawTotal(item)) else None
  }

  /** The ranking as received: numbered from 1, the first entry highlighted, nothing re-ordered. */
  function Ranking(ranking: seq<Value>): (r: seq<RankRow>)
    ensures |r| == |ranking|
    ensures forall i :: 0 <= i < |ranking| ==>
      r[i].position == i + 1 && r[i].supplier == Get(ranking[i], "supplier")
      && (r[i].highlighted <==> i == 0)
      && r[i].total == DisplayTotal(ranking[i]) && r[i].rawLine == RawLine(ranking[i]) && (r[i].dearer <==> Dearer(ranking[i]))
  {
    seq(|ranking|, i requires 0 <= i < |ranking| =>
      RankRow(i + 1, Get(ranking[i], "supplier"), i == 0, DisplayTotal(ranking[i]), RawLine(ranking[i]), Dearer(ranking[i])))
  }

  /** Exactly one entry is highlighted in a non-empty ranking, whatever the totals say. */
  lemma OneHighlighted(ranking: seq<Value>, i: nat)
    requires i < |ranking|
    ensures Ranking(ranking)[i].highlighted <==> i == 0
    ensures Ranking(ranking)[0].supplier == Get(ranking[0], "supplier")
  {
  }

  datatype Band = SuccessBand | WarningBand | DangerBand

  /** The badge variant for a compliance score. */
  function BadgeBand(score: int): (b: Band)
    ensures b == SuccessBand <==> score >= 80
    ensures b == WarningBand <==> 60 <= score < 80
    ensures b == DangerBand <==> score < 60
  {
    if score >= 80 then SuccessBand else if score >= 60 then WarningBand else DangerBand
  }

  /** The progress bar colour, written separately in the view. */
  function BarColor(score: int): string {
    if score >= 80 then "bg-green-500" else if score >= 60 then "bg-yellow-500" else "bg-red-500"
  }

  function BandColor(b: Band): string {
    match b
    case SuccessBand => "bg-green-500"
    case WarningBand => "bg-yellow-500"
    case DangerBand => "bg-red-500"
  }

  /** The badge and the bar agree for every score. */
  lemma BarMatchesBadge(score: int)
    ensures BarColor(score) == BandColor(BadgeBand(score))
  {
  }

  /** A higher score never falls into a lower band. */
  lemma BandMonotone(a: int, b: int)
    requires a <= b
    ensures BadgeBand(a) == SuccessBand ==> BadgeBand(b) == SuccessBand
    ensures BadgeBand(a) == WarningBand ==> BadgeBand(b) != DangerBand
  {
  }

  const ShownItems: nat := 5

  /** The met and missing lists: the first five entries, with the `+(n-5) till` counter. */
  function WithCounter<T>(list: seq<T>): (r: Truncated<T>)
    ensures |list| <= ShownItems ==> r.shown == list && r.more.None?
    ensures |list| > ShownItems ==> r.shown == list[..ShownItems] && r.more == Some(|list| - ShownItems)
  {
    Truncate(list, ShownItems)
  }

  /** The extras list: the first five entries, with no counter. */
  function WithoutCounter<T>(list: seq<T>): (r: Truncated<T>)
    ensures r.more.None? && r.shown == Truncate(list, ShownItems).shown
  {
    Truncated(Truncate(list, ShownItems).shown, None)
  }

  /** Met and extra lists show the same entries; only the counter differs. */
  lemma ExtrasShowSameEntries<T>(list: seq<T>)
    ensures WithoutCounter(list).shown == WithCounter(list).shown
    ensures |list| > ShownItems <==> WithCounter(list).more.Some?
    ensures WithCounter(list).more.Some? ==> |WithCounter(list).shown| + WithCounter(list).more.value == |list|
  {
  }

  /** The scope card appears when there is a scope analysis with a non-empty warning. */
  predicate ShowsScopeCard(scope: Value) {
    Truthy(scope) && Truthy(Get(scope, "warning"))
  }

  datatype Variant = InfoBadge | WarningBadge

  datatype Badge = Badge(variant: Variant, text: string)

  /** A found category's badge: 'info' for a category common to all quotes, else a warning with ' (ej i alla)'. */
  function CategoryBadge(category: string, common: seq<string>): (b: Badge)
    ensures b.variant == InfoBadge <==> category in common
    ensures category in common ==> b.text == category
    ensures category !in common ==> b.text == category + " (ej i alla)"
  {
    if category in common then Badge(InfoBadge, category) else Badge(WarningBadge, category + " (ej i alla)")
  }

  /** The badges of `categories_found`, in order. */
  function CategoryBadges(found: seq<string>, common: seq<string>): (r: seq<Badge>)
    ensures |r| == |found|
    ensures forall i :: 0 <= i < |found| ==> r[i] == CategoryBadge(found[i], common)
  {
    seq(|found|, i requires 0 <= i < |found| => CategoryBadge(found[i], common))
  }

  /** Every badge names its category at the start, and when all found categories are common, none warns. */
  lemma BadgesWhenAllCommon(found: seq<string>, common: seq<string>)
    requires forall c :: c in found ==> c in common
    ensures forall i :: 0 <= i < |found| ==> CategoryBadges(found, common)[i] == Badge(InfoBadge, found[i])
  {
  }
}

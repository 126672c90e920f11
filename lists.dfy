/**
 * The array operations the components apply to lists: `filter`, and
 * `slice(0, k)` shown with a `+N` counter for the rest.
 */
module Lists {

  import opened Wrappers

  /** `xs.filter(keep)`: the kept elements, in order. */
  function Filter<T(!new)>(xs: seq<T>, keep: T -> bool): (r: seq<T>)
    ensures |r| <= |xs|
    ensures forall x :: x in r <==> x in xs && keep(x)
    ensures forall i :: 0 <= i < |r| ==> keep(r[i])
  {
    if |xs| == 0 then []
    else
      var init := Filter(xs[..|xs| - 1], keep);
      var last := xs[|xs| - 1];
      assert xs == xs[..|xs| - 1] + [last];
      if keep(last) then init + [last] else init
  }

  /** Filtering works piece by piece, so the kept elements stay in their order. */
  lemma {:induction false} FilterAppend<T(!new)>(a: seq<T>, b: seq<T>, keep: T -> bool)
    ensures Filter(a + b, keep) == Filter(a, keep) + Filter(b, keep)
    decreases |b|
  {
    if |b| == 0 {
      assert a + b == a;
    } else {
      var b' := b[..|b| - 1];
      assert (a + b)[..|a + b| - 1] == a + b';
      assert (a + b)[|a + b| - 1] == b[|b| - 1];
      FilterAppend(a, b', keep);
    }
  }

  /** A filter that keeps everything changes nothing. */
  lemma {:induction false} FilterAll<T(!new)>(xs: seq<T>, keep: T -> bool)
    requires forall x :: x in xs ==> keep(x)
    ensures Filter(xs, keep) == xs
    decreases |xs|
  {
    if |xs| > 0 {
      assert xs[..|xs| - 1] + [xs[|xs| - 1]] == xs;
      FilterAll(xs[..|xs| - 1], keep);
    }
  }

  /** Two tests that agree on every element filter alike. */
  lemma {:induction false} FilterSame<T(!new)>(xs: seq<T>, keep: T -> bool, keep': T -> bool)
    requires forall x :: x in xs ==> keep(x) == keep'(x)
    ensures Filter(xs, keep) == Filter(xs, keep')
    decreases |xs|
  {
    if |xs| > 0 {
      assert xs[..|xs| - 1] + [xs[|xs| - 1]] == xs;
      FilterSame(xs[..|xs| - 1], keep, keep');
    }
  }

  /** The first entries of a list and, when some are left out, how many. */
  datatype Truncated<T> = Truncated(shown: seq<T>, more: Option<nat>)

  /** `xs.slice(0, k)` with the `+(n - k)` counter shown when `n > k`. */
  function Truncate<T>(xs: seq<T>, k: nat): (r: Truncated<T>)
    ensures |xs| <= k ==> r.shown == xs && r.more.None?
    ensures |xs| > k ==> r.shown == xs[..k] && r.more == Some(|xs| - k)
  {
    if |xs| > k then Truncated(xs[..k], Some(|xs| - k)) else Truncated(xs, None)
  }

  /** The shown entries and the counter account for the whole list, and the shown ones lead it. */
  lemma TruncateAccountsForAll<T>(xs: seq<T>, k: nat)
    ensures var r := Truncate(xs, k);
      |r.shown| + (if r.more.Some? then r.more.value else 0) == |xs|
      && |r.shown| <= k && r.shown == xs[..|r.shown|]
      && (r.more.Some? ==> r.more.value > 0)
  {
  }
}

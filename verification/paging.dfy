/**
 * Paging of a feed into pages of SORT_VALUE posts, numbered from 1. Only
 * the slicing is modelled: a requested page number must be in range.
 */
module Paging {

  /** Posts per page. */
  const SORT_VALUE: nat := 10

  function Min(a: int, b: int): int { if a <= b then a else b }

  /** Number of pages of a feed of `n` posts; an empty feed has one empty page. */
  function PageCount(n: nat): (c: nat)
    ensures c >= 1
    ensures n == 0 ==> c == 1
    ensures n <= c * SORT_VALUE
    ensures n > 0 ==> (c - 1) * SORT_VALUE < n
  {
    if n == 0 then 1 else (n + SORT_VALUE - 1) / SORT_VALUE
  }

  /** Page `number` of `items`: the SORT_VALUE items starting at index (number - 1) * SORT_VALUE. */
  function Page<T>(items: seq<T>, number: nat): (r: seq<T>)
    requires 1 <= number <= PageCount(|items|)
    ensures |r| <= SORT_VALUE
    ensures |r| == Min(SORT_VALUE, |items| - (number - 1) * SORT_VALUE)
    ensures number < PageCount(|items|) ==> |r| == SORT_VALUE
    ensures forall i :: 0 <= i < |r| ==> r[i] == items[(number - 1) * SORT_VALUE + i]
  {
    var start := (number - 1) * SORT_VALUE;
    items[start..Min(start + SORT_VALUE, |items|)]
  }

  /** Whether a page follows page `number`. */
  predicate HasNext<T>(items: seq<T>, number: nat) {
    number < PageCount(|items|)
  }

  /** Whether a page precedes page `number`. */
  predicate HasPrevious(number: nat) {
    number > 1
  }

  /** All pages of `items`, in order. */
  function Pages<T>(items: seq<T>): (r: seq<seq<T>>)
    ensures |r| == PageCount(|items|)
    ensures forall k :: 0 <= k < |r| ==> |r[k]| <= SORT_VALUE
  {
    if |items| <= SORT_VALUE then [items]
    else [items[..SORT_VALUE]] + Pages(items[SORT_VALUE..])
  }

  /** The pages laid end to end. */
  function Concat<T>(pages: seq<seq<T>>): seq<T> {
    if |pages| == 0 then [] else pages[0] + Concat(pages[1..])
  }

  /** Paging loses and reorders nothing: the pages concatenate back to the feed. */
  lemma {:induction false} PagesConcatenate<T>(items: seq<T>)
    ensures Concat(Pages(items)) == items
  {
    if |items| > SORT_VALUE {
      var rest := Pages(items[SORT_VALUE..]);
      PagesConcatenate(items[SORT_VALUE..]);
      assert Pages(items)[1..] == rest;
      assert items == items[..SORT_VALUE] + items[SORT_VALUE..];
    } else {
      assert Pages(items)[1..] == [];
    }
  }

  /** The k-th element of Pages is exactly page k + 1. */
  lemma {:induction false} PagesArePages<T>(items: seq<T>, k: nat)
    requires k < PageCount(|items|)
    ensures Pages(items)[k] == Page(items, k + 1)
  {
    if |items| > SORT_VALUE && k > 0 {
      var tail := items[SORT_VALUE..];
      PagesArePages(tail, k - 1);
      assert Pages(items)[k] == Pages(tail)[k - 1];
      var a := Page(items, k + 1);
      var b := Page(tail, k);
      assert |a| == |b|;
      forall i | 0 <= i < |a| ensures a[i] == b[i] {
        assert a[i] == items[k * SORT_VALUE + i];
        assert b[i] == tail[(k - 1) * SORT_VALUE + i];
      }
    }
  }

  /** A feed of 13 posts: page 1 holds 10 and has a next page, page 2 holds 3 and has none. */
  lemma ThirteenPostsMakeTwoPages<T>(items: seq<T>)
    requires |items| == 13
    ensures PageCount(|items|) == 2
    ensures |Page(items, 1)| == 10 && HasNext(items, 1)
    ensures |Page(items, 2)| == 3 && !HasNext(items, 2) && HasPrevious(2)
  {
  }
}

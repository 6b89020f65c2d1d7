/**
 * The "avoid duplicates" append the script uses for the doc-linked and the
 * doc-imported lists: `if (!list.includes(x)) list.push(x)`.
 */
module UniqueLists {

  predicate NoDuplicates(xs: seq<string>)
  {
    forall i, j :: 0 <= i < j < |xs| ==> xs[i] != xs[j]
  }

  /**
   * Appending `x` unless it is already there: a present `x` leaves the list
   * as it was, an absent one lands at the end, the elements are the old ones
   * plus `x`, and a list without duplicates stays without duplicates.
   */
  function DedupAppend(list: seq<string>, x: string): (r: seq<string>)
    ensures list <= r && |r| <= |list| + 1
    ensures x in list ==> r == list
    ensures x !in list ==> r == list + [x]
    ensures forall y :: y in r <==> y in list || y == x
    ensures NoDuplicates(list) ==> NoDuplicates(r)
  {
    if x in list then list else list + [x]
  }

  /** Dedup-appending the elements of `xs` one by one, in order. */
  function DedupAppendAll(list: seq<string>, xs: seq<string>): (r: seq<string>)
    ensures list <= r
    ensures forall y :: y in r <==> y in list || y in xs
    ensures NoDuplicates(list) ==> NoDuplicates(r)
    decreases |xs|
  {
    if xs == [] then list
    else
      var r := DedupAppendAll(DedupAppend(list, xs[0]), xs[1..]);
      assert forall y :: y in xs <==> y == xs[0] || y in xs[1..] by {
        assert xs == [xs[0]] + xs[1..];
      }
      r
  }

  /** Dedup-appending two batches in turn is dedup-appending their concatenation. */
  lemma {:induction false} DedupAppendAllConcat(list: seq<string>, a: seq<string>, b: seq<string>)
    ensures DedupAppendAll(DedupAppendAll(list, a), b) == DedupAppendAll(list, a + b)
    decreases |a|
  {
    if a == [] {
      assert a + b == b;
    } else {
      assert (a + b)[0] == a[0];
      assert (a + b)[1..] == a[1..] + b;
      DedupAppendAllConcat(DedupAppend(list, a[0]), a[1..], b);
    }
  }
}

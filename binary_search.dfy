/**
 * EvaluationService.BinarySearch: built once over a list sorted in ascending
 * order, then asked for the index of a value. Modelled over integers with
 * their usual order; -1 is the not-found signal.
 */
module Search {

  predicate Sorted(s: seq<int>)
  {
    forall i, j :: 0 <= i < j < |s| ==> s[i] <= s[j]
  }

  /** Each element below the next: checked pair by pair, as one would check a concrete list. */
  predicate StrictlyAscending(s: seq<int>)
  {
    |s| <= 1 || (s[0] < s[1] && StrictlyAscending(s[1..]))
  }

  const NotFound: int := -1

  class BinarySearch {
    /** The list the search was built over; it never changes. */
    const items: seq<int>

    /** Keeps the list as given: it neither sorts nor checks it. */
    constructor (items: seq<int>)
      ensures this.items == items
    {
      this.items := items;
    }

    /**
     * indexOf: halve the window [low, high] around the middle element until
     * the middle element is the target or the window is empty.
     */
    method IndexOf(target: int) returns (index: int)
      requires Sorted(items)
      ensures index == NotFound || 0 <= index < |items|
      ensures 0 <= index ==> items[index] == target
      ensures index == NotFound <==> target !in items
    {
      var low, high := 0, |items| - 1;
      while low <= high
        invariant 0 <= low && high < |items|
        invariant forall k :: 0 <= k < |items| && (k < low || high < k) ==> items[k] != target
        decreases high - low
      {
        var mid := (low + high) / 2;
        if items[mid] == target {
          return mid;
        } else if target < items[mid] {
          high := mid - 1;
        } else {
          low := mid + 1;
        }
      }
      return NotFound;
    }
  }

  /**
   * A strictly ascending list is sorted, and holds each value at one index
   * only: the index found is then the index of the value.
   */
  lemma {:induction false} StrictlyAscendingUnique(s: seq<int>)
    requires StrictlyAscending(s)
    ensures forall i, j :: 0 <= i < j < |s| ==> s[i] < s[j]
    ensures Sorted(s)
  {
    if |s| > 1 {
      StrictlyAscendingUnique(s[1..]);
      forall i, j | 0 <= i < j < |s| ensures s[i] < s[j] {
        if i > 0 {
          assert s[i] == s[1..][i - 1] && s[j] == s[1..][j - 1];
        } else if j > 1 {
          assert s[1] == s[1..][0] && s[j] == s[1..][j - 1];
        }
      }
    }
  }

  /** In a strictly ascending list a value sits at one index only. */
  lemma SameValueSameIndex(s: seq<int>, i: int, j: int)
    requires StrictlyAscending(s)
    requires 0 <= i < |s| && 0 <= j < |s| && s[i] == s[j]
    ensures i == j
  {
    StrictlyAscendingUnique(s);
  }

  /** The expected indices of the search tests. */
  method FindsFirstAndLast() returns (first: int, last: int)
    ensures first == 0 && last == 6
  {
    var seven := [1, 3, 4, 6, 8, 9, 11];
    assert StrictlyAscending(seven);
    StrictlyAscendingUnique(seven);
    var search := new BinarySearch(seven);
    first := search.IndexOf(1);
    SameValueSameIndex(seven, first, 0);
    last := search.IndexOf(11);
    SameValueSameIndex(seven, last, 6);
  }

  method FindsInOddLength() returns (index: int)
    ensures index == 9
  {
    var odd := [1, 3, 5, 8, 13, 21, 34, 55, 89, 144, 233, 377, 634];
    assert StrictlyAscending(odd);
    StrictlyAscendingUnique(odd);
    var search := new BinarySearch(odd);
    index := search.IndexOf(144);
    SameValueSameIndex(odd, index, 9);
  }

  method FindsInEvenLength() returns (index: int)
    ensures index == 5
  {
    var even := [1, 3, 5, 8, 13, 21, 34, 55, 89, 144, 233, 377];
    assert StrictlyAscending(even);
    StrictlyAscendingUnique(even);
    var search := new BinarySearch(even);
    index := search.IndexOf(21);
    SameValueSameIndex(even, index, 5);
  }
}

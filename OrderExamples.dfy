/**
 * The lists order.py sorts at its end (order.py:44-45) and the counts it
 * reports for them.
 *
 * The number of cycles of a concrete list is found by replaying exchanges
 * that each send one value home until the list is sorted (`HomeTrace`): each
 * such exchange adds one cycle (`HomeTraceCycles`), and the sorted list of
 * length `n` has `n` cycles (`SortedCycles`).
 */
module OrderExamples {
  import opened Order

  const Short: seq<int> := [4, 3, 1, 2]
  const Medium: seq<int> := [1, 3, 5, 2, 4, 6, 7]

  /** The list of order.py:44: three exchanges, one cycle. */
  lemma ShortExample()
    ensures IsPermutation(Short) && |Short| - Cycles(Short) == 3
  {
    var sorted := [1, 2, 3, 4];
    assert HomeTrace(Short, [0, 0, 0], sorted);
    SortedCycles(sorted);
    HomeTraceCycles(Short, [0, 0, 0], sorted);
    PermutationPermutesSlots(Short);
  }

  /** The list of order.py:45: three exchanges, four cycles. */
  lemma MediumExample()
    ensures IsPermutation(Medium) && |Medium| - Cycles(Medium) == 3
  {
    var sorted := [1, 2, 3, 4, 5, 6, 7];
    assert HomeTrace(Medium, [1, 1, 1], sorted);
    SortedCycles(sorted);
    HomeTraceCycles(Medium, [1, 1, 1], sorted);
    PermutationPermutesSlots(Medium);
  }

  /** `minimumSwaps([4, 3, 1, 2])` returns 3. */
  method ShortRun() returns (swaps: nat)
    ensures swaps == 3
  {
    var a := new int[][4, 3, 1, 2];
    assert a[..] == Short;
    ShortExample();
    swaps := MinimumSwaps(a);
  }

  /** `minimumSwaps([1, 3, 5, 2, 4, 6, 7])` returns 3. */
  method MediumRun() returns (swaps: nat)
    ensures swaps == 3
  {
    var a := new int[][1, 3, 5, 2, 4, 6, 7];
    assert a[..] == Medium;
    MediumExample();
    swaps := MinimumSwaps(a);
  }
}

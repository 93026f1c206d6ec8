/**
 * `minimumSwaps` of order.py: sorting a permutation of 1..n in place by
 * sending the value at the current slot to its home slot until the slot
 * holds its own number, and counting the exchanges.
 *
 * A list `s` is read as the permutation `k |-> s[k] - 1` of its slots
 * (`AsPerm`). Every exchange that sends a value home adds one cycle to that
 * permutation and the sorted list has one cycle per slot, so the count is
 * `n - Cycles(s)`; no sequence of exchanges can do better, because any one
 * exchange adds at most one cycle (`SortingNeedsSwaps`).
 */
module Order {
  import opened Permutations

  /** `s` holds each of the numbers 1..|s| exactly once. */
  predicate IsPermutation(s: seq<int>) {
    InRange(s) && forall j, k :: 0 <= j < k < |s| ==> s[j] != s[k]
  }

  /** Every element of `s` is one of 1..|s|, so `s[k] - 1` is a slot of `s`. */
  predicate InRange(s: seq<int>) {
    forall k :: 0 <= k < |s| ==> 1 <= s[k] <= |s|
  }

  /** Every slot holds its own number: slot `k` (counting from 0) holds `k + 1`. */
  predicate Sorted(s: seq<int>) {
    forall k :: 0 <= k < |s| ==> s[k] == k + 1
  }

  /** The slots that do not hold their own number yet. */
  function Unplaced(s: seq<int>): set<int> {
    set k | 0 <= k < |s| && s[k] != k + 1
  }

  /** The tuple assignment `arr[i], arr[j] = arr[j], arr[i]`. */
  function Exchange(s: seq<int>, i: int, j: int): (r: seq<int>)
    requires 0 <= i < |s| && 0 <= j < |s|
    ensures |r| == |s| && r[i] == s[j] && r[j] == s[i]
    ensures forall k :: 0 <= k < |s| && k != i && k != j ==> r[k] == s[k]
  {
    s[i := s[j]][j := s[i]]
  }

  /** The slot numbers 0..n-1. */
  function Slots(n: nat): (r: set<int>)
    ensures forall k :: k in r <==> 0 <= k < n
  {
    if n == 0 then {} else Slots(n - 1) + {n - 1}
  }

  /** The permutation of the slots that `s` describes: slot `k` belongs at slot `s[k] - 1`. */
  function AsPerm(s: seq<int>): map<int, int> {
    map k | 0 <= k < |s| :: s[k] - 1
  }

  /** `s` describes a permutation of its slots. */
  ghost predicate PermutesSlots(s: seq<int>) {
    InRange(s) && IsPerm(AsPerm(s))
  }

  /** The number of cycles of the permutation `s` describes. */
  ghost function Cycles(s: seq<int>): nat {
    CycleCount(AsPerm(s))
  }

  lemma {:induction false} SlotsSize(n: nat)
    ensures |Slots(n)| == n
  {
    if n > 0 {
      SlotsSize(n - 1);
    }
  }

  lemma AsPermSize(s: seq<int>)
    ensures AsPerm(s).Keys == Slots(|s|) && |AsPerm(s)| == |s|
  {
    assert AsPerm(s).Keys == Slots(|s|);
    SlotsSize(|s|);
  }

  /** Holding each of 1..n once is describing a permutation of the n slots. */
  lemma PermutationPermutesSlots(s: seq<int>)
    ensures IsPermutation(s) <==> PermutesSlots(s)
  {
    var m := AsPerm(s);
    if IsPermutation(s) {
      forall v | v in m.Values
        ensures v in m.Keys
      {
        var k :| k in m && m[k] == v;
      }
    }
    if PermutesSlots(s) {
      forall j, k | 0 <= j < k < |s|
        ensures s[j] != s[k]
      {
        assert m[j] != m[k];
      }
    }
  }

  /** The numbers 1..n. */
  function Numbers(n: nat): (r: set<int>)
    ensures forall v :: v in r <==> 1 <= v <= n
  {
    if n == 0 then {} else Numbers(n - 1) + {n}
  }

  /** The set of elements of `s`. */
  function Elements(s: seq<int>): set<int> {
    set k | 0 <= k < |s| :: s[k]
  }

  /** A list without repetitions holds each of its elements once. */
  lemma {:induction false} DistinctMultiset(s: seq<int>)
    requires forall j, k :: 0 <= j < k < |s| ==> s[j] != s[k]
    ensures multiset(s) == multiset(Elements(s))
    decreases |s|
  {
    if s != [] {
      var p, x := s[..|s| - 1], s[|s| - 1];
      DistinctMultiset(p);
      assert s == p + [x];
      assert Elements(s) == Elements(p) + {x};
      assert x !in Elements(p);
    }
  }

  /** A permutation of 1..n holds exactly the numbers 1..n. */
  lemma PermutationElements(s: seq<int>)
    requires IsPermutation(s)
    ensures Elements(s) == Numbers(|s|)
  {
    PermutationPermutesSlots(s);
    forall v | 1 <= v <= |s|
      ensures v in Elements(s)
    {
      var k := Preimage(AsPerm(s), v - 1);
    }
  }

  /** Two permutations of 1..n have the same elements, each once. */
  lemma SameElements(s: seq<int>, t: seq<int>)
    requires IsPermutation(s) && IsPermutation(t) && |s| == |t|
    ensures multiset(s) == multiset(t)
  {
    DistinctMultiset(s);
    DistinctMultiset(t);
    PermutationElements(s);
    PermutationElements(t);
  }

  /** Exchanging two slots of the list exchanges the two images of the permutation. */
  lemma AsPermExchange(s: seq<int>, i: int, j: int)
    requires 0 <= i < |s| && 0 <= j < |s|
    ensures i in AsPerm(s) && j in AsPerm(s)
    ensures AsPerm(Exchange(s, i, j)) == Swap(AsPerm(s), i, j)
  {
    var l, r := AsPerm(Exchange(s, i, j)), Swap(AsPerm(s), i, j);
    assert l.Keys == r.Keys;
  }

  /** An exchange keeps a permutation a permutation. */
  lemma ExchangePermutesSlots(s: seq<int>, i: int, j: int)
    requires 0 <= i < |s| && 0 <= j < |s|
    ensures PermutesSlots(s) ==> PermutesSlots(Exchange(s, i, j))
  {
    AsPermExchange(s, i, j);
    if PermutesSlots(s) {
      SwapIsPerm(AsPerm(s), i, j);
    }
  }

  /** Sending the value at slot `i` home adds one cycle. */
  lemma ExchangeHomeCycles(s: seq<int>, i: int)
    requires PermutesSlots(s) && 0 <= i < |s| && s[i] != i + 1
    ensures Cycles(Exchange(s, i, s[i] - 1)) == Cycles(s) + 1
  {
    AsPermExchange(s, i, s[i] - 1);
    SwapIntoHome(AsPerm(s), i);
  }

  /** One exchange adds at most one cycle. */
  lemma ExchangeCycles(s: seq<int>, i: int, j: int)
    requires PermutesSlots(s) && 0 <= i < |s| && 0 <= j < |s|
    ensures Cycles(Exchange(s, i, j)) <= Cycles(s) + 1
  {
    AsPermExchange(s, i, j);
    if i == j {
      assert Exchange(s, i, j) == s;
    } else {
      SwapChangesCycleCount(AsPerm(s), i, j);
    }
  }

  /** The sorted list of length `n` is a permutation with `n` cycles, one fixed point per slot. */
  lemma SortedCycles(s: seq<int>)
    requires Sorted(s)
    ensures IsPermutation(s) && PermutesSlots(s)
    ensures Cycles(s) == |s|
  {
    assert AsPerm(s) == Identity(Slots(|s|));
    IdentityCycleCount(Slots(|s|));
    SlotsSize(|s|);
  }

  /** A permutation of `n` numbers has at most `n` cycles, and at least one when `n >= 1`. */
  lemma CyclesBounds(s: seq<int>)
    requires PermutesSlots(s)
    ensures Cycles(s) <= |s|
    ensures |s| >= 1 ==> Cycles(s) >= 1
  {
    CycleCountAtMostSize(AsPerm(s));
    AsPermSize(s);
    if |s| >= 1 {
      assert 0 in AsPerm(s);
      CycleCountPositive(AsPerm(s));
    }
  }

  /**
   * One exchange of the loop, at slot `i` behind which every slot holds its
   * own number: the permutation gains a cycle, and the slot `s[i] - 1` gets
   * its own number, which it did not hold before.
   */
  lemma HomeStep(s: seq<int>, i: int) returns (r: seq<int>)
    requires PermutesSlots(s) && 0 <= i < |s| && s[i] != i + 1
    requires forall k :: 0 <= k < i ==> s[k] == k + 1
    ensures r == Exchange(s, i, s[i] - 1)
    ensures PermutesSlots(r)
    ensures Cycles(r) == Cycles(s) + 1
    ensures forall k :: 0 <= k < i ==> r[k] == k + 1
    ensures Unplaced(r) < Unplaced(s)
  {
    var h := s[i] - 1;
    assert AsPerm(s)[i] == h && AsPerm(s)[h] == s[h] - 1;
    r := Exchange(s, i, h);
    ExchangeHomeCycles(s, i);
    ExchangePermutesSlots(s, i, h);
    assert h in Unplaced(s) - Unplaced(r);
  }

  /** When all slots but the last hold their own number, so does the last. */
  lemma LastInPlace(s: seq<int>)
    requires PermutesSlots(s)
    requires forall k :: 0 <= k < |s| - 1 ==> s[k] == k + 1
    ensures Sorted(s)
  {
    if |s| > 0 {
      var last, v := |s| - 1, s[|s| - 1];
      assert AsPerm(s)[last] == v - 1 && AsPerm(s)[v - 1] == s[v - 1] - 1;
    }
  }

  /**
   * Sending values home at the slots `slots`, one after the other, leads
   * from `s` to `end`.
   */
  ghost predicate HomeTrace(s: seq<int>, slots: seq<int>, end: seq<int>)
    decreases |slots|
  {
    if slots == [] then s == end
    else
      var i := slots[0];
      0 <= i < |s| && 1 <= s[i] <= |s| && s[i] != i + 1 &&
      HomeTrace(Exchange(s, i, s[i] - 1), slots[1..], end)
  }

  /** One more home-sending exchange at the end of a trace. */
  lemma {:induction false} HomeTraceExtend(s: seq<int>, slots: seq<int>, end: seq<int>, i: int)
    requires HomeTrace(s, slots, end)
    requires 0 <= i < |end| && 1 <= end[i] <= |end| && end[i] != i + 1
    ensures HomeTrace(s, slots + [i], Exchange(end, i, end[i] - 1))
    decreases |slots|
  {
    if slots != [] {
      var j := slots[0];
      HomeTraceExtend(Exchange(s, j, s[j] - 1), slots[1..], end, i);
      assert (slots + [i])[1..] == slots[1..] + [i];
    }
  }

  /**
   * Replaying a trace backwards from a permutation: `s` is a permutation
   * too, with one cycle less for every exchange of the trace.
   */
  lemma {:induction false} HomeTraceCycles(s: seq<int>, slots: seq<int>, end: seq<int>)
    requires HomeTrace(s, slots, end) && PermutesSlots(end)
    ensures PermutesSlots(s) && Cycles(s) + |slots| == Cycles(end)
    decreases |slots|
  {
    if slots != [] {
      var i := slots[0];
      var t := Exchange(s, i, s[i] - 1);
      HomeTraceCycles(t, slots[1..], end);
      assert s == Exchange(t, i, s[i] - 1);
      ExchangePermutesSlots(t, i, s[i] - 1);
      ExchangeHomeCycles(s, i);
    }
  }

  /** Exchanges that send values home keep a permutation a permutation. */
  lemma {:induction false} HomeTracePermutes(s: seq<int>, slots: seq<int>, end: seq<int>)
    requires HomeTrace(s, slots, end) && PermutesSlots(s)
    ensures PermutesSlots(end) && |end| == |s|
    decreases |slots|
  {
    if slots != [] {
      var i := slots[0];
      var t := Exchange(s, i, s[i] - 1);
      assert HomeTrace(t, slots[1..], end);
      ExchangePermutesSlots(s, i, s[i] - 1);
      assert PermutesSlots(t);
      HomeTracePermutes(t, slots[1..], end);
    }
  }

  /**
   * The state of the loop of `minimumSwaps` on the input `s0`: every slot
   * before `i` holds its own number, and `s` is reached from `s0` by sending
   * values home at the slots `slots`.
   */
  ghost predicate Progress(s0: seq<int>, s: seq<int>, i: int, slots: seq<int>) {
    |s| == |s0| && 0 <= i <= |s| && (|s| > 0 ==> i < |s|) &&
    (forall k :: 0 <= k < i ==> s[k] == k + 1) &&
    HomeTrace(s0, slots, s)
  }

  /**
   * A swap of the loop stays inside the list, keeps the state of the loop
   * and strictly shrinks the set of misplaced slots.
   */
  lemma ProgressSwap(s0: seq<int>, s: seq<int>, i: int, slots: seq<int>) returns (r: seq<int>)
    requires PermutesSlots(s0)
    requires Progress(s0, s, i, slots) && i < |s| && s[i] != i + 1
    ensures 1 <= s[i] <= |s|
    ensures r == Exchange(s, i, s[i] - 1)
    ensures Progress(s0, r, i, slots + [i])
    ensures Unplaced(r) < Unplaced(s)
  {
    HomeTracePermutes(s0, slots, s);
    r := HomeStep(s, i);
    HomeTraceExtend(s0, slots, s, i);
  }

  /** Moving past a slot that holds its own number keeps the state of the loop. */
  lemma ProgressAdvance(s0: seq<int>, s: seq<int>, i: int, slots: seq<int>)
    requires Progress(s0, s, i, slots) && i < |s| - 1 && s[i] == i + 1
    ensures Progress(s0, s, i + 1, slots)
  {
  }

  /**
   * When the loop stops the list is sorted, and there were `n - Cycles(s0)`
   * exchanges.
   */
  lemma ProgressDone(s0: seq<int>, s: seq<int>, i: int, slots: seq<int>)
    requires PermutesSlots(s0)
    requires Progress(s0, s, i, slots) && i >= |s| - 1
    ensures Sorted(s) && IsPermutation(s) && |slots| == |s| - Cycles(s0)
  {
    HomeTracePermutes(s0, slots, s);
    LastInPlace(s);
    SortedCycles(s);
    HomeTraceCycles(s0, slots, s);
  }

  /** Sorts `a`, which holds a permutation of 1..a.Length, and returns the number of exchanges. */
  method MinimumSwaps(a: array<int>) returns (swaps: nat)
    requires IsPermutation(a[..])
    modifies a
    ensures Sorted(a[..])
    ensures multiset(a[..]) == multiset(old(a[..]))
    ensures swaps == a.Length - Cycles(old(a[..]))
  {
    ghost var s0, cur := a[..], a[..];
    ghost var slots: seq<int> := [];
    PermutationPermutesSlots(s0);
    swaps := 0;
    var i := 0;
    while i < a.Length - 1
      invariant a[..] == cur && Progress(s0, cur, i, slots) && swaps == |slots|
      decreases a.Length - i, Unplaced(cur)
    {
      if a[i] != i + 1 {
        var temp := a[i];
        ghost var next := ProgressSwap(s0, cur, i, slots);
        a[i], a[temp - 1] := a[temp - 1], a[i];
        assert a[..] == next;
        cur, slots := next, slots + [i];
        swaps := swaps + 1;
      } else {
        ProgressAdvance(s0, cur, i, slots);
        i := i + 1;
      }
    }
    ProgressDone(s0, cur, i, slots);
    SameElements(cur, s0);
  }

  // ---------------------------------------------------------------------
  // The count is the minimum, and its bounds

  /** Exchanges of two slots each, applied in order. */
  function ApplyExchanges(s: seq<int>, ps: seq<(int, int)>): (r: seq<int>)
    requires forall p :: p in ps ==> 0 <= p.0 < |s| && 0 <= p.1 < |s|
    ensures |r| == |s|
    decreases |ps|
  {
    if ps == [] then s
    else ApplyExchanges(Exchange(s, ps[0].0, ps[0].1), ps[1..])
  }

  lemma {:induction false} ApplyExchangesCycles(s: seq<int>, ps: seq<(int, int)>)
    requires PermutesSlots(s)
    requires forall p :: p in ps ==> 0 <= p.0 < |s| && 0 <= p.1 < |s|
    ensures Cycles(ApplyExchanges(s, ps)) <= Cycles(s) + |ps|
    decreases |ps|
  {
    if ps != [] {
      var t := Exchange(s, ps[0].0, ps[0].1);
      ExchangePermutesSlots(s, ps[0].0, ps[0].1);
      ExchangeCycles(s, ps[0].0, ps[0].1);
      assert forall p :: p in ps[1..] ==> p in ps;
      ApplyExchangesCycles(t, ps[1..]);
    }
  }

  /**
   * Any sequence of exchanges that sorts `s` has at least `|s| - Cycles(s)`
   * of them, the number `MinimumSwaps` performs.
   */
  lemma SortingNeedsSwaps(s: seq<int>, ps: seq<(int, int)>)
    requires IsPermutation(s)
    requires forall p :: p in ps ==> 0 <= p.0 < |s| && 0 <= p.1 < |s|
    requires Sorted(ApplyExchanges(s, ps))
    ensures |ps| >= |s| - Cycles(s)
  {
    PermutationPermutesSlots(s);
    ApplyExchangesCycles(s, ps);
    SortedCycles(ApplyExchanges(s, ps));
  }

  /** At most `n - 1` exchanges for `n >= 1` numbers, and none for at most one number. */
  lemma SwapsBounds(s: seq<int>)
    requires IsPermutation(s)
    ensures 0 <= |s| - Cycles(s)
    ensures |s| >= 1 ==> |s| - Cycles(s) <= |s| - 1
    ensures |s| <= 1 ==> |s| - Cycles(s) == 0
  {
    PermutationPermutesSlots(s);
    CyclesBounds(s);
  }
}

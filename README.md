# Minimum swaps and the copyists' desk

This project models two programs and proves properties of the models.

**`minimumSwaps` (order.py).** The function sorts a list that holds a permutation of `1..n`, in place. At slot `i` it keeps sending the value `arr[i]` to its home slot `arr[i] - 1` with a tuple swap. Once slot `i` holds `i + 1` it moves on to the next slot. It returns the number of swaps.

The model is a method on an `array<int>` (`Order.MinimumSwaps`), with the loop and its invariants. It is proved to:
- leave the array sorted;
- keep the same elements;
- return `n` minus the number of cycles of the permutation.

Every sequence of exchanges that sorts the list needs at least that many (`Order.SortingNeedsSwaps`). So the returned count really is the minimum, as the doc comment claims.

The theory of cycles lives in `Permutations`. Cycles are counted without following orbits: take one element out of its cycle, and count it when it was a fixed point. The element taken out first does not affect the count.

**The copyists' desk (Engineers.java).** Eight copyists share four pencils and four eidographs. A copyist's pencil is `((i + 1) / 4) % 4` and its eidograph is `(i - 1) / 2`, both with Java's truncating integer division. Each copyist does five copies. A copy takes the pencil, then the eidograph, draws, puts both down and checks the work. The model has these parts:
- the index arithmetic, with Java's `/` and `%` spelled out (`Assignment`);
- a tool as a class whose `isAvailable` flag is updated in place (`Tools`);
- a copyist as a class recording its actions as an event trace (`Copyists`);
- the set-up code of `main` (`Desk`).

The trace has to follow a protocol:
- the eidograph is picked up only while the pencil is held;
- drawing needs both tools;
- checking needs neither.

Four tools of each kind among eight copyists might suggest two copyists per tool. The code does not do that: the pencils serve 3, 4, 1 and 0 copyists, and the eidographs 3, 2, 2 and 1. The model follows the code (`Assignment.Sharing`).

## Model

| member | source | states |
|---|---|---|
| Order.MinimumSwaps | order.py:32-42 | Given a permutation of 1..n, the array ends with slot k holding k+1, keeps the same multiset of elements, and the returned count is n minus the number of cycles of the input permutation; the loop invariant keeps the prefix before `i` in place and the loop terminates |
| Order.HomeStep | order.py:36-39 | One swap sends `temp` to slot `temp-1`, leaves the already placed prefix alone, keeps the list a permutation, adds exactly one cycle and strictly shrinks the set of misplaced slots (which gives termination) |
| Order.HomeTraceExtend | order.py:36-39 | A run of home-sending swaps followed by one more home-sending swap is again such a run |
| Order.HomeTracePermutes | order.py:36-39 | A run of home-sending swaps from a permutation of the slots ends in a permutation of the same length |
| Order.HomeTraceCycles | order.py:36-39 | Undoing a run of home-sending swaps from a permutation gives a permutation with one cycle fewer per swap |
| Order.ProgressSwap | order.py:36-39 | In the loop state, a swap at a misplaced slot `i` moves a value in 1..n, keeps the placed prefix and the recorded run of swaps, and strictly shrinks the set of misplaced slots |
| Order.ProgressAdvance | order.py:40-41 | Once slot `i` holds `i+1`, the loop state holds with `i+1` in place of `i` |
| Order.ProgressDone | order.py:35-42 | When the loop stops, the list is sorted, still a permutation of 1..n, and the number of swaps made is n minus the number of cycles of the input |
| Order.LastInPlace | order.py:35 | The loop may stop at the last slot: once every earlier slot holds its own number, so does the last one |
| Order.PermutationPermutesSlots | order.py:32 | A list holding each of 1..n once is exactly a list describing a permutation of its slots (both directions) |
| Order.SameElements | order.py:36-41 | Two permutations of 1..n of the same length have the same multiset of elements |
| Order.SortedCycles | order.py:10-13 | The sorted list of length n is a permutation with n cycles |
| Order.ExchangeHomeCycles | order.py:20-24 | Sending the value at a misplaced slot home adds one cycle |
| Order.ExchangeCycles | order.py:10-13 | Any exchange of two slots adds at most one cycle |
| Order.SortingNeedsSwaps | order.py:10-13 | Every sequence of exchanges that sorts a permutation has at least n minus its number of cycles, the count `MinimumSwaps` returns |
| Order.CyclesBounds | order.py:35 | A permutation of n slots has at most n cycles, and at least one when n >= 1 |
| Order.SwapsBounds | order.py:35-42 | The count is at least 0, at most n-1 for n >= 1, and 0 for lists of length 0 or 1 |
| Permutations.SwapIntoHome | order.py:15-24 | Moving an element to its home position in a permutation adds exactly one cycle |
| Permutations.SwapChangesCycleCount | order.py:38 | Exchanging the images of two distinct elements changes the number of cycles by exactly one |
| Permutations.CycleCountRemove | order.py:10-13 | The cycle count does not depend on which element is taken out of its cycle first |
| OrderExamples.ShortExample | order.py:44 | [4,3,1,2] is a permutation whose minimum number of swaps is 3 |
| OrderExamples.MediumExample | order.py:45 | [1,3,5,2,4,6,7] is a permutation whose minimum number of swaps is 3 |
| OrderExamples.ShortRun | order.py:44 | `minimumSwaps([4, 3, 1, 2])` returns 3 |
| OrderExamples.MediumRun | order.py:45 | `minimumSwaps([1, 3, 5, 2, 4, 6, 7])` returns 3 |
| Assignment.JavaDiv | Engineers.java:44 | Java's `/` by a positive divisor: the remainder left over has the sign of the dividend and is smaller than the divisor |
| Assignment.JavaRem | Engineers.java:44 | Java's `%` by a positive divisor is in [0, b) for a non-negative dividend and in (-b, 0] for a negative one |
| Assignment.JavaDivision | Engineers.java:44 | Java's quotient times the divisor plus Java's remainder is the dividend |
| Assignment.JavaAgreesOnNatural | Engineers.java:44 | For non-negative dividends Java's operators agree with Euclidean division |
| Assignment.FirstCopyistEidograph | Engineers.java:44 | Copyist 0 gets eidograph 0, while Euclidean division would have given -1 |
| Assignment.IndicesInRange | Engineers.java:42-46 | Every copyist 0..7 reaches a pencil and an eidograph with index 0..3 |
| Assignment.AssignmentTable | Engineers.java:42-46 | Copyist i's pencil is [0,0,0,1,1,1,1,2][i] and its eidograph [0,0,0,1,1,2,2,3][i] |
| Assignment.Tables | Engineers.java:42-48 | The two assignment tables as a whole |
| Assignment.Sharing | Engineers.java:42-48 | Pencils 0..3 serve 3, 4, 1 and 0 copyists; eidographs 0..3 serve 3, 2, 2 and 1 |
| Assignment.CopyistBounds | Engineers.java:43-47 | Even copyists get the bounds (30, 60, 40, 100), odd ones (30, 80, 40, 60) |
| Tools.Tool.constructor | Engineers.java:174-178 | A new tool has the identifier and name it was given and is available |
| Tools.Tool.Pencil | Engineers.java:239-241 | A new pencil has the given identifier, the name "pencil", and is available |
| Tools.Tool.Eidograph | Engineers.java:261-263 | A new eidograph has the given identifier, the name "eidograph", and is available |
| Tools.Tool.PickToolUp | Engineers.java:188-205 | Picking up needs an available tool and leaves it held; only the flag changes, identifier and name are constants |
| Tools.Tool.PutToolDown | Engineers.java:215-219 | Putting down leaves the tool available; only the flag changes |
| Copyists.Copyist.constructor | Engineers.java:89-97 | A new copyist stores the seven arguments unchanged and has done nothing yet |
| Copyists.Copyist.Check | Engineers.java:146-150 | Checking appends one checking event, touches no tool, and keeps the protocol when the copyist holds nothing |
| Copyists.Copyist.Copy | Engineers.java:122-136 | One copy appends pencil up, eidograph up, drawing, pencil down, eidograph down, checking; it keeps the protocol and leaves both tools available |
| Copyists.Copyist.Run | Engineers.java:103-112 | A run appends exactly five copy cycles, keeps the protocol and leaves both tools available |
| Copyists.ReplayConcat | Engineers.java:103-112 | Following the protocol through two traces in turn is following it through their concatenation |
| Copyists.CopyCycleAllowed | Engineers.java:122-136 | One copy cycle is allowed from holding nothing: the eidograph is taken while the pencil is held, drawing happens with both, and both are down before checking |
| Copyists.RepeatAllowed | Engineers.java:103-110 | Any number of copy cycles in a row follow the protocol and end holding nothing |
| Copyists.RepeatCounts | Engineers.java:103-110 | In k repetitions of a trace every event occurs k times as often |
| Copyists.FiveCycles | Engineers.java:103-110 | A run picks up and puts down each of its two tools exactly five times, draws five times and checks five times |
| Desk.BuildDesk | Engineers.java:23-48 | `main` builds eidographs and pencils 0..3, all available, and copyists 0..7 with the pencil and eidograph given by the index arithmetic and the bounds for their parity; two copyists share a tool exactly when their indices agree |

## Left out

- OrderExamples: the third list sorted in order.py:46-49 (50 numbers, where 46 swaps are expected) is not modelled. Proving its cycle count needs equalities between fifty-slot lists that the verifier cannot settle within its resource limit. The first two lists are covered.
- Order.MinimumSwaps: lists that are not permutations of 1..n are excluded by the precondition. On such lists the source may return a count without sorting: `[1, 1]` gives 0, because the last slot is never looked at, and `[0, 1]` swaps through `arr[-1]`, gives 1 and leaves `[1, 0]`. It may also fail: `[3, 1]` raises `IndexError` at order.py:38. Or it may never terminate: on `[2, 2]` the swap changes nothing.
- Order.MinimumSwaps: the bounds `swaps <= n - 1` and `swaps == 0` for n <= 1 are not in the method's own contract. They follow from its count through `Order.SwapsBounds`.
- The `import` lines of order.py:3-7 are unused and are not modelled. The `print` calls are modelled only as the values they print.
- Threads: `Thread` start-up (Engineers.java:51-54), `synchronized`, `wait` and `notify` are not modelled. This single-threaded model says nothing about mutual exclusion across interleavings, deadlock or fairness.
- Tools.Tool.PickToolUp: the blocking wait loop becomes the precondition that the tool is available. Its retry counter and back-off sleep (Engineers.java:189-199) change no state that matters.
- The drawing and checking durations, `Thread.sleep` and `new Random()` (Engineers.java:130, 148, 198), are left out. The argument passed to `nextInt` and the reuse of the copy bounds in `check()` are therefore not modelled either. The bounds are stored, as the constructor does.
- All `System.out.println` output is left out. The trace records the logged actions as events instead, without the text.
- Swallowed `InterruptedException`s (Engineers.java:105-107, 131, 196) are left out, because they belong to the platform.
- `Pencil` and `Eidograph` are subclasses of `Tool` in the source. Here they are the named constructors `Tool.Pencil` and `Tool.Eidograph`, which build a tool with the right name.
- Desk.BuildDesk: Java's arrays of tools and copyists are written once and never updated. They are modelled as sequences.
- Java's 32-bit `int` overflow is not modelled. No value in the core comes near it.

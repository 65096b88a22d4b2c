# Prime computation: reference checker and work partitioning

A Dafny model of two parts of the prime computation lab.

**The sequential reference checker (`PrimeComputerTester`).** It provides:

- the trial-division primality test `isPrime`;
- the ascending list of primes below a bound, `getPrimes`;
- the order-preserving list difference `substract`, used to find false positives and false negatives;
- the integer count inside `sortRate`.

**The work partitioning of `PrimeComputer.computePrimes`.** It covers:

- the chunk size, which is the ceiling of `max / availableProcessors`;
- the candidate list `1 .. max-2`;
- the grouping of candidates by `position / chunkSize`;
- the loop that hands group `i` to processor `i`.

The project has three modules:

- `Outcomes` (`outcomes.dfy`): the two Java exceptions modelled (`IllegalArgumentException` and the out-of-bounds array read), as values of a `Result` type.
- `PrimeComputerTester` (`prime_computer_tester.dfy`): each Java loop is a Dafny method. `IsPrime` is proved against mathematical primality (`IsPrimeNumber`). The other methods are proved against recursive specification functions (`PrimesBelow`, `Difference`, `InOrderPairs`), and lemmas connect those functions to primality, membership, multiplicity and ordering.
- `PrimeComputer` (`prime_computer.dfy`):
  - `ChunkSize` and `Candidates` are pure functions.
  - The map built by `groupingBy` is the function `Chunks`. `GroupByPosition` is the counter loop that builds it one element at a time.
  - `Submit` is the submission loop as written. `SubmitEach` is a corrected version.
  - `PartitionAndSubmit` strings the steps together as the source does. `PartitionAndSubmitEach` does the same with both corrections listed under Findings.

`Start(k, c)` is the first position of group `k`, `k * c`, written as repeated addition. `GroupCount(n, c)` is the number of groups `n` elements fall into, proved equal to the ceiling of `n / c`.

## Model

| member | source | states |
|---|---|---|
| PrimeComputerTester.FloorSqrt | app/src/primes/PrimeComputerTester.java:63 | the trial bound `(long) Math.sqrt(n)` is the largest r with r·r ≤ n |
| PrimeComputerTester.CompositeHasSmallDivisor | app/src/primes/PrimeComputerTester.java:63-68 | a number with a divisor in 2..n-1 has one between 2 and floor(sqrt n), which justifies stopping the loop at the square root |
| PrimeComputerTester.TrialDivisionCorrect | app/src/primes/PrimeComputerTester.java:60-69 | an odd n ≥ 5 is prime iff no odd d with 3 ≤ d ≤ floor(sqrt n) divides it |
| PrimeComputerTester.IsPrime | app/src/primes/PrimeComputerTester.java:50-70 | negative input fails with IllegalArgument("number is not natural"); 0 and 1 give false; 2 and 3 give true; even n > 3 gives false; for every n ≥ 0 the answer is mathematical primality |
| PrimeComputerTester.DivisorMeansComposite | app/src/primes/PrimeComputerTester.java:64-67 | a divisor the loop finds (odd, at most the square root) shows the number is not prime |
| PrimeComputerTester.NoOddDivisorMeansPrime | app/src/primes/PrimeComputerTester.java:64-69 | when the loop passes the square root without finding a divisor, the odd number ≥ 5 is prime |
| PrimeComputerTester.OracleExamples | app/src/primes/PrimeComputerTester.java:54-69 | 1 and 9 are not prime, 2 is |
| PrimeComputerTester.PrimesBelowMembers | app/src/primes/PrimeComputerTester.java:80-88 | the primes list holds exactly the primes c with 1 ≤ c < max |
| PrimeComputerTester.PrimesBelowAscending | app/src/primes/PrimeComputerTester.java:80-88 | the primes list is strictly ascending |
| PrimeComputerTester.PrimesBelowTwo | app/src/primes/PrimeComputerTester.java:80-88 | the primes list is empty when max ≤ 2 |
| PrimeComputerTester.PrimesBelowTen | app/src/primes/PrimeComputerTester.java:80-88 | the primes below 3 are [2]; below 10 they are [2, 3, 5, 7] |
| PrimeComputerTester.GetPrimes | app/src/primes/PrimeComputerTester.java:80-88 | the loop returns the strictly ascending list of exactly the primes c with 1 ≤ c < max; the list is empty when max ≤ 2 |
| PrimeComputerTester.DifferenceMember | app/src/primes/PrimeComputerTester.java:217-230 | x is in the difference iff x is in the first collection and not in the second |
| PrimeComputerTester.DifferenceCounts | app/src/primes/PrimeComputerTester.java:217-230 | an element kept by the difference keeps its multiplicity in the first collection; a removed one occurs 0 times |
| PrimeComputerTester.DifferenceIsSubsequence | app/src/primes/PrimeComputerTester.java:217-230 | the difference is a subsequence of the first collection, so its order is kept |
| PrimeComputerTester.DifferenceWithItself | app/src/primes/PrimeComputerTester.java:217-230 | the difference of a collection with itself is empty |
| PrimeComputerTester.Substract | app/src/primes/PrimeComputerTester.java:217-230 | the loop returns, in order and with multiplicity, exactly the elements of collection1 not contained in collection2 |
| PrimeComputerTester.InOrderPairs | app/src/primes/PrimeComputerTester.java:207-212 | a list of size ≥ 1 has at most size - 1 adjacent pairs in order |
| PrimeComputerTester.AllPairsInOrderIffNonDecreasing | app/src/primes/PrimeComputerTester.java:207-212 | all size - 1 adjacent pairs are in order iff the list is non-decreasing |
| PrimeComputerTester.SortRate | app/src/primes/PrimeComputerTester.java:201-215 | size ≤ 1 gives rate 0; otherwise the count is 1 plus the in-order pairs, over the size; the count is between 1 and the size, and equals the size iff the list has ≥ 2 elements and is non-decreasing |
| PrimeComputer.CeilDiv | app/src/primes/PrimeComputer.java:58 | ceiling division: q·b ≥ a > q·b - b, and q ≥ 1 iff a ≥ 1 |
| PrimeComputer.ChunkSize | app/src/primes/PrimeComputer.java:55-58 | chunkSize·p ≥ max and (chunkSize - 1)·p < max; the chunk size is positive iff max ≥ 1 |
| PrimeComputer.Range | app/src/primes/PrimeComputer.java:60-62 | `LongStream.range(lo, hi)` has hi - lo elements (none if hi ≤ lo), the j-th being lo + j |
| PrimeComputer.RangeMembers | app/src/primes/PrimeComputer.java:60-62 | a range holds exactly lo ≤ x < hi, strictly ascending |
| PrimeComputer.Candidates | app/src/primes/PrimeComputer.java:60-62 | the candidate list is exactly 1, ..., max - 2, ascending, of length max - 2 (empty when max ≤ 2) |
| PrimeComputer.CandidatesOmitLast | app/src/primes/PrimeComputer.java:60 | when max - 1 is prime, getPrimes lists it but it is neither a candidate nor among the candidates' primes |
| PrimeComputer.CandidatesMissTwo | app/src/primes/PrimeComputer.java:60 | for max = 3 the candidates are [1], which hold no prime, while the primes below 3 are [2] |
| PrimeComputer.IntendedCandidatesYieldPrimes | app/src/primes/PrimeComputerTester.java:82 | the candidates 1 .. max - 1 that getPrimes visits contain, in order, exactly the primes below max |
| PrimeComputer.GroupCount | app/src/primes/PrimeComputer.java:64-67 | for n > 0 elements there is at least one group; the last group starts before n, and a further group would start at or past n |
| PrimeComputer.GroupCountIsCeiling | app/src/primes/PrimeComputer.java:58-67 | the number of groups is the ceiling of n / chunkSize |
| PrimeComputer.ChunkKeys | app/src/primes/PrimeComputer.java:64-67 | the keys of the grouping map are exactly 0 .. groupCount - 1 |
| PrimeComputer.ChunksAppend | app/src/primes/PrimeComputer.java:64-66 | one counter step appends the element to the group with key counter / chunkSize, or opens that group; no other group changes |
| PrimeComputer.GroupByPosition | app/src/primes/PrimeComputer.java:64-67 | the counter loop builds exactly the map in which key k holds the elements at positions k·chunkSize .. k·chunkSize + chunkSize - 1 |
| PrimeComputer.ChunkOfPosition | app/src/primes/PrimeComputer.java:64-66 | the element at position j is in the group with key j / chunkSize, at offset j % chunkSize |
| PrimeComputer.ChunkSizes | app/src/primes/PrimeComputer.java:64-67 | every group but the last has exactly chunkSize elements; the last has between 1 and chunkSize |
| PrimeComputer.ChunkSizesBounded | app/src/primes/PrimeComputer.java:64-67 | every group has between 1 and chunkSize elements |
| PrimeComputer.ChunksConcatenate | app/src/primes/PrimeComputer.java:64-67 | concatenating the groups in key order gives back the list, with no element lost or repeated |
| PrimeComputer.ChunkElement | app/src/primes/PrimeComputer.java:64-66 | element i of group k is the list element at position k·chunkSize + i, with i < chunkSize |
| PrimeComputer.ChunksOrdered | app/src/primes/PrimeComputer.java:64-67 | over an ascending list, every element of a group is smaller than every element of a later group, so the groups are pairwise disjoint |
| PrimeComputer.RangeChunk | app/src/primes/PrimeComputer.java:60-67 | when the list is a range, each group is the contiguous ascending range from lo + k·chunkSize to lo + min(k·chunkSize + chunkSize, n) |
| PrimeComputer.GroupCountAtMost | app/src/primes/PrimeComputer.java:58-67 | if count groups of chunkSize hold n elements, there are at most count groups |
| PrimeComputer.CandidateGroupCount | app/src/primes/PrimeComputer.java:55-67 | the candidates fall into ceil((max - 2) / chunkSize) groups, at most p of them, and into none iff max ≤ 2 |
| PrimeComputer.Submit | app/src/primes/PrimeComputer.java:73-75 | the loop over i < p succeeds iff there are at least p groups, and then hands out groups 0 .. p - 1 in key order; otherwise it fails with an index error at index groupCount |
| PrimeComputer.SubmitEach | app/src/primes/PrimeComputer.java:73-75 | the corrected loop hands out every group exactly once, in key order |
| PrimeComputer.PartitionAndSubmit | app/src/primes/PrimeComputer.java:55-75 | as written, partitioning succeeds iff the candidates form exactly p groups, and then the p tasks cover the candidates in order; otherwise it fails with an index error at index g, the number of groups (index 0 when max ≤ 2) |
| PrimeComputer.TenOnFourProcessors | app/src/primes/PrimeComputer.java:58-74 | for max = 10 and p = 4 the chunk size is 3 and the 8 candidates form 3 groups, so the as-written loop fails reading index 3 |
| PrimeComputer.PartitionAndSubmitEach | app/src/primes/PrimeComputer.java:55-75 | with both corrections: at most p tasks; none iff max ≤ 1; each task has 1 to chunkSize elements; together they are 1 .. max - 1 in order, and their primes are exactly getPrimes' list |
| PrimeComputer.KeyOrderLength | app/src/primes/PrimeComputer.java:73-74 | listing the groups 0 .. count - 1 gives count tasks |

## Left out

- `main`, `getArguments`, `performTest` and `TestResult` (app/src/primes/PrimeComputerTester.java:23-149, 235-253) are not modelled. They are command-line parsing, `System.exit`, wall-clock timing and console output.
- `compareResults` (app/src/primes/PrimeComputerTester.java:151-199) is not modelled. It is floating-point precision, recall, speedup and grading.
- PrimeComputerTester.SortRate: returns the rate as the integer pair `Ratio(count, size)` instead of computing the `double` division at line 214. Size ≤ 1 gives `Ratio(0, 1)`, which stands for 0.0.
- The thread pool in `computePrimes` (app/src/primes/PrimeComputer.java:70-83) is not modelled. That is `newFixedThreadPool`, `submit`, `Future`, `shutdown` and `awaitTermination`: it is concurrency, and the futures' results are discarded. `Submit` records the chunks handed out, in order, as a list of tasks.
- `MyChunkProcessor` (app/src/primes/PrimeComputer.java:88-105) is not modelled. It does not compile: `max`, `primes` and `XX` are undefined at lines 97-103. Its `call` never reads its `chunk`: it loops over 1 .. max - 1 by itself.
- The submission loop (app/src/primes/PrimeComputer.java:73-75) does not compile either: line 74 instantiates the non-static inner class `MyChunkProcessor` from the static `computePrimes`. `Submit` and `PartitionAndSubmit` model the loop as drafted, reading `chunks.toArray()[i]` before the task is built. Both findings below are therefore latent defects of the partitioning as drafted, not behaviour of a running program.
- The return value of `computePrimes` (app/src/primes/PrimeComputer.java:46, 85) is not modelled. It is a list that nothing fills, so no property of it is claimed.
- `Runtime.availableProcessors()` (app/src/primes/PrimeComputer.java:55) becomes the parameter `processors`, assumed ≥ 1 as the JVM guarantees.
- PrimeComputerTester.FloorSqrt: `Math.sqrt` on a `double` is modelled as the exact integer floor square root. Rounding of doubles for `long` values above 2^53 is not modelled.
- PrimeComputer.ChunkSize: `Math.ceil((double) max / p)` is modelled as exact integer ceiling division. Double rounding for very large `max` is not modelled.
- Integer widths are not modelled: `long`, and the `int` counters of `sortRate` and the submission loop, are unbounded integers. No loop of the model comes near overflow for inputs a run could hold in memory.
- PrimeComputer.Submit: `chunks.toArray()[i]` reads the values of a `HashMap`, whose iteration order is not specified. The model reads position i as the group with key i. For the small `Long` keys 0 .. g - 1 that is the order the map's buckets give, but the model does not derive it.
- `AtomicInteger` (app/src/primes/PrimeComputer.java:64) is a plain counter, since the stream that increments it is sequential.
- The `TreeSet` copy in `substract` (app/src/primes/PrimeComputerTester.java:221) is a set used only for membership. Its ordering and the `Comparable` requirement it places on elements are not modelled.

## Findings

| source | as written | input that shows it | evidently intended | confidence | as-written member | corrected member |
|---|---|---|---|---|---|---|
| app/src/primes/PrimeComputer.java:60 | `LongStream.range(1, max - 1)` yields 1 .. max - 2, so max - 1 is never a candidate | max = 3: the only candidate is 1, so a chunk processor that tests only its chunk would miss max - 1, here the prime 2 (getPrimes tests 1 .. max - 1 at PrimeComputerTester.java:82) | `LongStream.range(1, max)`, the candidates of the sequential loop kept in comments at lines 48-53 | not executed | PrimeComputer.CandidatesMissTwo | PrimeComputer.IntendedCandidatesYieldPrimes |
| app/src/primes/PrimeComputer.java:73-74 | the loop reads `chunks.toArray()[i]` for every i < availableProcessors | max = 10, 4 processors: chunk size 3, 8 candidates, 3 groups, so i = 3 is out of bounds | one task per group (i < chunks.size()) | not executed | PrimeComputer.TenOnFourProcessors | PrimeComputer.PartitionAndSubmitEach |

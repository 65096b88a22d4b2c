/**
 * The work partitioning of the parallel prime computation: the chunk size, the
 * candidate list, the grouping of candidates into chunks by their position, and
 * the loop that hands one chunk to each processor.
 */
module PrimeComputer {
  import opened Outcomes
  import opened PrimeComputerTester

  function Min(a: int, b: int): int {
    if a <= b then a else b
  }

  // ---------------------------------------------------------------------------
  // Integer arithmetic facts
  // ---------------------------------------------------------------------------

  /** Ceiling division by a positive number, characterised by the two inequalities that define it. */
  function CeilDiv(a: int, b: int): (q: int)
    requires b >= 1
    ensures q * b >= a && q * b - b < a
    ensures q >= 1 <==> a >= 1
  {
    var q := (a + b - 1) / b;
    assert q * b + (a + b - 1) % b == a + b - 1;
    assert q >= 1 ==> q * b >= b by {
      if q >= 1 {
        MulLeft(1, q, b);
      }
    }
    assert q <= 0 ==> q * b <= 0 by {
      if q <= 0 {
        MulLeft(q, 0, b);
      }
    }
    q
  }

  /**
   * The first position of the group with key k when groups hold c positions
   * each: k * c, built up by repeated addition so that the proofs about groups
   * stay linear.
   */
  function Start(k: nat, c: nat): nat
  {
    if k == 0 then 0 else Start(k - 1, c) + c
  }

  lemma {:induction false} StartIsProduct(k: nat, c: nat)
    ensures Start(k, c) == k * c
  {
    if k > 0 {
      StartIsProduct(k - 1, c);
      assert k * c == (k - 1) * c + c;
    }
  }

  /** Groups with larger keys start at least one group size later. */
  lemma {:induction false} StartIncreasing(k1: nat, k2: nat, c: nat)
    requires k1 < k2
    ensures Start(k1, c) + c <= Start(k2, c)
    decreases k2
  {
    if k1 + 1 < k2 {
      StartIncreasing(k1, k2 - 1, c);
    }
  }

  lemma {:induction false} StartAtLeastKey(k: nat, c: nat)
    requires c >= 1
    ensures k <= Start(k, c)
  {
    if k > 0 {
      StartAtLeastKey(k - 1, c);
    }
  }

  /** Only a smaller key can start earlier. */
  lemma {:induction false} StartBelow(k1: nat, k2: nat, c: nat)
    requires Start(k1, c) < Start(k2, c)
    ensures k1 < k2
  {
    if k2 < k1 {
      StartIncreasing(k2, k1, c);
    }
  }

  /** Position j lies in the group with key j / c, at offset j % c. */
  lemma {:induction false} KeyOfPosition(j: int, c: int)
    requires j >= 0 && c >= 1
    ensures Start(j / c, c) + j % c == j && 0 <= j % c < c
    ensures Start(j / c, c) <= j < Start(j / c, c) + c
  {
    StartIsProduct(j / c, c);
  }

  /** Only the key j / c has a group whose positions include j. */
  lemma {:induction false} KeyUnique(j: int, c: int, k: nat)
    requires c >= 1 && Start(k, c) <= j < Start(k, c) + c
    ensures j / c == k
  {
    KeyOfPosition(j, c);
    var q := j / c;
    if q < k {
      StartIncreasing(q, k, c);
    } else if q > k {
      StartIncreasing(k, q, c);
    }
  }

  // ---------------------------------------------------------------------------
  // Chunk size (line 58)
  // ---------------------------------------------------------------------------

  /** `(long) Math.ceil((double) max / availableProcessors)`, as integer ceiling division. */
  function ChunkSize(max: int, processors: int): (chunkSize: int)
    requires processors >= 1
    ensures chunkSize * processors >= max
    ensures chunkSize * processors - processors < max
    ensures chunkSize >= 1 <==> max >= 1
  {
    CeilDiv(max, processors)
  }

  // ---------------------------------------------------------------------------
  // Candidate list (lines 60-62)
  // ---------------------------------------------------------------------------

  /** `LongStream.range(lo, hi)`: lo, lo + 1, ..., hi - 1, empty when hi <= lo. */
  function Range(lo: int, hi: int): (s: seq<int>)
    ensures |s| == if lo < hi then hi - lo else 0
    ensures forall j :: 0 <= j < |s| ==> s[j] == lo + j
    decreases hi - lo
  {
    if hi <= lo then [] else [lo] + Range(lo + 1, hi)
  }

  lemma {:induction false} RangeMembers(lo: int, hi: int)
    ensures forall x :: x in Range(lo, hi) <==> lo <= x < hi
    ensures StrictlyAscending(Range(lo, hi))
  {
    var s := Range(lo, hi);
    forall x | lo <= x < hi ensures x in s {
      assert s[x - lo] == x;
    }
  }

  /** A slice of a range is a range. */
  lemma {:induction false} RangeSlice(lo: int, hi: int, a: int, b: int)
    requires 0 <= a <= b <= |Range(lo, hi)|
    ensures Range(lo, hi)[a..b] == Range(lo + a, lo + b)
  {
  }

  /** A non-empty range ends with hi - 1. */
  lemma {:induction false} RangeSnoc(lo: int, hi: int)
    requires lo < hi
    ensures Range(lo, hi) == Range(lo, hi - 1) + [hi - 1]
  {
    RangeSlice(lo, hi, 0, hi - 1 - lo);
    var s := Range(lo, hi);
    assert s == s[..hi - 1 - lo] + [s[hi - 1 - lo]];
  }

  /** The candidate list of lines 60-62, `LongStream.range(1, max - 1)`. */
  function Candidates(max: int): (numbers: seq<int>)
    ensures |numbers| == if max > 2 then max - 2 else 0
    ensures forall c :: c in numbers <==> 1 <= c <= max - 2
    ensures StrictlyAscending(numbers)
  {
    RangeMembers(1, max - 1);
    Range(1, max - 1)
  }

  /** The primes of a list, in the list's order. */
  function PrimesIn(s: seq<int>): seq<int>
  {
    if s == [] then []
    else PrimesIn(s[..|s| - 1]) + (if IsPrimeNumber(s[|s| - 1]) then [s[|s| - 1]] else [])
  }

  /** As written, max - 1 is never a candidate, although getPrimes tests it and it may be prime. */
  lemma {:induction false} CandidatesOmitLast(max: int)
    requires max >= 3 && IsPrimeNumber(max - 1)
    ensures max - 1 in PrimesBelow(max)
    ensures max - 1 !in Candidates(max)
    ensures max - 1 !in PrimesIn(Candidates(max))
  {
    PrimesBelowMembers(max);
    PrimesInMembers(Candidates(max));
  }

  /** With max = 3 the only candidate is 1, so the prime 2 is lost. */
  lemma {:induction false} CandidatesMissTwo()
    ensures Candidates(3) == [1] && PrimesIn(Candidates(3)) == [] && PrimesBelow(3) == [2]
  {
    PrimesBelowTen();
    assert Candidates(3)[..0] == [];
  }

  lemma {:induction false} PrimesInMembers(s: seq<int>)
    ensures forall x :: x in PrimesIn(s) <==> x in s && IsPrimeNumber(x)
  {
    if s != [] {
      PrimesInMembers(s[..|s| - 1]);
      assert s == s[..|s| - 1] + [s[|s| - 1]];
    }
  }

  /** The candidate list the doc comment calls for, 1 .. max - 1, yields exactly getPrimes' list. */
  lemma {:induction false} IntendedCandidatesYieldPrimes(max: int)
    ensures PrimesIn(Range(1, max)) == PrimesBelow(max)
    decreases max
  {
    if max > 1 {
      IntendedCandidatesYieldPrimes(max - 1);
      RangeSnoc(1, max);
      var s := Range(1, max);
      assert s[..|s| - 1] == Range(1, max - 1);
    }
  }

  // ---------------------------------------------------------------------------
  // Grouping by position (lines 64-67)
  // ---------------------------------------------------------------------------

  /**
   * Number of groups n elements fall into when element j gets key j / chunkSize:
   * the last group starts before n and a further group would start at or past n.
   */
  function GroupCount(n: nat, chunkSize: int): (g: nat)
    requires n > 0 ==> chunkSize >= 1
    ensures n == 0 ==> g == 0
    ensures n > 0 ==> g >= 1 && Start(g - 1, chunkSize) < n <= Start(g, chunkSize)
  {
    if n == 0 then 0
    else if n <= chunkSize then 1
    else 1 + GroupCount(n - chunkSize, chunkSize)
  }

  /** The positions Start(k) up to (excluding) Start(k) + chunkSize of `numbers`. */
  function Chunk(numbers: seq<int>, chunkSize: int, k: nat): seq<int>
    requires chunkSize >= 1 && Start(k, chunkSize) < |numbers|
  {
    StartAtLeastKey(k, chunkSize);
    numbers[Start(k, chunkSize) .. Min(Start(k, chunkSize) + chunkSize, |numbers|)]
  }

  /**
   * The map `groupingBy(it -> counter.getAndIncrement() / chunkSize)` builds:
   * key k holds, in list order, the elements whose position has quotient k.
   */
  function Chunks(numbers: seq<int>, chunkSize: int): map<int, seq<int>>
    requires numbers != [] ==> chunkSize >= 1
  {
    map k | 0 <= k < |numbers| && Start(k, chunkSize) < |numbers| :: Chunk(numbers, chunkSize, k)
  }

  /** The keys are exactly 0 .. GroupCount - 1: one group per started run of chunkSize positions. */
  lemma {:induction false} ChunkKeys(numbers: seq<int>, chunkSize: int)
    requires numbers != [] ==> chunkSize >= 1
    ensures forall k :: k in Chunks(numbers, chunkSize) <==> 0 <= k < GroupCount(|numbers|, chunkSize)
  {
    var n, g := |numbers|, GroupCount(|numbers|, chunkSize);
    forall k ensures k in Chunks(numbers, chunkSize) <==> 0 <= k < g {
      if 0 <= k && n > 0 {
        StartAtLeastKey(k, chunkSize);
        if k < g - 1 {
          StartIncreasing(k, g - 1, chunkSize);
        } else if k > g {
          StartIncreasing(g, k, chunkSize);
        }
      }
    }
  }

  /** A group that was already full is not touched by appending an element. */
  lemma {:induction false} ChunkAppendFull(s: seq<int>, x: int, c: int, k: nat)
    requires c >= 1 && Start(k, c) + c <= |s|
    ensures k in Chunks(s, c) && k in Chunks(s + [x], c)
    ensures Chunks(s + [x], c)[k] == Chunks(s, c)[k]
  {
    StartAtLeastKey(k, c);
    var start := Start(k, c);
    assert Chunks(s + [x], c)[k] == (s + [x])[start .. start + c];
    assert Chunks(s, c)[k] == s[start .. start + c];
  }

  /** The group holding position |s| receives the appended element last. */
  lemma {:induction false} ChunkAppendOpen(s: seq<int>, x: int, c: int, k: nat)
    requires c >= 1 && Start(k, c) <= |s| < Start(k, c) + c
    ensures k in Chunks(s + [x], c)
    ensures Chunks(s + [x], c)[k] == (if k in Chunks(s, c) then Chunks(s, c)[k] else []) + [x]
  {
    StartAtLeastKey(k, c);
    var start := Start(k, c);
    assert Chunks(s + [x], c)[k] == (s + [x])[start .. |s| + 1];
    if start < |s| {
      assert Chunks(s, c)[k] == s[start .. |s|];
    } else {
      assert k !in Chunks(s, c);
    }
  }

  /** Appending an element adds at most the key |s| / c. */
  lemma {:induction false} ChunksAppendKey(s: seq<int>, x: int, c: int, k: int)
    requires c >= 1
    ensures k in Chunks(s + [x], c) <==> k == |s| / c || k in Chunks(s, c)
  {
    var n := |s|;
    KeyOfPosition(n, c);
    StartAtLeastKey(n / c, c);
    if 0 <= k {
      StartAtLeastKey(k, c);
      if Start(k, c) == n {
        KeyUnique(n, c, k);
      }
    }
  }

  /** Groups other than the one of key |s| / c are unchanged by appending an element. */
  lemma {:induction false} ChunksAppendOther(s: seq<int>, x: int, c: int, k: int)
    requires c >= 1 && k in Chunks(s + [x], c) && k != |s| / c
    ensures k in Chunks(s, c) && Chunks(s + [x], c)[k] == Chunks(s, c)[k]
  {
    var key := |s| / c;
    KeyOfPosition(|s|, c);
    if k < key {
      StartIncreasing(k, key, c);
      ChunkAppendFull(s, x, c, k);
    } else {
      StartIncreasing(key, k, c);
    }
  }

  /** A map that agrees with `before` except at one key, where it holds v, is that update of `before`. */
  lemma {:induction false} MapUpdateOf(before: map<int, seq<int>>, after: map<int, seq<int>>, key: int, v: seq<int>)
    requires forall k :: k in after <==> k == key || k in before
    requires key in after && after[key] == v
    requires forall k :: k in after && k != key ==> k in before && after[k] == before[k]
    ensures after == before[key := v]
  {
    var updated := before[key := v];
    assert forall k :: k in after <==> k in updated;
    assert forall k :: k in after ==> after[k] == updated[k];
  }

  /** Adding one element extends the group of key |s| / c, or opens it. */
  lemma {:induction false} ChunksAppend(s: seq<int>, x: int, c: int)
    requires c >= 1
    ensures Chunks(s + [x], c) ==
              var key := |s| / c;
              Chunks(s, c)[key := (if key in Chunks(s, c) then Chunks(s, c)[key] else []) + [x]]
  {
    var key := |s| / c;
    var before, after := Chunks(s, c), Chunks(s + [x], c);
    forall k ensures k in after <==> k == key || k in before {
      ChunksAppendKey(s, x, c, k);
    }
    KeyOfPosition(|s|, c);
    ChunkAppendOpen(s, x, c, key);
    forall k | k in after && k != key ensures k in before && after[k] == before[k] {
      ChunksAppendOther(s, x, c, k);
    }
    MapUpdateOf(before, after, key, (if key in before then before[key] else []) + [x]);
  }

  /**
   * The grouping loop of lines 64-67: a counter walks the list, and each element
   * is appended to the group keyed by counter / chunkSize.
   */
  method GroupByPosition(numbers: seq<int>, chunkSize: int) returns (chunks: map<int, seq<int>>)
    requires numbers != [] ==> chunkSize >= 1
    ensures chunks == Chunks(numbers, chunkSize)
  {
    chunks := map[];
    var counter := 0;
    while counter < |numbers|
      invariant 0 <= counter <= |numbers|
      invariant chunks == Chunks(numbers[..counter], chunkSize)
    {
      var key := counter / chunkSize;
      var group := if key in chunks then chunks[key] else [];
      ChunksAppend(numbers[..counter], numbers[counter], chunkSize);
      assert numbers[..counter + 1] == numbers[..counter] + [numbers[counter]];
      chunks := chunks[key := group + [numbers[counter]]];
      counter := counter + 1;
    }
    assert numbers[..counter] == numbers;
  }

  /** The element at position j sits in the group with key j / chunkSize, at offset j % chunkSize. */
  lemma {:induction false} ChunkOfPosition(numbers: seq<int>, chunkSize: int, j: int)
    requires chunkSize >= 1 && 0 <= j < |numbers|
    ensures j / chunkSize in Chunks(numbers, chunkSize)
    ensures j % chunkSize < |Chunks(numbers, chunkSize)[j / chunkSize]|
    ensures Chunks(numbers, chunkSize)[j / chunkSize][j % chunkSize] == numbers[j]
  {
    var k := j / chunkSize;
    KeyOfPosition(j, chunkSize);
    StartAtLeastKey(k, chunkSize);
    var start := Start(k, chunkSize);
    var chunk := Chunks(numbers, chunkSize)[k];
    assert chunk == numbers[start .. Min(start + chunkSize, |numbers|)];
    assert chunk[j % chunkSize] == numbers[j];
  }

  /** Every group but the last holds exactly chunkSize elements; the last holds 1 to chunkSize. */
  lemma {:induction false} ChunkSizes(numbers: seq<int>, chunkSize: int)
    requires chunkSize >= 1
    ensures forall k :: 0 <= k < GroupCount(|numbers|, chunkSize) ==> k in Chunks(numbers, chunkSize)
    ensures forall k :: 0 <= k < GroupCount(|numbers|, chunkSize) - 1 ==>
              |Chunks(numbers, chunkSize)[k]| == chunkSize
    ensures GroupCount(|numbers|, chunkSize) >= 1 ==>
              1 <= |Chunks(numbers, chunkSize)[GroupCount(|numbers|, chunkSize) - 1]| <= chunkSize
  {
    ChunkKeys(numbers, chunkSize);
    var n: int, g: int := |numbers|, GroupCount(|numbers|, chunkSize);
    forall k | 0 <= k < g - 1 ensures |Chunks(numbers, chunkSize)[k]| == chunkSize {
      StartIncreasing(k, g - 1, chunkSize);
      assert Chunks(numbers, chunkSize)[k] == Chunk(numbers, chunkSize, k);
    }
    if g >= 1 {
      var last := g - 1;
      var start := Start(last, chunkSize);
      assert Start(g, chunkSize) == start + chunkSize;
      assert Chunks(numbers, chunkSize)[last] == Chunk(numbers, chunkSize, last);
      assert |Chunk(numbers, chunkSize, last)| == n - start;
    }
  }

  /** Hence every group holds between 1 and chunkSize elements. */
  lemma {:induction false} ChunkSizesBounded(numbers: seq<int>, chunkSize: int)
    requires chunkSize >= 1
    ensures forall k :: 0 <= k < GroupCount(|numbers|, chunkSize) ==>
              k in Chunks(numbers, chunkSize) && 1 <= |Chunks(numbers, chunkSize)[k]| <= chunkSize
  {
    ChunkSizes(numbers, chunkSize);
  }

  /** Bounds that hold for every group carry over to the groups listed in key order. */
  lemma {:induction false} KeyOrderSizes(chunks: map<int, seq<int>>, count: nat, chunkSize: int)
    requires forall k :: 0 <= k < count ==> k in chunks && 1 <= |chunks[k]| <= chunkSize
    ensures forall t :: t in KeyOrder(chunks, count) ==> 1 <= |t| <= chunkSize
  {
    if count > 0 {
      KeyOrderSizes(chunks, count - 1, chunkSize);
      assert KeyOrder(chunks, count) == KeyOrder(chunks, count - 1) + [chunks[count - 1]];
    }
  }

  /** The groups in key order, as the list a deterministic aggregation would visit them in. */
  function KeyOrder(chunks: map<int, seq<int>>, count: nat): seq<seq<int>>
    requires forall k :: 0 <= k < count ==> k in chunks
  {
    if count == 0 then [] else KeyOrder(chunks, count - 1) + [chunks[count - 1]]
  }

  function Flatten(groups: seq<seq<int>>): seq<int>
  {
    if groups == [] then [] else Flatten(groups[..|groups| - 1]) + groups[|groups| - 1]
  }

  /** Flattening the groups in key order appends the groups one at a time. */
  lemma {:induction false} FlattenKeyOrderStep(chunks: map<int, seq<int>>, count: nat)
    requires count >= 1 && forall k :: 0 <= k < count ==> k in chunks
    ensures Flatten(KeyOrder(chunks, count)) == Flatten(KeyOrder(chunks, count - 1)) + chunks[count - 1]
  {
    var order := KeyOrder(chunks, count);
    assert order[..|order| - 1] == KeyOrder(chunks, count - 1);
  }

  /** Group k of `chunks` is the slice of `numbers` that starts at Start(k). */
  predicate LaidOut(numbers: seq<int>, chunks: map<int, seq<int>>, chunkSize: nat, k: nat)
  {
    k in chunks && Start(k, chunkSize) < |numbers| &&
    chunks[k] == numbers[Start(k, chunkSize) .. Min(Start(k, chunkSize) + chunkSize, |numbers|)]
  }

  /**
   * Groups laid out at Start(0), Start(1), ... of `numbers`, flattened in key
   * order, give the prefix of `numbers` up to where the next group would start.
   */
  lemma {:induction false} GroupsPrefix(numbers: seq<int>, chunks: map<int, seq<int>>, chunkSize: nat, count: nat)
    requires forall k :: 0 <= k < count ==> k in chunks && LaidOut(numbers, chunks, chunkSize, k)
    ensures Flatten(KeyOrder(chunks, count)) == numbers[..Min(Start(count, chunkSize), |numbers|)]
  {
    if count > 0 {
      var k := count - 1;
      var start, stop := Start(k, chunkSize), Min(Start(k, chunkSize) + chunkSize, |numbers|);
      assert LaidOut(numbers, chunks, chunkSize, k);
      assert Start(count, chunkSize) == start + chunkSize;
      GroupsPrefix(numbers, chunks, chunkSize, k);
      assert Flatten(KeyOrder(chunks, k)) == numbers[..start];
      FlattenKeyOrderStep(chunks, count);
      SlicesJoin(numbers, start, stop);
    }
  }

  lemma {:induction false} SlicesJoin(s: seq<int>, a: int, b: int)
    requires 0 <= a <= b <= |s|
    ensures s[..a] + s[a..b] == s[..b]
  {
  }

  /** The first `count` groups, flattened in key order, are the list up to where group `count` would start. */
  lemma {:induction false} ChunksPrefix(numbers: seq<int>, chunkSize: int, count: nat)
    requires chunkSize >= 1 && count <= GroupCount(|numbers|, chunkSize)
    ensures forall k :: 0 <= k < count ==> k in Chunks(numbers, chunkSize)
    ensures Flatten(KeyOrder(Chunks(numbers, chunkSize), count)) ==
              numbers[..Min(Start(count, chunkSize), |numbers|)]
  {
    var chunks := Chunks(numbers, chunkSize);
    forall k | 0 <= k < count ensures k in chunks && LaidOut(numbers, chunks, chunkSize, k) {
      ChunkAt(numbers, chunkSize, k);
    }
    GroupsPrefix(numbers, chunks, chunkSize, count);
  }

  /** Group k, for k below the group count, is the slice of the list from Start(k). */
  lemma {:induction false} ChunkAt(numbers: seq<int>, chunkSize: int, k: nat)
    requires chunkSize >= 1 && k < GroupCount(|numbers|, chunkSize)
    ensures k in Chunks(numbers, chunkSize) && Start(k, chunkSize) < |numbers|
    ensures Chunks(numbers, chunkSize)[k] ==
              numbers[Start(k, chunkSize) .. Min(Start(k, chunkSize) + chunkSize, |numbers|)]
  {
    var g := GroupCount(|numbers|, chunkSize);
    if k < g - 1 {
      StartIncreasing(k, g - 1, chunkSize);
    }
    StartAtLeastKey(k, chunkSize);
  }

  /** Concatenating the groups in key order gives back the list: no element lost, none repeated. */
  lemma {:induction false} ChunksConcatenate(numbers: seq<int>, chunkSize: int)
    requires numbers != [] ==> chunkSize >= 1
    ensures forall k :: k in Chunks(numbers, chunkSize) <==> 0 <= k < GroupCount(|numbers|, chunkSize)
    ensures Flatten(KeyOrder(Chunks(numbers, chunkSize), GroupCount(|numbers|, chunkSize))) == numbers
  {
    ChunkKeys(numbers, chunkSize);
    if numbers != [] {
      var g := GroupCount(|numbers|, chunkSize);
      ChunksPrefix(numbers, chunkSize, g);
      assert Min(Start(g, chunkSize), |numbers|) == |numbers|;
      assert numbers[..|numbers|] == numbers;
    }
  }

  /** Element i of group k is the list element at position Start(k) + i, and i < chunkSize. */
  lemma {:induction false} ChunkElement(numbers: seq<int>, chunkSize: int, k: int, i: int)
    requires chunkSize >= 1 && k in Chunks(numbers, chunkSize) && 0 <= i < |Chunks(numbers, chunkSize)[k]|
    ensures k >= 0 && i < chunkSize && Start(k, chunkSize) + i < |numbers|
    ensures Chunks(numbers, chunkSize)[k][i] == numbers[Start(k, chunkSize) + i]
  {
    var start := Start(k, chunkSize);
    assert Chunks(numbers, chunkSize)[k] == numbers[start .. Min(start + chunkSize, |numbers|)];
  }

  /** Over an ascending list, every element of a group is below every element of a later group. */
  lemma {:induction false} ChunksOrdered(numbers: seq<int>, chunkSize: int)
    requires chunkSize >= 1 && StrictlyAscending(numbers)
    ensures forall k1, k2, x, y ::
              (k1 in Chunks(numbers, chunkSize) && k2 in Chunks(numbers, chunkSize) && k1 < k2 &&
               x in Chunks(numbers, chunkSize)[k1] && y in Chunks(numbers, chunkSize)[k2]) ==> x < y
  {
    var chunks := Chunks(numbers, chunkSize);
    forall k1, k2, x, y | k1 in chunks && k2 in chunks && k1 < k2 && x in chunks[k1] && y in chunks[k2]
      ensures x < y
    {
      ChunksOrderedPair(numbers, chunkSize, k1, k2, x, y);
    }
  }

  lemma {:induction false} ChunksOrderedPair(numbers: seq<int>, chunkSize: int, k1: int, k2: int, x: int, y: int)
    requires chunkSize >= 1 && StrictlyAscending(numbers)
    requires k1 in Chunks(numbers, chunkSize) && k2 in Chunks(numbers, chunkSize) && k1 < k2
    requires x in Chunks(numbers, chunkSize)[k1] && y in Chunks(numbers, chunkSize)[k2]
    ensures x < y
  {
    var chunks := Chunks(numbers, chunkSize);
    var i :| 0 <= i < |chunks[k1]| && chunks[k1][i] == x;
    var j :| 0 <= j < |chunks[k2]| && chunks[k2][j] == y;
    ChunkElement(numbers, chunkSize, k1, i);
    ChunkElement(numbers, chunkSize, k2, j);
    StartIncreasing(k1, k2, chunkSize);
  }

  /** Over a range, each group is itself a range: contiguous and ascending. */
  lemma {:induction false} RangeChunk(lo: int, hi: int, chunkSize: int, k: int)
    requires chunkSize >= 1 && k in Chunks(Range(lo, hi), chunkSize)
    ensures Chunks(Range(lo, hi), chunkSize)[k] ==
              Range(lo + k * chunkSize, lo + Min(k * chunkSize + chunkSize, |Range(lo, hi)|))
  {
    var numbers := Range(lo, hi);
    StartIsProduct(k, chunkSize);
    var start := Start(k, chunkSize);
    var stop := Min(start + chunkSize, |numbers|);
    assert Chunks(numbers, chunkSize)[k] == numbers[start .. stop];
    RangeSlice(lo, hi, start, stop);
  }

  /** If count chunks of the given size can hold n elements, there are at most count groups. */
  lemma {:induction false} GroupCountAtMost(n: nat, chunkSize: int, count: nat)
    requires chunkSize >= 1 && count * chunkSize >= n
    ensures GroupCount(n, chunkSize) <= count
  {
    if n > 0 {
      var g := GroupCount(n, chunkSize);
      StartIsProduct(count, chunkSize);
      StartBelow(g - 1, count, chunkSize);
    }
  }

  /** The number of groups of n elements is the ceiling of n / chunkSize. */
  lemma {:induction false} GroupCountIsCeiling(n: nat, chunkSize: int)
    requires chunkSize >= 1
    ensures GroupCount(n, chunkSize) == CeilDiv(n, chunkSize)
  {
    var g, q := GroupCount(n, chunkSize), CeilDiv(n, chunkSize);
    if n == 0 {
      if q < 0 {
        MulLeft(q, 0, chunkSize);
      }
    } else {
      StartIsProduct(q, chunkSize);
      StartIsProduct(q - 1, chunkSize);
      assert (q - 1) * chunkSize == q * chunkSize - chunkSize;
      StartBelow(q - 1, g, chunkSize);
      StartBelow(g - 1, q, chunkSize);
    }
  }

  /**
   * As written, the candidates fall into ceil((max - 2) / chunkSize) groups: at
   * most `processors` of them, and none at all when max <= 2.
   */
  lemma {:induction false} CandidateGroupCount(max: int, processors: int)
    requires processors >= 1
    ensures max > 2 ==> GroupCount(|Candidates(max)|, ChunkSize(max, processors))
                        == CeilDiv(max - 2, ChunkSize(max, processors))
    ensures GroupCount(|Candidates(max)|, ChunkSize(max, processors)) <= processors
    ensures GroupCount(|Candidates(max)|, ChunkSize(max, processors)) == 0 <==> max <= 2
  {
    if max > 2 {
      var c := ChunkSize(max, processors);
      assert processors * c >= max;
      GroupCountAtMost(max - 2, c, processors);
      GroupCountIsCeiling(max - 2, c);
    }
  }

  // ---------------------------------------------------------------------------
  // Submission (lines 73-75)
  // ---------------------------------------------------------------------------

  /**
   * The submission loop as written: for i = 0 .. processors - 1 it reads
   * `chunks.toArray()[i]`, which throws once i reaches the number of groups.
   * Position i of the array is modelled as the group with key i.
   */
  method Submit(chunks: map<int, seq<int>>, groupCount: nat, processors: int)
    returns (r: Result<seq<seq<int>>>)
    requires forall k :: k in chunks <==> 0 <= k < groupCount
    requires processors >= 1
    ensures r.Success? <==> processors <= groupCount
    ensures r.Success? ==> r.value == KeyOrder(chunks, processors)
    ensures r.Failure? ==> r.error == IndexOutOfBounds(groupCount, groupCount)
  {
    var tasks := [];
    var i := 0;
    while i < processors
      invariant 0 <= i <= processors && i <= groupCount
      invariant tasks == KeyOrder(chunks, i)
    {
      if i >= groupCount {
        return Failure(IndexOutOfBounds(i, groupCount));
      }
      tasks := tasks + [chunks[i]];
      i := i + 1;
    }
    return Success(tasks);
  }

  /** The corrected submission loop: one task per group, for i = 0 .. groupCount - 1. */
  method SubmitEach(chunks: map<int, seq<int>>, groupCount: nat) returns (tasks: seq<seq<int>>)
    requires forall k :: k in chunks <==> 0 <= k < groupCount
    ensures tasks == KeyOrder(chunks, groupCount)
  {
    tasks := [];
    var i := 0;
    while i < groupCount
      invariant 0 <= i <= groupCount
      invariant tasks == KeyOrder(chunks, i)
    {
      tasks := tasks + [chunks[i]];
      i := i + 1;
    }
  }

  // ---------------------------------------------------------------------------
  // computePrimes, lines 55-75
  // ---------------------------------------------------------------------------

  /**
   * computePrimes as written, up to the hand-off of chunks to the pool: it fails
   * exactly when there are fewer groups than processors, and when it succeeds the
   * chunks handed out cover the candidate list 1 .. max - 2 in order.
   */
  method PartitionAndSubmit(max: int, processors: int) returns (r: Result<seq<seq<int>>>)
    requires processors >= 1
    ensures r.Success? <==> GroupCount(|Candidates(max)|, ChunkSize(max, processors)) == processors
    ensures max <= 2 ==> r == Failure(IndexOutOfBounds(0, 0))
    ensures r.Failure? ==>
              var groupCount := GroupCount(|Candidates(max)|, ChunkSize(max, processors));
              r.error == IndexOutOfBounds(groupCount, groupCount)
    ensures r.Success? ==> |r.value| == processors && Flatten(r.value) == Candidates(max)
  {
    var chunkSize := ChunkSize(max, processors);
    var numbers := Candidates(max);
    var chunks := GroupByPosition(numbers, chunkSize);
    var groupCount := GroupCount(|numbers|, chunkSize);
    CandidateGroupCount(max, processors);
    ChunksConcatenate(numbers, chunkSize);
    r := Submit(chunks, groupCount, processors);
    if r.Success? {
      KeyOrderLength(chunks, processors);
    }
  }

  /** A failing case: max = 10 on 4 processors gives 3 groups, so reading group 3 is out of bounds. */
  lemma {:induction false} TenOnFourProcessors()
    ensures ChunkSize(10, 4) == 3 && |Candidates(10)| == 8
    ensures GroupCount(|Candidates(10)|, ChunkSize(10, 4)) == 3
  {
  }

  /**
   * computePrimes with both corrections: candidates 1 .. max - 1 and one task per
   * group. It never fails, uses at most `processors` tasks, and the tasks cover
   * the candidates in order, so their primes are exactly getPrimes' list.
   */
  method PartitionAndSubmitEach(max: int, processors: int) returns (tasks: seq<seq<int>>)
    requires processors >= 1
    ensures |tasks| <= processors
    ensures tasks == [] <==> max <= 1
    ensures forall t :: t in tasks ==> 1 <= |t| <= ChunkSize(max, processors)
    ensures Flatten(tasks) == Range(1, max)
    ensures PrimesIn(Flatten(tasks)) == PrimesBelow(max)
  {
    var chunkSize := ChunkSize(max, processors);
    var numbers := Range(1, max);
    var chunks := GroupByPosition(numbers, chunkSize);
    var groupCount := GroupCount(|numbers|, chunkSize);
    ChunksConcatenate(numbers, chunkSize);
    tasks := SubmitEach(chunks, groupCount);
    IntendedCandidatesYieldPrimes(max);
    KeyOrderLength(chunks, groupCount);
    if max > 1 {
      assert processors * chunkSize >= |numbers|;
      GroupCountAtMost(|numbers|, chunkSize, processors);
      ChunkSizesBounded(numbers, chunkSize);
      KeyOrderSizes(chunks, groupCount, chunkSize);
    }
  }

  lemma {:induction false} KeyOrderLength(chunks: map<int, seq<int>>, count: nat)
    requires forall k :: 0 <= k < count ==> k in chunks
    ensures |KeyOrder(chunks, count)| == count
  {
    if count > 0 {
      KeyOrderLength(chunks, count - 1);
    }
  }
}

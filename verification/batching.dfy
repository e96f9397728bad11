/** batch_split: cutting a dataset into consecutive batches of an index list. */
module Batching {
  import opened Wrappers
  import opened Utterances

  /** Why batch_split raises: `len(dataset) / batch_size` with a zero batch size. */
  datatype SplitError = ZeroBatchSize

  /** `math.ceil(n / d)` for a non-zero divisor `d`. */
  function CeilDiv(n: nat, d: int): (q: int)
    requires d != 0
    ensures d > 0 ==> (q - 1) * d < n <= q * d
    ensures d < 0 ==> q * d <= n < (q - 1) * d
    ensures d < 0 ==> q <= 0
  {
    if d > 0 then
      var q := (n + d - 1) / d;
      assert n + d - 1 == q * d + (n + d - 1) % d;
      q
    else
      var q := n / -d;
      assert n == q * -d + n % -d;
      -q
  }

  lemma MulMonotone(a: int, b: int, d: int)
    requires a <= b && d > 0
    ensures a * d <= b * d
  {
    assert b * d - a * d == (b - a) * d;
  }

  /** A positive divisor admits one ceiling only. */
  lemma CeilDivUnique(n: nat, d: int, q: int)
    requires d > 0 && (q - 1) * d < n <= q * d
    ensures q == CeilDiv(n, d)
  {
    var c := CeilDiv(n, d);
    if q < c {
      MulMonotone(q, c - 1, d);
    } else if c < q {
      MulMonotone(c, q - 1, d);
    }
  }

  function Min(a: int, b: int): int
  {
    if a <= b then a else b
  }

  /** `list(range(n))`. */
  function Range(n: nat): (r: seq<nat>)
    ensures |r| == n && forall i :: 0 <= i < n ==> r[i] == i
  {
    seq(n, i requires 0 <= i < n => i as nat)
  }

  /** `p` is a rearrangement of `range(n)`: what `random.shuffle` leaves in `idx_list`. */
  ghost predicate IsPermutation(p: seq<nat>, n: nat)
  {
    && (forall k :: 0 <= k < |p| ==> p[k] < n)
    && multiset(p) == multiset(Range(n))
  }

  /** `[dataset[idx] for idx in batch_idx]`: one dataset element per index, in index order. */
  function Gather<T>(dataset: seq<T>, idx: seq<nat>): (picked: seq<T>)
    requires forall k :: 0 <= k < |idx| ==> idx[k] < |dataset|
    ensures |picked| == |idx|
    ensures forall k :: 0 <= k < |idx| ==> picked[k] == dataset[idx[k]]
    ensures forall x :: x in picked ==> x in dataset
  {
    seq(|idx|, k requires 0 <= k < |idx| => dataset[idx[k]])
  }

  /** The order batch_split visits the dataset in: `range(n)`, or the shuffled list. */
  function Order(shuffle: bool, shuffled: seq<nat>, n: nat): seq<nat>
  {
    if shuffle then shuffled else Range(n)
  }

  /** The consecutive slices of length `size` that cover `s`; only the last may be shorter. */
  function Chunks<T>(s: seq<T>, size: nat): seq<seq<T>>
    requires size > 0
    decreases |s|
  {
    if |s| == 0 then []
    else if |s| <= size then [s]
    else [s[..size]] + Chunks(s[size..], size)
  }

  /** What the batch_split generator yields, collected into a list, or the error it raises:
      the division by a zero batch size fails, a negative size yields nothing, and otherwise
      the batches merged back together are the dataset visited in index order. */
  ghost function Split<T>(dataset: seq<T>, batchSize: int, shuffle: bool, shuffled: seq<nat>)
    : (r: Result<seq<seq<T>>, SplitError>)
    requires shuffle ==> IsPermutation(shuffled, |dataset|)
    ensures r.Failure? <==> batchSize == 0
    ensures batchSize < 0 ==> r == Success([])
    ensures batchSize > 0 ==> MergeUtt(r.value) == Gather(dataset, Order(shuffle, shuffled, |dataset|))
  {
    if batchSize == 0 then Failure(ZeroBatchSize)
    else if batchSize < 0 then Success([])
    else
      var whole := Gather(dataset, Order(shuffle, shuffled, |dataset|));
      ChunksMerge(whole, batchSize);
      Success(Chunks(whole, batchSize))
  }

  /** Merging the chunks back gives the sequence that was cut. */
  lemma {:induction false} ChunksMerge<T>(s: seq<T>, size: nat)
    requires size > 0
    ensures MergeUtt(Chunks(s, size)) == s
    decreases |s|
  {
    if |s| > size {
      var rest := Chunks(s[size..], size);
      ChunksMerge(s[size..], size);
      assert ([s[..size]] + rest)[1..] == rest;
      assert s[..size] + s[size..] == s;
    }
  }

  /** There are `ceil(|s| / size)` chunks. */
  lemma {:induction false} ChunksCount<T>(s: seq<T>, size: nat)
    requires size > 0
    ensures |Chunks(s, size)| == CeilDiv(|s|, size)
    decreases |s|
  {
    var n := |s|;
    if n == 0 {
      CeilDivUnique(0, size, 0);
    } else if n <= size {
      CeilDivUnique(n, size, 1);
    } else {
      ChunksCount(s[size..], size);
      var c := |Chunks(s[size..], size)|;
      assert (c - 1) * size < n - size <= c * size;
      assert (c + 1 - 1) * size == c * size;
      assert (c + 1) * size == c * size + size;
      assert (c - 1) * size == c * size - size;
      CeilDivUnique(n, size, c + 1);
    }
  }

  /** Every chunk but the last holds exactly `size` elements; the last holds 1 to `size`. */
  lemma {:induction false} ChunksSizes<T>(s: seq<T>, size: nat)
    requires size > 0
    ensures forall b :: 0 <= b < |Chunks(s, size)| - 1 ==> |Chunks(s, size)[b]| == size
    ensures |Chunks(s, size)| > 0 ==> 0 < |Chunks(s, size)[|Chunks(s, size)| - 1]| <= size
    decreases |s|
  {
    if |s| > size {
      var rest := Chunks(s[size..], size);
      ChunksSizes(s[size..], size);
      assert |rest| > 0;
      var all := [s[..size]] + rest;
      assert forall b :: 1 <= b < |all| ==> all[b] == rest[b - 1];
    }
  }

  /** Without shuffle the dataset is visited in its own order. */
  lemma GatherRange<T>(dataset: seq<T>)
    ensures Gather(dataset, Range(|dataset|)) == dataset
  {
  }

  lemma RangeSnoc(n: nat)
    ensures Range(n + 1) == Range(n) + [n]
  {
  }

  /** Each index below `n` occurs exactly once in `range(n)`. */
  lemma {:induction false} RangeOnce(n: nat, i: nat)
    ensures multiset(Range(n))[i] == if i < n then 1 else 0
  {
    if n > 0 {
      var last: nat := n - 1;
      RangeSnoc(last);
      RangeOnce(last, i);
      assert multiset(Range(n)) == multiset(Range(last)) + multiset{last};
    }
  }

  /** A shuffled order visits every dataset index exactly once. */
  lemma PermutationVisitsOnce(p: seq<nat>, n: nat, i: nat)
    requires IsPermutation(p, n) && i < n
    ensures multiset(p)[i] == 1
  {
    RangeOnce(n, i);
  }

  lemma PermutationLength(p: seq<nat>, n: nat)
    requires IsPermutation(p, n)
    ensures |p| == n
  {
    assert |p| == |multiset(p)| == |multiset(Range(n))| == n;
  }

  /** A permutation of `range(n)` holds `n - 1` somewhere. */
  lemma LargestAt(p: seq<nat>, n: nat) returns (k: nat)
    requires n > 0 && IsPermutation(p, n)
    ensures k < |p| && p[k] == n - 1
  {
    var last: nat := n - 1;
    RangeSnoc(last);
    assert Range(n)[last] == last;
    assert last in multiset(p);
    k :| 0 <= k < |p| && p[k] == last;
  }

  lemma SplitAt<T>(s: seq<T>, k: nat)
    requires k < |s|
    ensures s == s[..k] + [s[k]] + s[k + 1..]
  {
  }

  lemma MultisetSnoc<T>(s: seq<T>)
    requires |s| > 0
    ensures multiset(s) == multiset(s[..|s| - 1]) + multiset{s[|s| - 1]}
  {
    assert s == s[..|s| - 1] + [s[|s| - 1]];
  }

  /** Taking the largest index out of a permutation of `range(n)` leaves one of `range(n - 1)`. */
  lemma RemoveLargest(p: seq<nat>, n: nat, k: nat)
    requires n > 0 && IsPermutation(p, n)
    requires k < |p| && p[k] == n - 1
    ensures IsPermutation(p[..k] + p[k + 1..], n - 1)
  {
    var last: nat := n - 1;
    var q := p[..k] + p[k + 1..];
    RangeSnoc(last);
    assert p == p[..k] + [last] + p[k + 1..];
    assert multiset(q) == multiset(p) - multiset{last};
    assert multiset(q) == multiset(Range(last));
    RangeOnce(last, last);
    forall j | 0 <= j < |q|
      ensures q[j] < last
    {
      assert q[j] in multiset(q);
    }
  }

  /** Gathering by indices that all stay below `m` only looks at `dataset[..m]`. */
  lemma GatherPrefix<T>(dataset: seq<T>, idx: seq<nat>, m: nat)
    requires m <= |dataset|
    requires forall k :: 0 <= k < |idx| ==> idx[k] < m
    ensures Gather(dataset, idx) == Gather(dataset[..m], idx)
  {
  }

  lemma GatherAppend<T>(dataset: seq<T>, a: seq<nat>, b: seq<nat>)
    requires forall k :: 0 <= k < |a| ==> a[k] < |dataset|
    requires forall k :: 0 <= k < |b| ==> b[k] < |dataset|
    ensures Gather(dataset, a + b) == Gather(dataset, a) + Gather(dataset, b)
  {
  }

  /** Gathering around the last index of `dataset` adds that element once to gathering
      the rest from the dataset without it. */
  lemma GatherAroundLast<T>(dataset: seq<T>, a: seq<nat>, b: seq<nat>)
    requires |dataset| > 0
    requires forall j :: 0 <= j < |a + b| ==> (a + b)[j] < |dataset| - 1
    ensures var c := a + [|dataset| - 1] + b; forall j :: 0 <= j < |c| ==> c[j] < |dataset|
    ensures multiset(Gather(dataset, a + [|dataset| - 1] + b))
         == multiset(Gather(dataset[..|dataset| - 1], a + b)) + multiset{dataset[|dataset| - 1]}
  {
    var last: nat := |dataset| - 1;
    var front := dataset[..last];
    assert forall j :: 0 <= j < |a| ==> a[j] == (a + b)[j];
    assert forall j :: 0 <= j < |b| ==> b[j] == (a + b)[|a| + j];
    GatherAppend(dataset, a + [last], b);
    GatherAppend(dataset, a, [last]);
    GatherAppend(front, a, b);
    GatherPrefix(dataset, a, last);
    GatherPrefix(dataset, b, last);
    var ga, gb := Gather(front, a), Gather(front, b);
    assert Gather(dataset, [last]) == [dataset[last]];
    calc {
      multiset(Gather(dataset, a + [last] + b));
      multiset(ga + [dataset[last]] + gb);
      multiset(ga) + multiset{dataset[last]} + multiset(gb);
      multiset(ga + gb) + multiset{dataset[last]};
    }
  }

  /** Gathering a dataset in a shuffled order keeps its elements and their multiplicities. */
  lemma {:induction false} GatherPermutation<T>(dataset: seq<T>, p: seq<nat>)
    requires IsPermutation(p, |dataset|)
    ensures multiset(Gather(dataset, p)) == multiset(dataset)
    decreases |dataset|
  {
    PermutationLength(p, |dataset|);
    if |dataset| > 0 {
      var last: nat := |dataset| - 1;
      var k := LargestAt(p, |dataset|);
      var a, b := p[..k], p[k + 1..];
      RemoveLargest(p, |dataset|, k);
      GatherPermutation(dataset[..last], a + b);
      GatherAroundLast(dataset, a, b);
      SplitAt(p, k);
      MultisetSnoc(dataset);
    }
  }

  /** `s[b * size:(b + 1) * size]`, with Python's clamping of the end to `|s|`. */
  function Slice<T>(s: seq<T>, b: nat, size: nat): seq<T>
    requires b * size <= |s|
  {
    s[b * size..Min((b + 1) * size, |s|)]
  }

  /** Batch number `i` of `ceil(n / size)` starts inside the sequence. */
  lemma SliceInside(n: nat, size: int, batchNum: int, i: nat)
    requires size > 0 && batchNum == CeilDiv(n, size) && i < batchNum
    ensures i * size < n
    ensures i * size <= Min((i + 1) * size, n) <= n
  {
    MulMonotone(i, batchNum - 1, size);
    assert (i + 1) * size == i * size + size;
  }

  /** Slice `b` of `s` is slice `b - 1` of `s` with its first `size` elements dropped. */
  lemma SliceShift<T>(s: seq<T>, size: nat, b: nat)
    requires 0 < size < |s| && b > 0 && (b - 1) * size <= |s| - size
    ensures b * size <= |s|
    ensures Slice(s[size..], b - 1, size) == Slice(s, b, size)
  {
    assert (b - 1) * size + size == b * size;
    assert b * size + size == (b + 1) * size;
  }

  /** Chunk `b` is the slice `s[b * size:(b + 1) * size]`. */
  lemma {:induction false} ChunksAt<T>(s: seq<T>, size: nat, b: nat)
    requires size > 0 && b < |Chunks(s, size)|
    ensures b * size <= |s|
    ensures Chunks(s, size)[b] == Slice(s, b, size)
    decreases |s|
  {
    if b > 0 {
      var rest := s[size..];
      assert |s| > size;
      assert Chunks(s, size)[b] == Chunks(rest, size)[b - 1];
      ChunksAt(rest, size, b - 1);
      SliceShift(s, size, b);
    }
  }

  /** Batches that are the successive slices, `ceil(|s| / size)` of them, are the chunks of `s`. */
  lemma ChunksFromSlices<T>(s: seq<T>, size: nat, batches: seq<seq<T>>)
    requires size > 0 && |batches| == CeilDiv(|s|, size)
    requires forall b :: 0 <= b < |batches| ==> b * size <= |s| && batches[b] == Slice(s, b, size)
    ensures batches == Chunks(s, size)
  {
    ChunksCount(s, size);
    forall b | 0 <= b < |batches|
      ensures batches[b] == Chunks(s, size)[b]
    {
      ChunksAt(s, size, b);
    }
  }

  lemma GatherSlice<T>(dataset: seq<T>, idx: seq<nat>, lo: nat, hi: nat)
    requires lo <= hi <= |idx|
    requires forall k :: 0 <= k < |idx| ==> idx[k] < |dataset|
    ensures Gather(dataset, idx[lo..hi]) == Gather(dataset, idx)[lo..hi]
  {
  }

  /** batch_split(dataset, batch_size, shuffle=False) with `shuffled` standing for the list
      `random.shuffle` produced; the batches are returned as one list. */
  method BatchSplit<T>(dataset: seq<T>, batchSize: int, shuffle: bool, shuffled: seq<nat>)
    returns (r: Result<seq<seq<T>>, SplitError>)
    requires shuffle ==> IsPermutation(shuffled, |dataset|)
    ensures r == Split(dataset, batchSize, shuffle, shuffled)
  {
    if batchSize == 0 {
      return Failure(ZeroBatchSize);
    }
    var n := |dataset|;
    var batchNum := CeilDiv(n, batchSize);
    var idxList := Range(n);
    if shuffle {
      // random.shuffle(idx_list): the list becomes the caller's permutation
      idxList := shuffled;
      PermutationLength(shuffled, n);
    }
    assert idxList == Order(shuffle, shuffled, n);
    ghost var whole := Gather(dataset, idxList);
    var batches: seq<seq<T>> := [];
    var startIdx := 0;
    while startIdx < batchNum
      invariant |idxList| == n && |whole| == n
      invariant batchSize < 0 ==> startIdx == 0 && batches == []
      invariant batchSize > 0 ==> 0 <= startIdx <= batchNum
      invariant |batches| == startIdx
      invariant forall b :: 0 <= b < startIdx ==> b * batchSize <= n && batches[b] == Slice(whole, b, batchSize)
    {
      assert batchSize > 0;
      SliceInside(n, batchSize, batchNum, startIdx);
      var batchIdx := idxList[startIdx * batchSize..Min((startIdx + 1) * batchSize, n)];
      var batch := Gather(dataset, batchIdx);
      GatherSlice(dataset, idxList, startIdx * batchSize, Min((startIdx + 1) * batchSize, n));
      batches := batches + [batch];
      startIdx := startIdx + 1;
    }
    if batchSize > 0 {
      ChunksFromSlices(whole, batchSize, batches);
    } else {
      assert batches == [];
    }
    return Success(batches);
  }

  /** batch_split yields `ceil(len(dataset) / batch_size)` batches; all but the last hold
      `batch_size` elements and the last holds between 1 and `batch_size`. */
  lemma SplitShape<T>(dataset: seq<T>, batchSize: int, shuffle: bool, shuffled: seq<nat>)
    requires shuffle ==> IsPermutation(shuffled, |dataset|)
    requires batchSize > 0
    ensures Split(dataset, batchSize, shuffle, shuffled).Success?
    ensures var batches := Split(dataset, batchSize, shuffle, shuffled).value;
      && |batches| == CeilDiv(|dataset|, batchSize)
      && (forall b :: 0 <= b < |batches| - 1 ==> |batches[b]| == batchSize)
      && (|batches| > 0 ==> 0 < |batches[|batches| - 1]| <= batchSize)
  {
    var order := Order(shuffle, shuffled, |dataset|);
    if shuffle {
      PermutationLength(shuffled, |dataset|);
    }
    var whole := Gather(dataset, order);
    ChunksCount(whole, batchSize);
    ChunksSizes(whole, batchSize);
  }

  /** Without shuffle, the batches merged back together are the dataset in its own order. */
  lemma SplitUnshuffled<T>(dataset: seq<T>, batchSize: int, shuffled: seq<nat>)
    requires batchSize > 0
    ensures Split(dataset, batchSize, false, shuffled).Success?
    ensures MergeUtt(Split(dataset, batchSize, false, shuffled).value) == dataset
  {
    GatherRange(dataset);
    ChunksMerge(dataset, batchSize);
  }

  /** With shuffle, the batches merged back together visit the dataset in the shuffled
      order, so every element occurs as often as it does in the dataset. */
  lemma SplitShuffled<T>(dataset: seq<T>, batchSize: int, shuffled: seq<nat>)
    requires IsPermutation(shuffled, |dataset|)
    requires batchSize > 0
    ensures Split(dataset, batchSize, true, shuffled).Success?
    ensures MergeUtt(Split(dataset, batchSize, true, shuffled).value) == Gather(dataset, shuffled)
    ensures multiset(MergeUtt(Split(dataset, batchSize, true, shuffled).value)) == multiset(dataset)
  {
    ChunksMerge(Gather(dataset, shuffled), batchSize);
    GatherPermutation(dataset, shuffled);
  }
}

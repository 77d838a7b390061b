/**
 * The distributed sample sort and the duplicate check built on it. `v[r]` is the data
 * of rank r; `picks[r]` are the positions its random generator chooses as samples.
 */
module SampleSort {
  import opened Sequences
  import opened Partitioning
  import opened Exchange
  import opened Blocks

  ghost function Contents(v: seq<array<int>>): (r: seq<seq<int>>)
    reads v
    ensures |r| == |v|
  {
    seq(|v|, i requires 0 <= i < |v| reads v => v[i][..])
  }

  ghost predicate Distributed(v: seq<array<int>>, picks: seq<seq<nat>>) {
    |v| > 0 && |picks| == |v| &&
    (forall i, j :: 0 <= i < j < |v| ==> v[i] != v[j]) &&
    (forall r :: 0 <= r < |v| ==> |picks[r]| == |v| - 1) &&
    (forall r, i :: 0 <= r < |v| && 0 <= i < |v| - 1 && v[r].Length > 0 ==> picks[r][i] < v[r].Length)
  }

  /** The `size - 1` samples of one rank; a rank without data contributes zeros. */
  method LocalPivots(data: array<int>, picks: seq<nat>) returns (samples: seq<int>)
    requires forall i :: 0 <= i < |picks| && data.Length > 0 ==> picks[i] < data.Length
    ensures |samples| == |picks|
    ensures forall i :: 0 <= i < |picks| ==> samples[i] == if data.Length == 0 then 0 else data[picks[i]]
  {
    samples := [];
    for i := 0 to |picks|
      invariant |samples| == i
      invariant forall j :: 0 <= j < i ==> samples[j] == if data.Length == 0 then 0 else data[picks[j]]
    {
      samples := samples + [if data.Length == 0 then 0 else data[picks[i]]];
    }
  }

  /** Pivot `i - 1` is the first of the `i`-th group of `size - 1` sorted samples. */
  ghost predicate IsPick(pivots: seq<int>, sorted: seq<int>, i: nat, size: nat)
    requires 1 <= i < size
  {
    i <= |pivots| && 0 <= i * (size - 1) < |sorted| && pivots[i - 1] == sorted[i * (size - 1)]
  }

  lemma PivotIndex(i: nat, size: nat)
    requires 1 <= i < size
    ensures 0 <= (i - 1) * (size - 1) < i * (size - 1) < size * (size - 1)
  {
    assert i * (size - 1) == (i - 1) * (size - 1) + (size - 1);
    assert size * (size - 1) == i * (size - 1) + (size - i) * (size - 1);
  }

  lemma PicksSorted(pivots: seq<int>, sorted: seq<int>, i: nat, size: nat)
    requires 1 <= i < size && |pivots| == i - 1 && Sorted(pivots) && Sorted(sorted)
    requires forall k :: 1 <= k < i ==> IsPick(pivots, sorted, k, size)
    requires |sorted| == size * (size - 1)
    ensures 0 <= i * (size - 1) < |sorted| && Sorted(pivots + [sorted[i * (size - 1)]])
  {
    PivotIndex(i, size);
    if i > 1 {
      assert IsPick(pivots, sorted, i - 1, size);
    }
  }

  lemma QsortLength(s: seq<int>)
    ensures |Qsort(s)| == |s|
  {
    QsortSorts(s);
    assert |Qsort(s)| == |multiset(Qsort(s))|;
  }

  lemma GatheredLength(rows: seq<seq<int>>, width: nat)
    requires forall r :: 0 <= r < |rows| ==> |rows[r]| == width
    ensures |Allgather(rows)| == |rows| * width
  {
    FlattenLength(rows);
    SumOfEqual(Lengths(rows), width);
  }

  /** Every rank picks the same, sorted pivots from the sorted gathered samples. */
  method ChoosePivots(samples: seq<seq<int>>) returns (pivots: seq<int>)
    requires |samples| > 0
    requires forall r :: 0 <= r < |samples| ==> |samples[r]| == |samples| - 1
    ensures |pivots| == |samples| - 1 && Sorted(pivots)
    ensures forall i :: 1 <= i < |samples| ==> IsPick(pivots, Qsort(Allgather(samples)), i, |samples|)
  {
    var size := |samples|;
    var gathered := Qsort(Allgather(samples));
    QsortLength(Allgather(samples));
    QsortSorts(Allgather(samples));
    GatheredLength(samples, size - 1);
    pivots := [];
    var i := 1;
    while i < size
      invariant 1 <= i <= size
      invariant |pivots| == i - 1 && Sorted(pivots)
      invariant forall k :: 1 <= k < i ==> IsPick(pivots, gathered, k, size)
    {
      PivotIndex(i, size);
      var pivot := gathered[i * (size - 1)];
      PicksSorted(pivots, gathered, i, size);
      assert forall k :: 1 <= k < i ==>
        IsPick(pivots, gathered, k, size) ==> IsPick(pivots + [pivot], gathered, k, size);
      pivots := pivots + [pivot];
      i := i + 1;
    }
  }

  /** Every rank partitions its data in place by the common pivots. */
  method PartitionAll(v: seq<array<int>>, pivots: seq<int>) returns (cuts: seq<seq<nat>>)
    requires forall i, j :: 0 <= i < j < |v| ==> v[i] != v[j]
    requires Sorted(pivots)
    modifies v
    ensures |cuts| == |v|
    ensures forall r :: 0 <= r < |v| ==> Binned(v[r][..], pivots, cuts[r])
    ensures forall r :: 0 <= r < |v| ==> multiset(v[r][..]) == multiset(old(v[r][..]))
  {
    cuts := [];
    var r := 0;
    while r < |v|
      invariant 0 <= r <= |v| && |cuts| == r
      invariant forall j :: 0 <= j < r ==> Binned(v[j][..], pivots, cuts[j])
      invariant forall j :: 0 <= j < r ==> multiset(v[j][..]) == multiset(old(v[j][..]))
      invariant forall j :: r <= j < |v| ==> v[j][..] == old(v[j][..])
    {
      var pos := PartitionByPivots(v[r], pivots);
      cuts := cuts + [pos];
      r := r + 1;
    }
  }

  /** The size of every block of one rank, in bin order. */
  function LocalBlockSizes(pos: seq<nat>, n: nat): (r: seq<nat>)
    requires Cuts(pos, n)
    ensures |r| == |pos| - 1
  {
    seq(|pos| - 1, i requires 0 <= i < |pos| - 1 => pos[i + 1] - pos[i])
  }

  /** The block sizes of a rank add up to every cut position, so its send displacements are the cuts. */
  lemma {:induction false} BlockSizesSum(pos: seq<nat>, n: nat, i: nat)
    requires Cuts(pos, n) && i < |pos|
    ensures Sum(LocalBlockSizes(pos, n)[..i]) == pos[i]
  {
    if i == 0 {
    } else {
      BlockSizesSum(pos, n, i - 1);
      SumSnoc(LocalBlockSizes(pos, n), i - 1);
    }
  }

  /** All ranks are partitioned by the same pivots into one block per rank. */
  ghost predicate AllBinned(data: seq<seq<int>>, pivots: seq<int>, cuts: seq<seq<nat>>) {
    |cuts| == |data| && |pivots| + 1 == |data| && Sorted(pivots) &&
    forall r :: 0 <= r < |data| ==> Binned(data[r], pivots, cuts[r])
  }

  /** The blocks of all ranks: member `[from][to]` is the part of rank `from` that lies in bin `to`. */
  ghost function BlockMatrix(data: seq<seq<int>>, pivots: seq<int>, cuts: seq<seq<nat>>): (m: seq<seq<seq<int>>>)
    requires AllBinned(data, pivots, cuts)
    ensures Square(m, |data|) && |m| == |data|
    ensures forall from, to {:trigger m[from][to]} :: 0 <= from < |data| && 0 <= to < |data| ==>
      cuts[from][to] <= cuts[from][to + 1] <= |data[from]| &&
      m[from][to] == data[from][cuts[from][to]..cuts[from][to + 1]]
  {
    assert forall r :: 0 <= r < |data| ==> Binned(data[r], pivots, cuts[r]);
    seq(|data|, from requires 0 <= from < |data| =>
      seq(|data|, to requires 0 <= to < |data| => data[from][cuts[from][to]..cuts[from][to + 1]]))
  }

  method AllBlockSizes(data: seq<seq<int>>, ghost pivots: seq<int>, cuts: seq<seq<nat>>)
    returns (sizes: seq<seq<nat>>)
    requires AllBinned(data, pivots, cuts)
    ensures |sizes| == |data|
    ensures forall j :: 0 <= j < |data| ==>
      Binned(data[j], pivots, cuts[j]) && sizes[j] == LocalBlockSizes(cuts[j], |data[j]|) && |sizes[j]| == |data|
  {
    sizes := [];
    var r := 0;
    while r < |data|
      invariant 0 <= r <= |data| && |sizes| == r
      invariant forall j :: 0 <= j < r ==>
        Binned(data[j], pivots, cuts[j]) && sizes[j] == LocalBlockSizes(cuts[j], |data[j]|) && |sizes[j]| == |data|
    {
      assert Binned(data[r], pivots, cuts[r]);
      sizes := sizes + [LocalBlockSizes(cuts[r], |data[r]|)];
      r := r + 1;
    }
  }

  method AllLayouts(size: nat, blockSizes: seq<nat>) returns (layouts: seq<Layout>)
    requires |blockSizes| == size * size
    ensures |layouts| == size
    ensures forall j :: 0 <= j < size ==> IsLayout(layouts[j], j, size, blockSizes)
  {
    layouts := [];
    var r := 0;
    while r < size
      invariant 0 <= r <= size && |layouts| == r
      invariant forall j :: 0 <= j < r ==> IsLayout(layouts[j], j, size, blockSizes)
    {
      var l := ExchangeLayout(r, size, blockSizes);
      layouts := layouts + [l];
      r := r + 1;
    }
  }

  lemma ReceivedByReceiver(data: seq<seq<int>>, pivots: seq<int>, cuts: seq<seq<nat>>, layouts: seq<Layout>)
    requires AllBinned(data, pivots, cuts)
    requires WellMatched(data, layouts)
    requires forall j, r :: 0 <= j < |data| && 0 <= r < |data| ==>
      layouts[j].sdispls[r] == cuts[j][r] && layouts[j].sendcounts[r] == cuts[j][r + 1] - cuts[j][r]
    ensures Alltoallv(data, layouts) == ByReceiver(BlockMatrix(data, pivots, cuts), |data|)
  {
    forall r | 0 <= r < |data|
      ensures Alltoallv(data, layouts)[r] == ByReceiver(BlockMatrix(data, pivots, cuts), |data|)[r]
    {
      assert Received(data, layouts, r) == Column(BlockMatrix(data, pivots, cuts), |data|, r);
    }
  }

  lemma GatheredSizes(sizes: seq<seq<nat>>, size: nat)
    requires |sizes| == size
    requires forall r :: 0 <= r < size ==> |sizes[r]| == size
    ensures |Allgather(sizes)| == size * size
    ensures forall i, j :: 0 <= i < size && 0 <= j < size ==> BlockSize(Allgather(sizes), size, i, j) == sizes[i][j]
  {
    FlattenLength(sizes);
    SumOfEqual(Lengths(sizes), size);
    forall i, j | 0 <= i < size && 0 <= j < size
      ensures BlockSize(Allgather(sizes), size, i, j) == sizes[i][j]
    {
      AllgatherRow(sizes, size, i, j);
    }
  }

  /** Every rank has laid out its exchange from the block sizes of all ranks. */
  ghost predicate LaidOut(
    data: seq<seq<int>>, pivots: seq<int>, cuts: seq<seq<nat>>, sizes: seq<seq<nat>>, layouts: seq<Layout>)
  {
    AllBinned(data, pivots, cuts) && |sizes| == |layouts| == |data| &&
    (forall j :: 0 <= j < |data| ==> sizes[j] == LocalBlockSizes(cuts[j], |data[j]|)) &&
    (forall j :: 0 <= j < |data| ==> |sizes[j]| == |data|) &&
    |Allgather(sizes)| == |data| * |data| &&
    (forall i, j :: 0 <= i < |data| && 0 <= j < |data| ==>
      BlockSize(Allgather(sizes), |data|, i, j) == sizes[i][j]) &&
    forall j :: 0 <= j < |data| ==> IsLayout(layouts[j], j, |data|, Allgather(sizes))
  }

  lemma PairMatched(
    data: seq<seq<int>>, pivots: seq<int>, cuts: seq<seq<nat>>, sizes: seq<seq<nat>>, layouts: seq<Layout>, j: nat,
    r: nat)
    requires LaidOut(data, pivots, cuts, sizes, layouts) && j < |data| && r < |data|
    ensures |layouts[j].sdispls| == |layouts[j].sendcounts| == |layouts[r].recvcounts| == |data|
    ensures Binned(data[j], pivots, cuts[j]) && |cuts[j]| == |data| + 1
    ensures layouts[j].sdispls[r] == cuts[j][r] && layouts[j].sendcounts[r] == cuts[j][r + 1] - cuts[j][r]
    ensures layouts[j].sendcounts[r] == layouts[r].recvcounts[j]
    ensures layouts[j].sdispls[r] + layouts[j].sendcounts[r] <= |data[j]|
  {
    assert Binned(data[j], pivots, cuts[j]);
    assert IsLayout(layouts[j], j, |data|, Allgather(sizes)) && IsLayout(layouts[r], r, |data|, Allgather(sizes));
    assert layouts[j].sendcounts == sizes[j];
    BlockSizesSum(cuts[j], |data[j]|, r);
  }

  /**
   * The layouts that the ranks compute independently fit together: each send count equals the
   * matching receive count, each send displacement is a cut of the sender, and each receive
   * buffer is tiled exactly.
   */
  lemma ExchangeIsWellMatched(
    data: seq<seq<int>>, pivots: seq<int>, cuts: seq<seq<nat>>, sizes: seq<seq<nat>>, layouts: seq<Layout>)
    requires LaidOut(data, pivots, cuts, sizes, layouts)
    ensures WellMatched(data, layouts)
    ensures forall j, r :: 0 <= j < |data| && 0 <= r < |data| ==>
      layouts[j].sdispls[r] == cuts[j][r] && layouts[j].sendcounts[r] == cuts[j][r + 1] - cuts[j][r]
  {
    var n := |data|;
    forall j, r | 0 <= j < n && 0 <= r < n
      ensures layouts[j].sdispls[r] == cuts[j][r] && layouts[j].sendcounts[r] == cuts[j][r + 1] - cuts[j][r]
      ensures layouts[j].sendcounts[r] == layouts[r].recvcounts[j]
      ensures layouts[j].sdispls[r] + layouts[j].sendcounts[r] <= |data[j]|
    {
      PairMatched(data, pivots, cuts, sizes, layouts, j, r);
    }
  }

  /** Gathers the block sizes, lets every rank lay out its exchange, and exchanges the blocks. */
  method ExchangeBlocks(data: seq<seq<int>>, ghost pivots: seq<int>, cuts: seq<seq<nat>>)
    returns (received: seq<seq<int>>)
    requires AllBinned(data, pivots, cuts)
    ensures received == ByReceiver(BlockMatrix(data, pivots, cuts), |data|)
  {
    var sizes := AllBlockSizes(data, pivots, cuts);
    GatheredSizes(sizes, |data|);
    var layouts := AllLayouts(|data|, Allgather(sizes));
    ExchangeIsWellMatched(data, pivots, cuts, sizes, layouts);
    received := Alltoallv(data, layouts);
    ReceivedByReceiver(data, pivots, cuts, layouts);
  }

  lemma {:induction false} PieceByPiece(s: seq<int>, pos: seq<nat>, pieces: seq<seq<int>>, i: nat)
    requires Cuts(pos, |s|) && |pieces| + 1 == |pos| && i <= |pieces|
    requires forall k :: 0 <= k < |pieces| ==> pieces[k] == s[pos[k]..pos[k + 1]]
    ensures Flatten(pieces[..i]) == s[..pos[i]]
  {
    if i == 0 {
    } else {
      PieceByPiece(s, pos, pieces, i - 1);
      assert pieces[..i] == pieces[..i - 1] + [pieces[i - 1]];
      FlattenSnoc(pieces[..i - 1], pieces[i - 1]);
      assert pos[i - 1] <= pos[i];
    }
  }

  /** The blocks of one rank make up its whole data: nothing is dropped or sent twice. */
  lemma RowIsData(data: seq<seq<int>>, pivots: seq<int>, cuts: seq<seq<nat>>, from: nat)
    requires AllBinned(data, pivots, cuts) && from < |data|
    ensures Flatten(BlockMatrix(data, pivots, cuts)[from]) == data[from]
  {
    assert Binned(data[from], pivots, cuts[from]);
    var row := BlockMatrix(data, pivots, cuts)[from];
    PieceByPiece(data[from], cuts[from], row, |row|);
    assert row[..|row|] == row;
  }

  /** The exchange neither loses nor duplicates an element. */
  lemma ExchangeConserves(data: seq<seq<int>>, pivots: seq<int>, cuts: seq<seq<nat>>)
    requires AllBinned(data, pivots, cuts)
    ensures Bag(ByReceiver(BlockMatrix(data, pivots, cuts), |data|)) == Bag(data)
  {
    var m := BlockMatrix(data, pivots, cuts);
    RedistributionConserves(m, |data|);
    forall r | 0 <= r < |data| ensures BySender(m)[r] == data[r] {
      RowIsData(data, pivots, cuts, r);
    }
    assert BySender(m) == data;
  }

  /** Rank r holds nothing but elements of bin r. */
  ghost predicate RankHoldsBin(out: seq<seq<int>>, pivots: seq<int>) {
    |pivots| + 1 == |out| && Sorted(pivots) &&
    forall r, k :: 0 <= r < |out| && 0 <= k < |out[r]| ==> InBin(pivots, out[r][k], r)
  }

  lemma ReceivedInBin(data: seq<seq<int>>, pivots: seq<int>, cuts: seq<seq<nat>>)
    requires AllBinned(data, pivots, cuts)
    ensures RankHoldsBin(ByReceiver(BlockMatrix(data, pivots, cuts), |data|), pivots)
  {
    var m := BlockMatrix(data, pivots, cuts);
    var received := ByReceiver(m, |data|);
    forall r, p | 0 <= r < |received| && 0 <= p < |received[r]| ensures InBin(pivots, received[r][p], r) {
      var from, k := FlattenSource(Column(m, |data|, r), p);
      assert Binned(data[from], pivots, cuts[from]);
      assert m[from][r][k] == data[from][cuts[from][r] + k];
    }
  }

  lemma FlattenOrder(out: seq<seq<int>>, j: nat, l: nat, i: nat)
    requires j < i < |out| && l < |out[j]|
    ensures Sum(Lengths(out)[..j]) + l < Sum(Lengths(out)[..i])
  {
    SumSnoc(Lengths(out), j);
    SumTakeMonotone(Lengths(out), j + 1, i);
  }

  lemma LowerRankIsLower(out: seq<seq<int>>, pivots: seq<int>, i: nat, k: nat, j: nat, l: nat)
    requires RankHoldsBin(out, pivots) && i < j < |out| && k < |out[i]| && l < |out[j]|
    ensures out[i][k] <= out[j][l]
  {
    assert pivots[i] <= pivots[j - 1];
    assert InBin(pivots, out[i][k], i) && InBin(pivots, out[j][l], j);
  }

  /** Sorted ranks that hold increasing bins are sorted across ranks. */
  lemma SortedAcrossRanks(out: seq<seq<int>>, pivots: seq<int>)
    requires RankHoldsBin(out, pivots)
    requires forall r :: 0 <= r < |out| ==> Sorted(out[r])
    ensures Sorted(Flatten(out))
  {
    var all := Flatten(out);
    forall p, q | 0 <= p < q < |all| ensures all[p] <= all[q] {
      var i, k := FlattenSource(out, p);
      var j, l := FlattenSource(out, q);
      if j < i {
        FlattenOrder(out, j, l, i);
        assert false;
      } else if i < j {
        LowerRankIsLower(out, pivots, i, k, j, l);
      }
    }
  }

  /** Every rank sorts what it received. */
  method SortAll(received: seq<seq<int>>) returns (out: seq<seq<int>>)
    ensures |out| == |received|
    ensures forall r :: 0 <= r < |out| ==> Sorted(out[r]) && multiset(out[r]) == multiset(received[r])
  {
    out := [];
    var r := 0;
    while r < |received|
      invariant 0 <= r <= |received| && |out| == r
      invariant forall j :: 0 <= j < r ==> Sorted(out[j]) && multiset(out[j]) == multiset(received[j])
    {
      QsortSorts(received[r]);
      out := out + [Qsort(received[r])];
      r := r + 1;
    }
  }

  lemma SortKeepsBins(received: seq<seq<int>>, out: seq<seq<int>>, pivots: seq<int>)
    requires RankHoldsBin(received, pivots) && |out| == |received|
    requires forall r :: 0 <= r < |out| ==> multiset(out[r]) == multiset(received[r])
    ensures RankHoldsBin(out, pivots)
  {
    forall r, k | 0 <= r < |out| && 0 <= k < |out[r]| ensures InBin(pivots, out[r][k], r) {
      assert out[r][k] in multiset(out[r]);
      assert out[r][k] in received[r];
    }
  }

  /** One sample list per rank, gathered, sorted and thinned to the common pivots. */
  method CommonPivots(v: seq<array<int>>, picks: seq<seq<nat>>) returns (pivots: seq<int>)
    requires Distributed(v, picks)
    ensures |pivots| == |v| - 1 && Sorted(pivots)
  {
    var samples: seq<seq<int>> := [];
    var r := 0;
    while r < |v|
      invariant 0 <= r <= |v| && |samples| == r
      invariant forall j :: 0 <= j < r ==> |samples[j]| == |v| - 1
    {
      var s := LocalPivots(v[r], picks[r]);
      samples := samples + [s];
      r := r + 1;
    }
    pivots := ChoosePivots(samples);
  }

  method Snapshot(v: seq<array<int>>) returns (data: seq<seq<int>>)
    ensures data == Contents(v)
  {
    data := [];
    var r := 0;
    while r < |v|
      invariant 0 <= r <= |v| && |data| == r
      invariant forall j :: 0 <= j < r ==> data[j] == v[j][..]
    {
      data := data + [v[r][..]];
      r := r + 1;
    }
  }

  /** The phases after partitioning: exchange the blocks and sort what arrives. */
  method ExchangeAndSort(data: seq<seq<int>>, ghost pivots: seq<int>, cuts: seq<seq<nat>>)
    returns (out: seq<seq<int>>)
    requires AllBinned(data, pivots, cuts)
    ensures |out| == |data| && RankHoldsBin(out, pivots)
    ensures forall r :: 0 <= r < |out| ==> Sorted(out[r])
    ensures Sorted(Flatten(out))
    ensures multiset(Flatten(out)) == multiset(Flatten(data))
  {
    var received := ExchangeBlocks(data, pivots, cuts);
    ExchangeConserves(data, pivots, cuts);
    ReceivedInBin(data, pivots, cuts);
    out := SortAll(received);
    SortKeepsBins(received, out, pivots);
    SortedAcrossRanks(out, pivots);
    BagEqual(out, received);
    FlattenBag(out);
    FlattenBag(data);
  }

  /**
   * Sorts data distributed over the ranks of a communicator. Whatever samples are picked, the
   * outputs read in rank order are what one sequential sort of all the data yields, and equal
   * values end up on one rank.
   */
  method ParallelSort(v: seq<array<int>>, picks: seq<seq<nat>>) returns (out: seq<seq<int>>, ghost pivots: seq<int>)
    requires Distributed(v, picks)
    modifies v
    ensures |out| == |v|
    ensures Sorted(Flatten(out))
    ensures multiset(Flatten(out)) == multiset(Flatten(old(Contents(v))))
    ensures Flatten(out) == Qsort(Flatten(old(Contents(v))))
    ensures RankHoldsBin(out, pivots)
    ensures forall r :: 0 <= r < |out| ==> Sorted(out[r])
  {
    ghost var original := Contents(v);
    var common := CommonPivots(v, picks);
    pivots := common;
    var cuts := PartitionAll(v, common);
    var data := Snapshot(v);
    out := ExchangeAndSort(data, pivots, cuts);
    BagEqual(data, original);
    FlattenBag(data);
    FlattenBag(original);
    QsortSorts(Flatten(original));
    SortedIsUnique(Flatten(out), Qsort(Flatten(original)));
  }
}

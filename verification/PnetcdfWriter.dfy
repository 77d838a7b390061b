/**
 * The PnetCDF branch of the parallel writer: the non-empty regions become one list of subarrays,
 * and every variable issues a single request for the whole list.
 */
module PnetcdfWriter {
  import opened Sequences
  import opened Hyperslabs
  import opened Decomposition
  import opened StartCount
  import opened ParallelWriter

  /** One `ncmpi_iput_varn`: the subarrays take their data one after the other from `buf`. */
  datatype Varn = Varn(varid: int, starts: seq<seq<int>>, counts: seq<seq<nat>>, buf: seq<Value>, bufcount: nat)

  function Products(counts: seq<seq<nat>>): (r: seq<nat>)
    ensures |r| == |counts|
  {
    seq(|counts|, i requires 0 <= i < |counts| => Product(counts[i]))
  }

  /** PnetCDF demands that the buffer count is the total size of the request. */
  predicate ValidVarn(v: Varn) {
    |v.starts| == |v.counts| &&
    (forall i :: 0 <= i < |v.starts| ==> |v.starts[i]| == |v.counts[i]|) &&
    v.bufcount == Sum(Products(v.counts)) <= |v.buf|
  }

  lemma VarnFits(v: Varn, i: nat)
    requires ValidVarn(v) && i < |v.starts|
    ensures Sum(Products(v.counts)[..i]) + Product(v.counts[i]) <= |v.buf|
  {
    SumSnoc(Products(v.counts), i);
    SumTakeMonotone(Products(v.counts), i + 1, |v.counts|);
    assert Products(v.counts)[..|v.counts|] == Products(v.counts);
  }

  /** The put that subarray `i` of a request amounts to. */
  function VarnPut(v: Varn, i: nat): (p: Put)
    requires ValidVarn(v) && i < |v.starts|
    ensures ValidPut(p)
  {
    VarnFits(v, i);
    var offset := Sum(Products(v.counts)[..i]);
    Put(v.varid, v.starts[i], v.counts[i], v.buf[offset..offset + Product(v.counts[i])])
  }

  /** The regions, among the first `n`, that are put on the list. */
  ghost function Listed(sh: Shape, s: Share, n: nat): (r: seq<nat>)
    requires n <= |s.regions|
    ensures forall i :: 0 <= i < |r| ==> r[i] < n
  {
    if n == 0 then []
    else if Stores(sh) && Product(s.regions[n - 1].count) > 0 then Listed(sh, s, n - 1) + [n - 1]
    else Listed(sh, s, n - 1)
  }

  /** What is on the list has data. */
  lemma {:induction false} ListedHasData(sh: Shape, s: Share, n: nat, i: nat)
    requires n <= |s.regions| && i < |Listed(sh, s, n)|
    ensures Stores(sh) && Product(s.regions[Listed(sh, s, n)[i]].count) > 0
  {
    if i >= |Listed(sh, s, n - 1)| {
    } else {
      ListedHasData(sh, s, n - 1, i);
    }
  }

  /** A region with data is on the list. */
  lemma {:induction false} ListedComplete(sh: Shape, s: Share, n: nat, r: nat) returns (i: nat)
    requires n <= |s.regions| && r < n && Stores(sh) && Product(s.regions[r].count) > 0
    ensures i < |Listed(sh, s, n)| && Listed(sh, s, n)[i] == r
  {
    if r == n - 1 {
      i := |Listed(sh, s, n - 1)|;
    } else {
      i := ListedComplete(sh, s, n - 1, r);
    }
  }

  ghost function ListedSizes(sh: Shape, s: Share, n: nat): (r: seq<nat>)
    requires n <= |s.regions|
    ensures |r| == |Listed(sh, s, n)|
  {
    seq(|Listed(sh, s, n)|, i requires 0 <= i < |Listed(sh, s, n)| => Product(s.regions[Listed(sh, s, n)[i]].count))
  }

  lemma ListedSizesSnoc(sh: Shape, s: Share, n: nat)
    requires 0 < n <= |s.regions|
    ensures ListedSizes(sh, s, n) ==
      if Stores(sh) && Product(s.regions[n - 1].count) > 0
      then ListedSizes(sh, s, n - 1) + [Product(s.regions[n - 1].count)] else ListedSizes(sh, s, n - 1)
  {
  }

  lemma {:induction false} ListedTotal(sh: Shape, s: Share, n: nat)
    requires n <= |s.regions| && Stores(sh)
    ensures Sum(ListedSizes(sh, s, n)) == Sum(Sizes(s.regions)[..n])
  {
    if n == 0 {
    } else {
      ListedTotal(sh, s, n - 1);
      SumSnoc(Sizes(s.regions), n - 1);
      ListedSizesSnoc(sh, s, n);
      SumAppend(ListedSizes(sh, s, n - 1), [Product(s.regions[n - 1].count)]);
    }
  }

  lemma LastListed(sh: Shape, s: Share, n: nat)
    requires 0 < n <= |s.regions| && Stores(sh) && Product(s.regions[n - 1].count) > 0
    ensures |Listed(sh, s, n - 1)| < |Listed(sh, s, n)|
    ensures ListedSizes(sh, s, n)[..|Listed(sh, s, n - 1)|] == ListedSizes(sh, s, n - 1)
  {
    ListedSizesSnoc(sh, s, n);
    TakeSnoc(ListedSizes(sh, s, n - 1), Product(s.regions[n - 1].count));
  }

  lemma LastListedOffset(sh: Shape, s: Share, n: nat)
    requires ValidRegions(sh.ndims, s.regions, s.llen) && 0 < n <= |s.regions| && Stores(sh)
    requires Product(s.regions[n - 1].count) > 0
    ensures |Listed(sh, s, n - 1)| < |Listed(sh, s, n)|
    ensures Sum(ListedSizes(sh, s, n)[..|Listed(sh, s, n - 1)|]) == s.regions[n - 1].loffset
  {
    LastListed(sh, s, n);
    ListedTotal(sh, s, n - 1);
    assert InOrder(s.regions, n - 1);
  }

  lemma ListedPrefix(sh: Shape, s: Share, n: nat, i: nat)
    requires 0 < n <= |s.regions| && i < |Listed(sh, s, n - 1)|
    ensures i < |Listed(sh, s, n)| && Listed(sh, s, n)[i] == Listed(sh, s, n - 1)[i]
    ensures ListedSizes(sh, s, n)[..i] == ListedSizes(sh, s, n - 1)[..i]
  {
    ListedSizesSnoc(sh, s, n);
  }

  /** Skipped regions hold no element, so the list entries start where their regions do. */
  lemma {:induction false} ListedOffset(sh: Shape, s: Share, n: nat, i: nat)
    requires ValidRegions(sh.ndims, s.regions, s.llen) && n <= |s.regions| && Stores(sh)
    requires i < |Listed(sh, s, n)|
    ensures Sum(ListedSizes(sh, s, n)[..i]) == s.regions[Listed(sh, s, n)[i]].loffset
    decreases n
  {
    if i < |Listed(sh, s, n - 1)| {
      ListedOffset(sh, s, n - 1, i);
      ListedPrefix(sh, s, n, i);
    } else {
      LastListedOffset(sh, s, n);
    }
  }

  /** The list of subarrays built so far describes the listed regions. */
  ghost predicate ListBuilt(sh: Shape, b: Batch, s: Share, n: nat, starts: seq<seq<int>>, counts: seq<seq<nat>>)
    requires ValidWrite(sh, b, s)
  {
    var covered := Covered(s, n);
    var listed := Listed(sh, s, covered);
    |starts| == |counts| == |listed| &&
    forall i :: 0 <= i < |listed| ==>
      starts[i] == FileStart(sh, Some(s.regions[listed[i]]), b.frame) &&
      counts[i] == FileCount(sh, Some(s.regions[listed[i]]))
  }

  /** A region is listed exactly when it has data in the file. */
  lemma ListedNext(sh: Shape, s: Share, n: nat)
    requires ValidShape(sh) && ValidRegions(sh.ndims, s.regions, s.llen)
    ensures Covered(s, n) <= |s.regions| && Covered(s, n + 1) <= |s.regions|
    ensures Product(FileCount(sh, RegionAt(s, n))) > 0 ==>
      n < |s.regions| && Listed(sh, s, Covered(s, n + 1)) == Listed(sh, s, Covered(s, n)) + [n]
    ensures Product(FileCount(sh, RegionAt(s, n))) == 0 ==>
      Listed(sh, s, Covered(s, n + 1)) == Listed(sh, s, Covered(s, n))
  {
    if n < |s.regions| {
      FileCountMeaning(sh, s.regions[n]);
    } else {
      NoRegionNoData(sh);
    }
  }

  lemma ListStep(
    sh: Shape, b: Batch, s: Share, n: nat, starts: seq<seq<int>>, counts: seq<seq<nat>>, start: seq<int>,
    count: seq<nat>)
    requires ValidWrite(sh, b, s) && ListBuilt(sh, b, s, n, starts, counts)
    requires start == FileStart(sh, RegionAt(s, n), b.frame) && count == FileCount(sh, RegionAt(s, n))
    ensures Product(count) > 0 ==> ListBuilt(sh, b, s, n + 1, starts + [start], counts + [count])
    ensures Product(count) == 0 ==> ListBuilt(sh, b, s, n + 1, starts, counts)
  {
    ListedNext(sh, s, n);
  }

  lemma ProductsSnoc(counts: seq<seq<nat>>, count: seq<nat>)
    ensures Sum(Products(counts + [count])) == Sum(Products(counts)) + Product(count)
  {
    assert Products(counts + [count]) == Products(counts) + [Product(count)];
    SumAppend(Products(counts), [Product(count)]);
  }

  /** The list for the first `n` regions, and the number of elements on it. */
  ghost predicate Collected(
    sh: Shape, b: Batch, s: Share, n: nat, starts: seq<seq<int>>, counts: seq<seq<nat>>, chkcnt: nat)
    requires ValidWrite(sh, b, s)
  {
    ListBuilt(sh, b, s, n, starts, counts) && chkcnt == Sum(Products(counts))
  }

  /** Puts one region on the list, if it has data. */
  method ListRegion(
    sh: Shape, b: Batch, s: Share, n: nat, starts: seq<seq<int>>, counts: seq<seq<nat>>, chkcnt: nat,
    start: array<int>, count: array<nat>)
    returns (starts': seq<seq<int>>, counts': seq<seq<nat>>, chkcnt': nat)
    requires ValidWrite(sh, b, s) && Collected(sh, b, s, n, starts, counts, chkcnt)
    requires start.Length == count.Length == sh.fndims
    modifies start, count
    ensures Collected(sh, b, s, n + 1, starts', counts', chkcnt')
  {
    FindStartCount(sh, RegionAt(s, n), b.frame, start, count);
    ListStep(sh, b, s, n, starts, counts, start[..], count[..]);
    ProductsSnoc(counts, count[..]);
    starts', counts' := starts, counts;
    var dsize := Product(count[..]);
    chkcnt' := chkcnt + dsize;
    if dsize > 0 {
      starts' := starts' + [start[..]];
      counts' := counts' + [count[..]];
    }
  }

  /** Walks the region list and collects the subarrays that have data, with the total element count. */
  method CollectSubarrays(sh: Shape, b: Batch, s: Share, numRegions: nat)
    returns (startlist: seq<seq<int>>, countlist: seq<seq<nat>>, chkcnt: nat)
    requires ValidWrite(sh, b, s) && |s.regions| <= numRegions
    ensures Collected(sh, b, s, numRegions, startlist, countlist, chkcnt)
  {
    startlist, countlist, chkcnt := [], [], 0;
    var start, count := new int[sh.fndims], new nat[sh.fndims];
    var regioncnt := 0;
    while regioncnt < numRegions
      invariant 0 <= regioncnt <= numRegions
      invariant Collected(sh, b, s, regioncnt, startlist, countlist, chkcnt)
    {
      startlist, countlist, chkcnt := ListRegion(sh, b, s, regioncnt, startlist, countlist, chkcnt, start, count);
      regioncnt := regioncnt + 1;
    }
  }

  /** The request for variable `nv` made from a finished list. */
  ghost predicate IsRequest(sh: Shape, b: Batch, s: Share, v: Varn, nv: nat)
    requires ValidWrite(sh, b, s) && nv < |b.varids|
  {
    var listed := Listed(sh, s, |s.regions|);
    v.varid == b.varids[nv] && ValidVarn(v) && |v.starts| == |listed| &&
    forall i :: 0 <= i < |listed| ==> Stores(sh) && VarnPut(v, i) == RegionPut(sh, b, s, listed[i], nv, 1)
  }

  /** The put of variable `nv` at the place of variable `k`. */
  ghost function PlacedPut(sh: Shape, b: Batch, s: Share, r: nat, nv: nat, k: nat): (p: Put)
    requires ValidWrite(sh, b, s) && Stores(sh) && r < |s.regions| && nv < |b.varids| && k < |b.varids|
    ensures ValidPut(p)
  {
    RegionPut(sh, b, s, r, nv, 1).(start := RegionPut(sh, b, s, r, k, 1).start)
  }

  /** The request for variable `nv`, with the record of variable `k`. */
  ghost predicate IsRequestFrom(sh: Shape, b: Batch, s: Share, v: Varn, nv: nat, k: nat)
    requires ValidWrite(sh, b, s) && nv < |b.varids| && k < |b.varids|
  {
    var listed := Listed(sh, s, |s.regions|);
    v.varid == b.varids[nv] && ValidVarn(v) && |v.starts| == |listed| &&
    forall i :: 0 <= i < |listed| ==> Stores(sh) && VarnPut(v, i) == PlacedPut(sh, b, s, listed[i], nv, k)
  }

  /** The latest variable up to `nv` whose record is set; the list of starts keeps its record. */
  function SetBy(recordSet: seq<bool>, nv: nat): (k: nat)
    requires nv < |recordSet|
    ensures k <= nv
  {
    if nv == 0 || recordSet[nv] then nv else SetBy(recordSet, nv - 1)
  }

  /** Variables `k` and `nv` have the same place, or nothing is put anywhere. */
  ghost predicate SharesPlace(sh: Shape, b: Batch, s: Share, nv: nat, k: nat)
    requires ValidWrite(sh, b, s) && nv < |b.varids| && k < |b.varids|
  {
    sh.ndims >= sh.fndims || Listed(sh, s, |s.regions|) == [] || (sh.record >= 0 && b.frame[k] == b.frame[nv])
  }

  /** The record of another variable is right exactly when it is the variable's own, or there is none to choose. */
  lemma RequestExact(sh: Shape, b: Batch, s: Share, v: Varn, nv: nat, k: nat)
    requires ValidWrite(sh, b, s) && nv < |b.varids| && k < |b.varids| && IsRequestFrom(sh, b, s, v, nv, k)
    ensures IsRequest(sh, b, s, v, nv) <==> SharesPlace(sh, b, s, nv, k)
  {
    var listed := Listed(sh, s, |s.regions|);
    if listed != [] {
      ListedHasData(sh, s, |s.regions|, 0);
      assert VarnPut(v, 0) == PlacedPut(sh, b, s, listed[0], nv, k);
      if IsRequest(sh, b, s, v, nv) && sh.ndims < sh.fndims {
        assert VarnPut(v, 0).start[0] == b.frame[k];
        assert RegionPut(sh, b, s, listed[0], nv, 1).start[0] == b.frame[nv];
      }
    }
  }

  /** The start of every listed subarray after its record has been set for variable `nv`. */
  ghost predicate FramesSet(sh: Shape, b: Batch, starts: seq<seq<int>>, starts': seq<seq<int>>, nv: nat)
    requires ValidShape(sh) && ValidBatch(sh, b) && nv < |b.varids|
  {
    |starts'| == |starts| &&
    forall i :: 0 <= i < |starts| ==> |starts[i]| == sh.fndims && starts'[i] == StartOfVariable(sh, b, starts[i], nv)
  }

  lemma ListedProducts(sh: Shape, b: Batch, s: Share, starts: seq<seq<int>>, counts: seq<seq<nat>>)
    requires ValidWrite(sh, b, s) && ListBuilt(sh, b, s, |s.regions|, starts, counts)
    ensures Products(counts) == ListedSizes(sh, s, |s.regions|)
  {
    var listed := Listed(sh, s, |s.regions|);
    forall i | 0 <= i < |listed| ensures Product(counts[i]) == Product(s.regions[listed[i]].count) {
      ListedHasData(sh, s, |s.regions|, i);
      FileCountMeaning(sh, s.regions[listed[i]]);
    }
  }

  lemma {:induction false} NothingListed(sh: Shape, s: Share, n: nat)
    requires n <= |s.regions| && !Stores(sh)
    ensures Listed(sh, s, n) == []
  {
    if n == 0 {
    } else {
      NothingListed(sh, s, n - 1);
    }
  }

  lemma RequestOffsets(sh: Shape, b: Batch, s: Share, starts: seq<seq<int>>, counts: seq<seq<nat>>)
    requires ValidWrite(sh, b, s) && ListBuilt(sh, b, s, |s.regions|, starts, counts)
    ensures Sum(Products(counts)) <= s.llen
    ensures Products(counts) == ListedSizes(sh, s, |s.regions|)
  {
    ListedProducts(sh, b, s, starts, counts);
    if Stores(sh) {
      ListedTotal(sh, s, |s.regions|);
      assert Sizes(s.regions)[..|s.regions|] == Sizes(s.regions);
    } else {
      NothingListed(sh, s, |s.regions|);
      assert Products(counts) == [];
    }
  }

  lemma SubarrayData(sh: Shape, b: Batch, s: Share, v: Varn, nv: nat, i: nat, r: nat)
    requires ValidWrite(sh, b, s) && nv < |b.varids| && ValidVarn(v) && i < |v.starts| && r < |s.regions| && Stores(sh)
    requires Sum(Products(v.counts)[..i]) == s.regions[r].loffset
    requires Product(v.counts[i]) == Product(s.regions[r].count)
    requires 0 <= nv * s.llen <= nv * s.llen + s.llen <= |s.iobuf|
    requires v.buf == s.iobuf[nv * s.llen..nv * s.llen + s.llen]
    ensures VarnPut(v, i).data == RegionPut(sh, b, s, r, nv, 1).data
  {
    var region := s.regions[r];
    VarnFits(v, i);
    RegionFits(sh.ndims, s.regions, s.llen, r);
    SliceOfSlice(s.iobuf, nv * s.llen, nv * s.llen + s.llen, region.loffset, region.loffset + Product(region.count));
  }

  lemma SubarrayMeaning(sh: Shape, b: Batch, s: Share, v: Varn, nv: nat, k: nat, i: nat)
    requires ValidWrite(sh, b, s) && nv < |b.varids| && k < |b.varids| && ValidVarn(v) && v.varid == b.varids[nv]
    requires Stores(sh) && i < |v.starts| == |Listed(sh, s, |s.regions|)|
    requires Products(v.counts) == ListedSizes(sh, s, |s.regions|)
    requires var region := s.regions[Listed(sh, s, |s.regions|)[i]];
      v.starts[i] == StartOfVariable(sh, b, FileStart(sh, Some(region), b.frame), k) &&
      v.counts[i] == FileCount(sh, Some(region))
    requires 0 <= nv * s.llen <= nv * s.llen + s.llen <= |s.iobuf|
    requires v.buf == s.iobuf[nv * s.llen..nv * s.llen + s.llen]
    ensures VarnPut(v, i) == PlacedPut(sh, b, s, Listed(sh, s, |s.regions|)[i], nv, k)
  {
    var r := Listed(sh, s, |s.regions|)[i];
    ListedHasData(sh, s, |s.regions|, i);
    FileCountMeaning(sh, s.regions[r]);
    StartMeaning(sh, b, s.regions[r], k);
    ListedOffset(sh, s, |s.regions|, i);
    SubarrayData(sh, b, s, v, nv, i, r);
  }

  /** The request `v` is made for variable `nv` from a finished list, with the starts of variable `k`. */
  ghost predicate MadeFrom(
    sh: Shape, b: Batch, s: Share, starts: seq<seq<int>>, counts: seq<seq<nat>>, starts': seq<seq<int>>, v: Varn,
    nv: nat, k: nat)
  {
    ValidWrite(sh, b, s) && ListBuilt(sh, b, s, |s.regions|, starts, counts) && nv < |b.varids| && k < |b.varids| &&
    FramesSet(sh, b, starts, starts', k) && 0 <= nv * s.llen <= nv * s.llen + s.llen <= |s.iobuf| &&
    v == Varn(b.varids[nv], starts', counts, s.iobuf[nv * s.llen..nv * s.llen + s.llen], Sum(Products(counts)))
  }

  lemma RequestValid(
    sh: Shape, b: Batch, s: Share, starts: seq<seq<int>>, counts: seq<seq<nat>>, starts': seq<seq<int>>, v: Varn,
    nv: nat, k: nat)
    requires MadeFrom(sh, b, s, starts, counts, starts', v, nv, k)
    ensures ValidVarn(v) && |v.starts| == |Listed(sh, s, |s.regions|)|
    ensures Products(v.counts) == ListedSizes(sh, s, |s.regions|)
  {
    RequestOffsets(sh, b, s, starts, counts);
  }

  lemma RequestEntry(
    sh: Shape, b: Batch, s: Share, starts: seq<seq<int>>, counts: seq<seq<nat>>, starts': seq<seq<int>>, v: Varn,
    nv: nat, k: nat, i: nat)
    requires MadeFrom(sh, b, s, starts, counts, starts', v, nv, k) && i < |Listed(sh, s, |s.regions|)|
    ensures i < |v.starts| == |v.counts|
    ensures var region := s.regions[Listed(sh, s, |s.regions|)[i]];
      v.starts[i] == StartOfVariable(sh, b, FileStart(sh, Some(region), b.frame), k) &&
      v.counts[i] == FileCount(sh, Some(region))
  {
  }

  /** The request of one variable: its subarrays, and the data found in its part of the buffer. */
  lemma RequestMeaning(
    sh: Shape, b: Batch, s: Share, starts: seq<seq<int>>, counts: seq<seq<nat>>, starts': seq<seq<int>>, v: Varn,
    nv: nat, k: nat)
    requires MadeFrom(sh, b, s, starts, counts, starts', v, nv, k)
    ensures IsRequestFrom(sh, b, s, v, nv, k)
  {
    RequestValid(sh, b, s, starts, counts, starts', v, nv, k);
    var listed := Listed(sh, s, |s.regions|);
    forall i | 0 <= i < |listed|
      ensures Stores(sh) && VarnPut(v, i) == PlacedPut(sh, b, s, listed[i], nv, k)
    {
      ListedHasData(sh, s, |s.regions|, i);
      RequestEntry(sh, b, s, starts, counts, starts', v, nv, k, i);
      SubarrayMeaning(sh, b, s, v, nv, k, i);
    }
  }

  /** Sets the record of every listed subarray, if the variable has one. */
  method SetFrames(sh: Shape, b: Batch, starts: seq<seq<int>>, nv: nat, recordSet: bool)
    returns (starts': seq<seq<int>>)
    requires forall i :: 0 <= i < |starts| ==> |starts[i]| == sh.fndims > 0
    requires recordSet && sh.ndims < sh.fndims && starts != [] ==> nv < |b.frame|
    ensures |starts'| == |starts|
    ensures forall i :: 0 <= i < |starts| ==>
      starts'[i] == if recordSet && sh.ndims < sh.fndims then starts[i][0 := b.frame[nv]] else starts[i]
  {
    starts' := starts;
    if recordSet && sh.ndims < sh.fndims {
      var rc := 0;
      while rc < |starts|
        invariant 0 <= rc <= |starts| == |starts'|
        invariant forall i :: 0 <= i < rc ==> starts'[i] == starts[i][0 := b.frame[nv]]
        invariant forall i :: rc <= i < |starts| ==> starts'[i] == starts[i]
      {
        starts' := starts'[rc := starts'[rc][0 := b.frame[nv]]];
        rc := rc + 1;
      }
    }
  }

  /** The request of variable `nv`, out of its part of the buffer. */
  method MakeRequest(
    ghost sh: Shape, b: Batch, s: Share, startlist: seq<seq<int>>, countlist: seq<seq<nat>>, chkcnt: nat, nv: nat,
    ghost starts: seq<seq<int>>, ghost k: nat) returns (v: Varn)
    requires ValidWrite(sh, b, s) && nv < |b.varids| && k < |b.varids|
    requires Collected(sh, b, s, |s.regions|, starts, countlist, chkcnt) && FramesSet(sh, b, starts, startlist, k)
    ensures IsRequestFrom(sh, b, s, v, nv, k)
  {
    BufferBounds(|b.varids|, s.llen, nv, 0, s.llen, |s.iobuf|);
    v := Varn(b.varids[nv], startlist, countlist, s.iobuf[nv * s.llen..nv * s.llen + s.llen], chkcnt);
    RequestMeaning(sh, b, s, starts, countlist, startlist, v, nv, k);
  }

  /** A finished list has the records of the first variable. */
  lemma ListHasFirst(sh: Shape, b: Batch, s: Share, starts: seq<seq<int>>, counts: seq<seq<nat>>)
    requires ValidWrite(sh, b, s) && ListBuilt(sh, b, s, |s.regions|, starts, counts)
    ensures FramesSet(sh, b, starts, starts, 0)
  {
    forall i | 0 <= i < |starts|
      ensures |starts[i]| == sh.fndims && StartOfVariable(sh, b, starts[i], 0) == starts[i]
    {
      var region := s.regions[Listed(sh, s, |s.regions|)[i]];
      ListedHasData(sh, s, |s.regions|, i);
      StartMeaning(sh, b, region, 0);
    }
  }

  /** If there is a record dimension but no record, nothing is listed. */
  lemma NoRecordNoList(sh: Shape, b: Batch, s: Share, starts: seq<seq<int>>, counts: seq<seq<nat>>)
    requires ValidWrite(sh, b, s) && ListBuilt(sh, b, s, |s.regions|, starts, counts)
    requires sh.ndims < sh.fndims && sh.record < 0
    ensures starts == []
  {
    NothingListed(sh, s, |s.regions|);
  }

  /** The requests of the first `n` variables, each with the record that was set last. */
  ghost predicate RequestsMade(sh: Shape, b: Batch, s: Share, recordSet: seq<bool>, requests: seq<Varn>, n: nat)
    requires ValidWrite(sh, b, s) && |recordSet| == |b.varids| && n <= |b.varids|
  {
    |requests| == n &&
    forall nv :: 0 <= nv < n ==> IsRequestFrom(sh, b, s, requests[nv], nv, SetBy(recordSet, nv))
  }

  lemma RequestsSnoc(sh: Shape, b: Batch, s: Share, recordSet: seq<bool>, requests: seq<Varn>, n: nat, v: Varn)
    requires ValidWrite(sh, b, s) && |recordSet| == |b.varids| && n < |b.varids|
    requires RequestsMade(sh, b, s, recordSet, requests, n)
    requires IsRequestFrom(sh, b, s, v, n, SetBy(recordSet, n))
    ensures RequestsMade(sh, b, s, recordSet, requests + [v], n + 1)
  {
  }

  /** The variable whose record the list has when variable `nv` is next. */
  function SetBefore(recordSet: seq<bool>, nv: nat): nat
    requires nv <= |recordSet|
  {
    if nv == 0 then 0 else SetBy(recordSet, nv - 1)
  }

  lemma FramesSetAgain(
    sh: Shape, b: Batch, recordSet: seq<bool>, starts: seq<seq<int>>, startlist: seq<seq<int>>,
    startlist': seq<seq<int>>, nv: nat)
    requires ValidShape(sh) && ValidBatch(sh, b) && |recordSet| == |b.varids| && nv < |b.varids|
    requires FramesSet(sh, b, starts, startlist, SetBefore(recordSet, nv))
    requires sh.ndims < sh.fndims && sh.record < 0 ==> starts == []
    requires |startlist'| == |startlist|
    requires forall i :: 0 <= i < |startlist| ==>
      startlist'[i] ==
      if recordSet[nv] && sh.ndims < sh.fndims && nv < |b.frame| then startlist[i][0 := b.frame[nv]] else startlist[i]
    ensures FramesSet(sh, b, starts, startlist', SetBy(recordSet, nv))
  {
  }

  /** The request of the next variable. */
  method NextRequest(
    sh: Shape, b: Batch, s: Share, recordSet: seq<bool>, startlist: seq<seq<int>>, countlist: seq<seq<nat>>,
    chkcnt: nat, nv: nat, ghost starts: seq<seq<int>>) returns (startlist': seq<seq<int>>, v: Varn)
    requires ValidWrite(sh, b, s) && nv < |b.varids| && |recordSet| == |b.varids|
    requires Collected(sh, b, s, |s.regions|, starts, countlist, chkcnt)
    requires FramesSet(sh, b, starts, startlist, SetBefore(recordSet, nv))
    ensures FramesSet(sh, b, starts, startlist', SetBy(recordSet, nv))
    ensures IsRequestFrom(sh, b, s, v, nv, SetBy(recordSet, nv))
  {
    if sh.ndims < sh.fndims && sh.record < 0 {
      NoRecordNoList(sh, b, s, starts, countlist);
    }
    startlist' := SetFrames(sh, b, startlist, nv, recordSet[nv]);
    FramesSetAgain(sh, b, recordSet, starts, startlist, startlist', nv);
    v := MakeRequest(sh, b, s, startlist', countlist, chkcnt, nv, starts, SetBy(recordSet, nv));
  }

  /** The requests of all variables, out of a finished list. */
  method MakeRequests(
    sh: Shape, b: Batch, s: Share, recordSet: seq<bool>, starts: seq<seq<int>>, countlist: seq<seq<nat>>, chkcnt: nat)
    returns (requests: seq<Varn>)
    requires ValidWrite(sh, b, s) && |recordSet| == |b.varids|
    requires Collected(sh, b, s, |s.regions|, starts, countlist, chkcnt)
    ensures RequestsMade(sh, b, s, recordSet, requests, |b.varids|)
  {
    ListHasFirst(sh, b, s, starts, countlist);
    requests := [];
    var startlist := starts;
    var nv := 0;
    while nv < |b.varids|
      invariant nv <= |b.varids| && FramesSet(sh, b, starts, startlist, SetBefore(recordSet, nv))
      invariant RequestsMade(sh, b, s, recordSet, requests, nv)
    {
      var v;
      startlist, v := NextRequest(sh, b, s, recordSet, startlist, countlist, chkcnt, nv, starts);
      RequestsSnoc(sh, b, s, recordSet, requests, nv, v);
      requests := requests + [v];
      nv := nv + 1;
    }
  }

  /**
   * One IO task's PnetCDF requests. `recordSet[nv]` tells whether variable nv has a record set; `sh.record` is the
   * first variable's. A variable without keeps the record in the list. A decomposition in which no task has a region
   * leads to no request.
   */
  method WritePnetcdf(sh: Shape, b: Batch, s: Share, recordSet: seq<bool>, numRegions: nat)
    returns (requests: seq<Varn>)
    requires ValidWrite(sh, b, s) && |s.regions| <= numRegions && |recordSet| == |b.varids|
    ensures RequestsMade(sh, b, s, recordSet, requests, if numRegions > 0 then |b.varids| else 0)
  {
    requests := [];
    var startlist, countlist, chkcnt := CollectSubarrays(sh, b, s, numRegions);
    if numRegions > 0 {
      requests := MakeRequests(sh, b, s, recordSet, startlist, countlist, chkcnt);
    }
  }

  /** Every variable finds its own record in the list. */
  ghost predicate RecordsRight(sh: Shape, b: Batch, s: Share, recordSet: seq<bool>)
    requires ValidWrite(sh, b, s) && |recordSet| == |b.varids|
  {
    forall nv :: 0 <= nv < |b.varids| ==> SharesPlace(sh, b, s, nv, SetBy(recordSet, nv))
  }

  ghost predicate AllRequests(sh: Shape, b: Batch, s: Share, requests: seq<Varn>)
    requires ValidWrite(sh, b, s)
  {
    |requests| == |b.varids| && forall nv :: 0 <= nv < |requests| ==> IsRequest(sh, b, s, requests[nv], nv)
  }

  /**
   * All requests of a task are right exactly when every variable without a record has the record that was set
   * last before it.
   */
  lemma RequestsExact(sh: Shape, b: Batch, s: Share, recordSet: seq<bool>, requests: seq<Varn>)
    requires ValidWrite(sh, b, s) && |recordSet| == |b.varids|
    requires RequestsMade(sh, b, s, recordSet, requests, |b.varids|)
    ensures AllRequests(sh, b, s, requests) <==> RecordsRight(sh, b, s, recordSet)
  {
    forall nv | 0 <= nv < |b.varids|
      ensures IsRequest(sh, b, s, requests[nv], nv) <==> SharesPlace(sh, b, s, nv, SetBy(recordSet, nv))
    {
      RequestExact(sh, b, s, requests[nv], nv, SetBy(recordSet, nv));
    }
  }

  lemma AllSetIsRight(sh: Shape, b: Batch, s: Share, recordSet: seq<bool>)
    requires ValidWrite(sh, b, s) && |recordSet| == |b.varids|
    requires forall nv :: 0 <= nv < |recordSet| ==> recordSet[nv] == (sh.record >= 0)
    ensures RecordsRight(sh, b, s, recordSet)
  {
    forall nv | 0 <= nv < |b.varids| ensures SharesPlace(sh, b, s, nv, SetBy(recordSet, nv)) {
      if sh.ndims < sh.fndims && sh.record < 0 {
        NothingListed(sh, s, |s.regions|);
      }
    }
  }

  /** Two variables with a record dimension and records 0 and 1, of which only the first has been set. */
  const UNSET_SHAPE := Shape(1, 2, 0)
  const UNSET_BATCH := Batch([7, 8], [0, 1])
  const UNSET_SHARE := Share([Region(0, [0], [1])], 1, [10, 20])

  lemma UnsetIsValid()
    ensures ValidWrite(UNSET_SHAPE, UNSET_BATCH, UNSET_SHARE)
    ensures Listed(UNSET_SHAPE, UNSET_SHARE, 1) == [0] && SetBy([true, false], 1) == 0
  {
    assert Product([1]) == 1 * Product([]);
    assert Sizes(UNSET_SHARE.regions) == [1];
    assert Listed(UNSET_SHAPE, UNSET_SHARE, 0) == [];
  }

  /** Its place and its own place differ in the record. */
  lemma UnsetPuts()
    requires ValidWrite(UNSET_SHAPE, UNSET_BATCH, UNSET_SHARE)
    ensures PlacedPut(UNSET_SHAPE, UNSET_BATCH, UNSET_SHARE, 0, 1, 0) == Put(8, [0, 0], [1, 1], [20])
    ensures RegionPut(UNSET_SHAPE, UNSET_BATCH, UNSET_SHARE, 0, 1, 1) == Put(8, [1, 0], [1, 1], [20])
  {
    assert RegionPut(UNSET_SHAPE, UNSET_BATCH, UNSET_SHARE, 0, 0, 1).start == [0, 0];
  }

  lemma UnsetPlaces()
    requires ValidWrite(UNSET_SHAPE, UNSET_BATCH, UNSET_SHARE)
    requires Listed(UNSET_SHAPE, UNSET_SHARE, 1) == [0]
    ensures !SharesPlace(UNSET_SHAPE, UNSET_BATCH, UNSET_SHARE, 1, 0)
  {
  }

  /** The second variable is put into record 0. The other writers look at the first variable and put it into 1. */
  lemma RecordNotSet(requests: seq<Varn>)
    requires ValidWrite(UNSET_SHAPE, UNSET_BATCH, UNSET_SHARE)
    requires RequestsMade(UNSET_SHAPE, UNSET_BATCH, UNSET_SHARE, [true, false], requests, 2)
    ensures ValidVarn(requests[1]) && |requests[1].starts| == 1
    ensures VarnPut(requests[1], 0) == Put(8, [0, 0], [1, 1], [20])
    ensures RegionPut(UNSET_SHAPE, UNSET_BATCH, UNSET_SHARE, 0, 1, 1) == Put(8, [1, 0], [1, 1], [20])
    ensures !IsRequest(UNSET_SHAPE, UNSET_BATCH, UNSET_SHARE, requests[1], 1)
  {
    UnsetIsValid();
    UnsetPuts();
    UnsetPlaces();
    RequestExact(UNSET_SHAPE, UNSET_BATCH, UNSET_SHARE, requests[1], 1, 0);
  }

  /** All puts that a task's requests amount to. */
  ghost predicate RequestedPut(requests: seq<Varn>, p: Put) {
    exists nv, i :: 0 <= nv < |requests| && ValidVarn(requests[nv]) && 0 <= i < |requests[nv].starts| &&
      p == VarnPut(requests[nv], i)
  }

  lemma PutIsRequested(sh: Shape, b: Batch, s: Share, requests: seq<Varn>, p: Put)
    requires ValidWrite(sh, b, s) && AllRequests(sh, b, s, requests)
    requires p in PutsOfShare(sh, b, s, |s.regions|, false)
    ensures RequestedPut(requests, p)
  {
    var r, nv := PutsOfShareMembers(sh, b, s, false, p);
    var i := ListedComplete(sh, s, |s.regions|, r);
    assert IsRequest(sh, b, s, requests[nv], nv);
    assert p == VarnPut(requests[nv], i);
  }

  lemma EntryIsPut(sh: Shape, b: Batch, s: Share, v: Varn, nv: nat, i: nat)
    requires ValidWrite(sh, b, s) && nv < |b.varids| && IsRequest(sh, b, s, v, nv) && i < |v.starts|
    ensures VarnPut(v, i) in PutsOfShare(sh, b, s, |s.regions|, false)
  {
    ListedHasData(sh, s, |s.regions|, i);
    PutIsShareMember(sh, b, s, false, Listed(sh, s, |s.regions|)[i], nv);
  }

  lemma RequestedIsPut(sh: Shape, b: Batch, s: Share, requests: seq<Varn>, p: Put)
    requires ValidWrite(sh, b, s) && AllRequests(sh, b, s, requests) && RequestedPut(requests, p)
    ensures p in PutsOfShare(sh, b, s, |s.regions|, false)
  {
    var nv, i :| 0 <= nv < |requests| && ValidVarn(requests[nv]) && 0 <= i < |requests[nv].starts| &&
      p == VarnPut(requests[nv], i);
    EntryIsPut(sh, b, s, requests[nv], nv, i);
  }

  lemma NoRegionsNoPuts(sh: Shape, b: Batch, s: Share, p: Put)
    requires ValidWrite(sh, b, s) && s.regions == []
    ensures p !in PutsOfShare(sh, b, s, |s.regions|, false)
  {
    if p in PutsOfShare(sh, b, s, |s.regions|, false) {
      var r, nv := PutsOfShareMembers(sh, b, s, false, p);
    }
  }

  /** The requests amount to exactly the puts of the task's regions. */
  lemma RequestsAreThePuts(sh: Shape, b: Batch, s: Share, requests: seq<Varn>, numRegions: nat, p: Put)
    requires ValidWrite(sh, b, s) && |s.regions| <= numRegions
    requires |requests| == if numRegions > 0 then |b.varids| else 0
    requires forall nv :: 0 <= nv < |requests| ==> IsRequest(sh, b, s, requests[nv], nv)
    ensures RequestedPut(requests, p) <==> p in PutsOfShare(sh, b, s, |s.regions|, false)
  {
    if numRegions == 0 {
      NoRegionsNoPuts(sh, b, s, p);
    } else if p in PutsOfShare(sh, b, s, |s.regions|, false) {
      PutIsRequested(sh, b, s, requests, p);
    } else if RequestedPut(requests, p) {
      RequestedIsPut(sh, b, s, requests, p);
    }
  }
}

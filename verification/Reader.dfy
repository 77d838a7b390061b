/**
 * Reading a distributed array on the IO tasks. `sh.record` is the record to read, already
 * defaulted to 0 for a variable with more dimensions than the decomposition.
 */
module Reader {
  import opened Sequences
  import opened Hyperslabs
  import opened Decomposition
  import opened StartCount

  /** The region and the file variable have matching dimensions, as the array accesses demand. */
  predicate Readable(sh: Shape) {
    sh.fndims > 0 &&
    ((sh.fndims == sh.ndims) || (sh.fndims == sh.ndims + 1 && sh.ndims > 0 && sh.record >= 0))
  }

  /** The reader treats every variable with a record and more than one dimension as a record variable. */
  predicate ReadsRecord(sh: Shape) {
    sh.record >= 0 && sh.fndims > 1
  }

  function ReadStart(sh: Shape, region: Region): (r: seq<int>)
    requires Readable(sh) && |region.start| == sh.ndims
    ensures |r| == sh.fndims
  {
    if ReadsRecord(sh) then [sh.record] + region.start[..sh.fndims - 1] else region.start
  }

  /** The count of the record dimension keeps a left-over value when the next dimension is empty. */
  function ReadCount(sh: Shape, region: Region, leftOver: nat): (r: seq<nat>)
    requires Readable(sh) && |region.count| == sh.ndims
    ensures |r| == sh.fndims
  {
    if ReadsRecord(sh) then [if region.count[0] > 0 then 1 else leftOver] + region.count[..sh.fndims - 1]
    else region.count
  }

  /** Fills the start and count arrays of one region for reading, in place. */
  method FindReadStartCount(sh: Shape, region: Region, start: array<int>, count: array<nat>)
    requires Readable(sh) && |region.start| == |region.count| == sh.ndims
    requires start.Length == count.Length == sh.fndims
    modifies start, count
    ensures start[..] == ReadStart(sh, region)
    ensures count[..] == ReadCount(sh, region, old(count[0]))
  {
    if sh.record >= 0 && sh.fndims > 1 {
      start[0] := sh.record;
      for i := 1 to sh.fndims
        invariant start[0] == sh.record && count[0] == old(count[0])
        invariant forall k :: 1 <= k < i ==> start[k] == region.start[k - 1] && count[k] == region.count[k - 1]
      {
        start[i] := region.start[i - 1];
        count[i] := region.count[i - 1];
      }
      if count[1] > 0 {
        count[0] := 1;
      }
    } else {
      for i := 0 to sh.fndims
        invariant forall k :: 0 <= k < i ==> start[k] == region.start[k] && count[k] == region.count[k]
      {
        start[i] := region.start[i];
        count[i] := region.count[i];
      }
    }
  }

  /** The batch that writes one record of one variable. */
  function OneVariable(sh: Shape, varid: int): Batch {
    Batch([varid], [sh.record])
  }

  /** The shapes for which the reader looks where the writer writes. */
  predicate ReadsBack(sh: Shape) {
    sh.ndims < sh.fndims || sh.record < 0 || (sh.fndims == 1 && sh.record == 0)
  }

  /** Reader and writer agree on the box of a region with data. */
  ghost predicate SameBox(sh: Shape, varid: int, region: Region)
    requires Readable(sh) && |region.start| == |region.count| == sh.ndims
  {
    Product(region.count) > 0 ==>
      ReadStart(sh, region) == PutStart(sh, OneVariable(sh, varid), region, 0, 1) &&
      ReadCount(sh, region, 0) == PutCount(sh, region)
  }

  lemma {:induction false} ProductOfTwos(s: seq<nat>)
    requires forall i :: 0 <= i < |s| ==> s[i] == 2
    ensures Product(s) > 0
  {
    if s == [] {
    } else {
      ProductOfTwos(s[1..]);
    }
  }

  lemma ReadsBackBox(sh: Shape, varid: int, region: Region, leftOver: nat)
    requires Readable(sh) && ReadsBack(sh) && |region.start| == |region.count| == sh.ndims
    ensures Product(ReadCount(sh, region, leftOver)) == Product(region.count)
    ensures Product(region.count) > 0 ==>
      ReadStart(sh, region) == PutStart(sh, OneVariable(sh, varid), region, 0, 1) &&
      ReadCount(sh, region, leftOver) == PutCount(sh, region)
  {
    if ReadsRecord(sh) {
      assert region.start[..sh.fndims - 1] == region.start && region.count[..sh.fndims - 1] == region.count;
      if region.count[0] == 0 {
        ProductOfZero(region.count, 0);
        ProductOfZero(ReadCount(sh, region, leftOver), 1);
      } else {
        PutCountProduct(sh, region);
      }
    }
  }

  /**
   * Reader and writer agree on every region exactly for the shapes of `ReadsBack`. The serial reader
   * asserts a shape of this kind; the parallel reader does not check.
   */
  lemma ReadBoxExact(sh: Shape, varid: int)
    requires Readable(sh)
    ensures ReadsBack(sh) <==>
      forall region: Region :: |region.start| == |region.count| == sh.ndims ==> SameBox(sh, varid, region)
  {
    if ReadsBack(sh) {
      forall region: Region | |region.start| == |region.count| == sh.ndims ensures SameBox(sh, varid, region) {
        ReadsBackBox(sh, varid, region, 0);
      }
    } else {
      var region := Region(0, seq(sh.ndims, _ => 0), seq(sh.ndims, _ => 2));
      ProductOfTwos(region.count);
      assert !SameBox(sh, varid, region);
    }
  }

  /** What one IO task reads with. */
  ghost predicate ValidRead(sh: Shape, regions: seq<Region>, llen: nat) {
    Readable(sh) && ReadsBack(sh) && ValidRegions(sh.ndims, regions, llen)
  }

  /** The data of one region, found where a write of this record stores it. */
  ghost function RegionRead(file: FileData, fill: Value, sh: Shape, varid: int, region: Region): (r: seq<Value>)
    requires Readable(sh) && |region.start| == |region.count| == sh.ndims
    ensures |r| == Product(region.count)
  {
    PutCountProduct(sh, region);
    Get(file, fill, varid, PutStart(sh, OneVariable(sh, varid), region, 0, 1), PutCount(sh, region))
  }

  /** The data of the first `n` regions of a task, one after the other. */
  ghost function TaskRead(
    file: FileData, fill: Value, sh: Shape, varid: int, regions: seq<Region>, llen: nat, n: nat): (r: seq<Value>)
    requires ValidRead(sh, regions, llen) && n <= |regions|
    ensures |r| == Sum(Sizes(regions)[..n])
  {
    if n == 0 then []
    else
      SumSnoc(Sizes(regions), n - 1);
      TaskRead(file, fill, sh, varid, regions, llen, n - 1) + RegionRead(file, fill, sh, varid, regions[n - 1])
  }

  /** Places data in a buffer, as a read into the middle of the buffer does. */
  function Place(buf: seq<Value>, offset: nat, data: seq<Value>): (r: seq<Value>)
    requires offset + |data| <= |buf|
    ensures |r| == |buf| && r[..offset] == buf[..offset] && r[offset..offset + |data|] == data
    ensures r[..offset + |data|] == buf[..offset] + data
  {
    buf[..offset] + data + buf[offset + |data|..]
  }

  lemma GetMatchesRegion(
    file: FileData, fill: Value, sh: Shape, varid: int, region: Region, leftOver: nat)
    requires Readable(sh) && ReadsBack(sh) && |region.start| == |region.count| == sh.ndims
    ensures Get(file, fill, varid, ReadStart(sh, region), ReadCount(sh, region, leftOver)) ==
      RegionRead(file, fill, sh, varid, region)
  {
    ReadsBackBox(sh, varid, region, leftOver);
  }

  /** The front of the buffer holds the data of the first `n` regions. */
  ghost predicate Holds(
    file: FileData, fill: Value, sh: Shape, varid: int, regions: seq<Region>, llen: nat, n: nat, iobuf: seq<Value>)
    requires ValidRead(sh, regions, llen) && n <= |regions|
  {
    TaskRead(file, fill, sh, varid, regions, llen, n) <= iobuf
  }

  lemma PlaceRegion(
    file: FileData, fill: Value, sh: Shape, varid: int, regions: seq<Region>, llen: nat, n: nat, iobuf: seq<Value>)
    requires ValidRead(sh, regions, llen) && n < |regions| && llen <= |iobuf|
    requires Holds(file, fill, sh, varid, regions, llen, n, iobuf)
    ensures regions[n].loffset + Product(regions[n].count) <= llen
    ensures Holds(file, fill, sh, varid, regions, llen, n + 1,
      Place(iobuf, regions[n].loffset, RegionRead(file, fill, sh, varid, regions[n])))
  {
    RegionFits(sh.ndims, regions, llen, n);
    var done := TaskRead(file, fill, sh, varid, regions, llen, n);
    assert iobuf[..|done|] == done;
  }

  lemma AllPlaced(
    file: FileData, fill: Value, sh: Shape, varid: int, regions: seq<Region>, llen: nat, iobuf: seq<Value>)
    requires ValidRead(sh, regions, llen) && llen <= |iobuf|
    requires Holds(file, fill, sh, varid, regions, llen, |regions|, iobuf)
    ensures iobuf[..llen] == TaskRead(file, fill, sh, varid, regions, llen, |regions|)
  {
    assert Sizes(regions)[..|regions|] == Sizes(regions);
  }

  lemma {:induction false} NothingToRead(
    file: FileData, fill: Value, sh: Shape, varid: int, regions: seq<Region>, n: nat)
    requires ValidRead(sh, regions, 0) && n <= |regions|
    ensures TaskRead(file, fill, sh, varid, regions, 0, n) == []
  {
    if n == 0 {
    } else {
      NothingToRead(file, fill, sh, varid, regions, n - 1);
      RegionFits(sh.ndims, regions, 0, n - 1);
    }
  }

  function Min(a: nat, b: nat): nat {
    if a <= b then a else b
  }

  /** Reads one region to its place in the buffer. */
  method ReadOne(
    file: FileData, fill: Value, sh: Shape, varid: int, regions: seq<Region>, llen: nat, r: nat, start: array<int>,
    count: array<nat>, buf: seq<Value>) returns (iobuf: seq<Value>)
    requires ValidRead(sh, regions, llen) && r < |regions| && llen <= |buf|
    requires start.Length == count.Length == sh.fndims && Holds(file, fill, sh, varid, regions, llen, r, buf)
    modifies start, count
    ensures |iobuf| == |buf| && Holds(file, fill, sh, varid, regions, llen, r + 1, iobuf)
  {
    var region := regions[r];
    var leftOver := count[0];
    FindReadStartCount(sh, region, start, count);
    GetMatchesRegion(file, fill, sh, varid, region, leftOver);
    PlaceRegion(file, fill, sh, varid, regions, llen, r, buf);
    assert InOrder(regions, r);
    var offset := if r == 0 then 0 else region.loffset;
    iobuf := Place(buf, offset, Get(file, fill, varid, start[..], count[..]));
  }

  /** The parallel reader: every IO task reads its own regions into its own buffer. */
  method PioReadDarrayNc(
    file: FileData, fill: Value, sh: Shape, varid: int, regions: seq<Region>, llen: nat, maxregions: nat,
    buf: seq<Value>)
    returns (iobuf: seq<Value>)
    requires ValidRead(sh, regions, llen) && |regions| <= maxregions && llen <= |buf|
    ensures |iobuf| == |buf|
    ensures iobuf[..llen] == TaskRead(file, fill, sh, varid, regions, llen, |regions|)
  {
    iobuf := buf;
    var start, count := new int[sh.fndims], new nat[sh.fndims];
    if llen == 0 {
      NothingToRead(file, fill, sh, varid, regions, |regions|);
    }
    var regioncnt := 0;
    while regioncnt < maxregions
      invariant 0 <= regioncnt <= maxregions && |iobuf| == |buf|
      invariant llen > 0 ==> Holds(file, fill, sh, varid, regions, llen, Min(regioncnt, |regions|), iobuf)
    {
      if regioncnt < |regions| && llen > 0 {
        iobuf := ReadOne(file, fill, sh, varid, regions, llen, regioncnt, start, count, iobuf);
      }
      regioncnt := regioncnt + 1;
    }
    AllPlaced(file, fill, sh, varid, regions, llen, iobuf);
  }

  /** What `ncmpi_get_varn` delivers: the subarrays of the list, one after the other. */
  function GetVarn(file: FileData, fill: Value, varid: int, starts: seq<seq<int>>, counts: seq<seq<nat>>): seq<Value>
    requires |starts| == |counts| && forall i :: 0 <= i < |starts| ==> |starts[i]| == |counts[i]|
  {
    if starts == [] then []
    else
      var k := |starts| - 1;
      GetVarn(file, fill, varid, starts[..k], counts[..k]) + Get(file, fill, varid, starts[k], counts[k])
  }

  ghost predicate ListRead(
    file: FileData, fill: Value, sh: Shape, varid: int, regions: seq<Region>, llen: nat, n: nat,
    starts: seq<seq<int>>, counts: seq<seq<nat>>)
    requires ValidRead(sh, regions, llen)
  {
    |starts| == |counts| && (forall i :: 0 <= i < |starts| ==> |starts[i]| == |counts[i]|) &&
    GetVarn(file, fill, varid, starts, counts) ==
    TaskRead(file, fill, sh, varid, regions, llen, Min(n, |regions|))
  }

  lemma ListReadStep(
    file: FileData, fill: Value, sh: Shape, varid: int, regions: seq<Region>, llen: nat, n: nat,
    starts: seq<seq<int>>, counts: seq<seq<nat>>, leftOver: nat)
    requires ValidRead(sh, regions, llen) && n < |regions|
    requires ListRead(file, fill, sh, varid, regions, llen, n, starts, counts)
    ensures var start, count := ReadStart(sh, regions[n]), ReadCount(sh, regions[n], leftOver);
      if Product(count) > 0
      then ListRead(file, fill, sh, varid, regions, llen, n + 1, starts + [start], counts + [count])
      else ListRead(file, fill, sh, varid, regions, llen, n + 1, starts, counts)
  {
    var start, count := ReadStart(sh, regions[n]), ReadCount(sh, regions[n], leftOver);
    ReadsBackBox(sh, varid, regions[n], leftOver);
    GetMatchesRegion(file, fill, sh, varid, regions[n], leftOver);
    assert (starts + [start])[..|starts|] == starts && (counts + [count])[..|starts|] == counts;
    assert TaskRead(file, fill, sh, varid, regions, llen, n + 1) ==
      TaskRead(file, fill, sh, varid, regions, llen, n) + RegionRead(file, fill, sh, varid, regions[n]);
  }

  /** `ncmpi_get_varn_all`: PnetCDF demands that the buffer count is the total size of the request. */
  method GetVarnAll(
    file: FileData, fill: Value, varid: int, starts: seq<seq<int>>, counts: seq<seq<nat>>, buf: seq<Value>,
    bufcount: nat) returns (r: seq<Value>)
    requires |starts| == |counts| && forall i :: 0 <= i < |starts| ==> |starts[i]| == |counts[i]|
    requires bufcount == |GetVarn(file, fill, varid, starts, counts)| <= |buf|
    ensures |r| == |buf| && r[..bufcount] == GetVarn(file, fill, varid, starts, counts)
  {
    r := Place(buf, 0, GetVarn(file, fill, varid, starts, counts));
  }

  /**
   * The PnetCDF reader lists the regions with data and reads them with one request. The regions cover `rllen`
   * elements, which is `llen` or, if several tasks read the same elements, less; the buffer count is right.
   */
  method PioReadDarrayPnetcdf(
    file: FileData, fill: Value, sh: Shape, varid: int, regions: seq<Region>, llen: nat, rllen: nat, maxregions: nat,
    buf: seq<Value>) returns (iobuf: seq<Value>)
    requires ValidRead(sh, regions, rllen) && |regions| <= maxregions && rllen <= llen <= |buf|
    ensures |iobuf| == |buf|
    ensures iobuf[..rllen] == TaskRead(file, fill, sh, varid, regions, rllen, |regions|)
  {
    iobuf := buf;
    if llen == 0 {
      NothingToRead(file, fill, sh, varid, regions, |regions|);
    }
    var start, count := new int[sh.fndims], new nat[sh.fndims];
    var startlist: seq<seq<int>>, countlist: seq<seq<nat>> := [], [];
    var regioncnt := 0;
    while regioncnt < maxregions
      invariant 0 <= regioncnt <= maxregions
      invariant llen == 0 ==> startlist == [] && countlist == []
      invariant llen > 0 ==> ListRead(file, fill, sh, varid, regions, rllen, regioncnt, startlist, countlist)
    {
      if regioncnt < |regions| && llen > 0 {
        ListReadStep(file, fill, sh, varid, regions, rllen, regioncnt, startlist, countlist, count[0]);
        FindReadStartCount(sh, regions[regioncnt], start, count);
        if Product(count[..]) > 0 {
          startlist := startlist + [start[..]];
          countlist := countlist + [count[..]];
        }
      }
      regioncnt := regioncnt + 1;
    }
    assert Sizes(regions)[..|regions|] == Sizes(regions);
    if maxregions > 0 {
      iobuf := GetVarnAll(file, fill, varid, startlist, countlist, iobuf, rllen);
    }
  }
}

/**
 * The serial writer: the IO tasks send their starts, counts and data to IO task 0, which writes
 * everything. Task 0 reuses its own arrays and buffer for what it receives.
 */
module SerialWriter {
  import opened Sequences
  import opened Hyperslabs
  import opened Decomposition
  import opened Messages
  import opened StartCount
  import opened ParallelWriter

  function StartRows(sh: Shape, s: Share, n: nat): (rows: seq<seq<int>>)
    requires ValidShape(sh) && ValidRegions(sh.ndims, s.regions, s.llen)
    ensures |rows| == n && forall r :: 0 <= r < n ==> |rows[r]| == sh.fndims
  {
    seq(n, r requires 0 <= r => RowStart(sh, RegionAt(s, r)))
  }

  function CountRows(sh: Shape, s: Share, n: nat): (rows: seq<seq<nat>>)
    requires ValidShape(sh) && ValidRegions(sh.ndims, s.regions, s.llen)
    ensures |rows| == n && forall r :: 0 <= r < n ==> |rows[r]| == sh.fndims
  {
    seq(n, r requires 0 <= r => RowCount(sh, RegionAt(s, r)))
  }

  /** Fills one row of the start and count arrays, in place, leaving the record dimension at zero. */
  method FindRow(sh: Shape, region: Option<Region>, start: array<int>, count: array<nat>)
    requires ValidShape(sh) && ValidRegion(sh, region)
    requires start.Length == count.Length == sh.fndims
    modifies start, count
    ensures start[..] == RowStart(sh, region)
    ensures count[..] == RowCount(sh, region)
  {
    ZeroArrays(start, count);
    if region.Some? {
      FillRow(sh, region.value, start, count);
    }
  }

  lemma RowsSnoc(sh: Shape, s: Share, r: nat)
    requires ValidShape(sh) && ValidRegions(sh.ndims, s.regions, s.llen)
    ensures Flatten(StartRows(sh, s, r + 1)) == Flatten(StartRows(sh, s, r)) + RowStart(sh, RegionAt(s, r))
    ensures Flatten(CountRows(sh, s, r + 1)) == Flatten(CountRows(sh, s, r)) + RowCount(sh, RegionAt(s, r))
  {
    assert StartRows(sh, s, r + 1) == StartRows(sh, s, r) + [RowStart(sh, RegionAt(s, r))];
    assert CountRows(sh, s, r + 1) == CountRows(sh, s, r) + [RowCount(sh, RegionAt(s, r))];
    FlattenSnoc(StartRows(sh, s, r), RowStart(sh, RegionAt(s, r)));
    FlattenSnoc(CountRows(sh, s, r), RowCount(sh, RegionAt(s, r)));
  }

  /** The start and count arrays of all regions, row after row; rows past the last region are zero. */
  method FindAllStartCount(sh: Shape, s: Share, maxregions: nat) returns (tmpStart: seq<int>, tmpCount: seq<nat>)
    requires ValidShape(sh) && ValidRegions(sh.ndims, s.regions, s.llen)
    ensures tmpStart == Flatten(StartRows(sh, s, maxregions))
    ensures tmpCount == Flatten(CountRows(sh, s, maxregions))
  {
    tmpStart, tmpCount := [], [];
    var start, count := new int[sh.fndims], new nat[sh.fndims];
    var r := 0;
    while r < maxregions
      invariant 0 <= r <= maxregions
      invariant tmpStart == Flatten(StartRows(sh, s, r))
      invariant tmpCount == Flatten(CountRows(sh, s, r))
    {
      FindRow(sh, RegionAt(s, r), start, count);
      RowsSnoc(sh, s, r);
      tmpStart := tmpStart + start[..];
      tmpCount := tmpCount + count[..];
      r := r + 1;
    }
  }

  /** What an IO task other than 0 reports to task 0, in this order. */
  ghost function Report(sh: Shape, nvars: nat, s: Share, ioRank: nat, numIotasks: nat, maxregions: nat): seq<Message>
    requires ValidShape(sh) && ValidShare(sh, nvars, s)
  {
    [Message(ioRank, Length(s.llen))] +
    if s.llen == 0 then []
    else [
      Message(ioRank + numIotasks, RegionCount(maxregions)),
      Message(ioRank + 2 * numIotasks, Starts(Flatten(StartRows(sh, s, maxregions)))),
      Message(ioRank + 3 * numIotasks, Counts(Flatten(CountRows(sh, s, maxregions)))),
      Message(ioRank + 4 * numIotasks, Data(s.iobuf[..nvars * s.llen]))]
  }

  lemma ReportTag(sh: Shape, nvars: nat, s: Share, rank: nat, k: nat, numIotasks: nat, maxregions: nat)
    requires ValidShape(sh) && ValidShare(sh, nvars, s)
    requires k < |Report(sh, nvars, s, rank, numIotasks, maxregions)|
    ensures Report(sh, nvars, s, rank, numIotasks, maxregions)[k].tag == rank + k * numIotasks
  {
    assert k == 0 || k == 1 || k == 2 || k == 3 || k == 4;
  }

  /** No two messages of the reports of all tasks have the same tag. */
  lemma ReportTags(
    sh: Shape, nvars: nat, s: Share, rank: nat, k: nat, s': Share, rank': nat, k': nat, numIotasks: nat,
    maxregions: nat)
    requires ValidShape(sh) && ValidShare(sh, nvars, s) && ValidShare(sh, nvars, s')
    requires rank < numIotasks && k < |Report(sh, nvars, s, rank, numIotasks, maxregions)|
    requires rank' < numIotasks && k' < |Report(sh, nvars, s', rank', numIotasks, maxregions)|
    ensures Report(sh, nvars, s, rank, numIotasks, maxregions)[k].tag == rank + k * numIotasks
    ensures var a, b := Report(sh, nvars, s, rank, numIotasks, maxregions),
        Report(sh, nvars, s', rank', numIotasks, maxregions);
      a[k].tag == b[k'].tag <==> rank == rank' && k == k'
  {
    ReportTag(sh, nvars, s, rank, k, numIotasks, maxregions);
    ReportTag(sh, nvars, s', rank', k', numIotasks, maxregions);
    if rank + k * numIotasks == rank' + k' * numIotasks {
      TagsDistinct(rank, k, rank', k', numIotasks);
    }
  }

  method SendAllStartCount(
    sh: Shape, nvars: nat, s: Share, ioRank: nat, numIotasks: nat, maxregions: nat, tmpStart: seq<int>,
    tmpCount: seq<nat>)
    returns (sent: seq<Message>)
    requires ValidShape(sh) && ValidShare(sh, nvars, s)
    requires tmpStart == Flatten(StartRows(sh, s, maxregions)) && tmpCount == Flatten(CountRows(sh, s, maxregions))
    ensures sent == Report(sh, nvars, s, ioRank, numIotasks, maxregions)
  {
    sent := [Message(ioRank, Length(s.llen))];
    if s.llen > 0 {
      sent := sent + [Message(ioRank + numIotasks, RegionCount(maxregions))];
      sent := sent + [Message(ioRank + 2 * numIotasks, Starts(tmpStart))];
      sent := sent + [Message(ioRank + 3 * numIotasks, Counts(tmpCount))];
      sent := sent + [Message(ioRank + 4 * numIotasks, Data(s.iobuf[..nvars * s.llen]))];
    }
  }

  /** The start of a region for variable `nv` as the serial loop leaves it after `nv` variables. */
  function SerialStart(sh: Shape, b: Batch, region: Option<Region>, nv: nat): (r: seq<int>)
    requires ValidShape(sh) && ValidBatch(sh, b) && ValidRegion(sh, region) && nv <= |b.varids|
    ensures |r| == sh.fndims
  {
    var row := RowStart(sh, region);
    if nv == 0 then row
    else if RecordSlot(sh, RowCount(sh, region)) then row[0 := b.frame[nv - 1]]
    else if sh.record >= 0 && sh.fndims == sh.ndims then row[0 := row[0] + nv * sh.record]
    else row
  }

  lemma SerialStartMeaning(sh: Shape, b: Batch, region: Region, nv: nat)
    requires ValidShape(sh) && ValidBatch(sh, b) && ValidRegion(sh, Some(region)) && nv < |b.varids|
    requires Stores(sh) && Product(region.count) > 0
    ensures SerialStart(sh, b, Some(region), nv + 1) == PutStart(sh, b, region, nv, nv + 1)
  {
    if sh.fndims == sh.ndims {
      assert RowStart(sh, Some(region)) == region.start;
    } else {
      if region.count[0] == 0 {
        ProductOfZero(region.count, 0);
      }
      assert RowCount(sh, Some(region)) == [0] + region.count;
      assert RowStart(sh, Some(region)) == [0] + region.start;
    }
  }

  /** Whether the loop over the dimensions leaves `needtowrite` true. */
  ghost predicate NeedToWrite(sh: Shape, count: seq<nat>) {
    forall i :: 0 <= i < |count| && (i > 0 || sh.record < 0) ==> count[i] > 0
  }

  /** A region that is skipped holds no element. */
  lemma SkippedIsEmpty(sh: Shape, region: Option<Region>)
    requires ValidShape(sh) && ValidRegion(sh, region)
    requires !NeedToWrite(sh, RowCount(sh, region))
    ensures Product(FileCount(sh, region)) == 0
  {
    var row := RowCount(sh, region);
    var i :| 0 <= i < |row| && (i > 0 || sh.record < 0) && row[i] == 0;
    ProductOfZero(FileCount(sh, region), i);
  }

  /** The buffer of task 0 starts with the data of the share that is being written. */
  ghost predicate Holds(sh: Shape, b: Batch, s: Share, iobuf: seq<Value>) {
    ValidWrite(sh, b, s) && |b.varids| * s.llen <= |iobuf| &&
    iobuf[..|b.varids| * s.llen] == s.iobuf[..|b.varids| * s.llen]
  }

  lemma PrefixSlice(a: seq<Value>, b: seq<Value>, n: nat, from: nat, to: nat)
    requires from <= to <= n <= |a| && n <= |b| && a[..n] == b[..n]
    ensures a[from..to] == b[from..to]
  {
    SliceOfPrefix(a, n, from, to);
    SliceOfPrefix(b, n, from, to);
  }

  lemma RegionRange(sh: Shape, s: Share, r: nat, nv: nat, nvars: nat)
    requires ValidRegions(sh.ndims, s.regions, s.llen) && r < |s.regions| && nv < nvars
    ensures 0 <= nv * s.llen
    ensures nv * s.llen + s.regions[r].loffset + Product(s.regions[r].count) <= nvars * s.llen
  {
    RegionFits(sh.ndims, s.regions, s.llen, r);
    BufferBounds(nvars, s.llen, nv, s.regions[r].loffset, Product(s.regions[r].count), nvars * s.llen);
  }

  /** The data of variable `nv` for region `r` in the buffer of task 0. */
  lemma BufferedData(sh: Shape, b: Batch, s: Share, r: nat, nv: nat, iobuf: seq<Value>)
    requires Holds(sh, b, s, iobuf) && r < |s.regions| && nv < |b.varids|
    ensures 0 <= nv * s.llen
    ensures nv * s.llen + s.regions[r].loffset + Product(s.regions[r].count) <= |iobuf|
    ensures nv * s.llen + s.regions[r].loffset + Product(s.regions[r].count) <= |s.iobuf|
    ensures RegionData(s.(iobuf := iobuf), s.regions[r], nv) == RegionData(s, s.regions[r], nv)
  {
    RegionRange(sh, s, r, nv, |b.varids|);
    var from := nv * s.llen + s.regions[r].loffset;
    PrefixSlice(iobuf, s.iobuf, |b.varids| * s.llen, from, from + Product(s.regions[r].count));
  }

  /** A call with data writes a region of the share, with the record added once more for every variable. */
  lemma SerialPut(sh: Shape, b: Batch, s: Share, r: nat, nv: nat)
    requires ValidWrite(sh, b, s) && nv < |b.varids|
    requires Product(FileCount(sh, RegionAt(s, r))) > 0
    ensures Stores(sh) && r < |s.regions| && Product(s.regions[r].count) > 0
    ensures FileCount(sh, RegionAt(s, r)) == PutCount(sh, s.regions[r])
    ensures SerialStart(sh, b, RegionAt(s, r), nv + 1) == PutStart(sh, b, s.regions[r], nv, nv + 1)
  {
    NoRegionNoData(sh);
    FileCountMeaning(sh, s.regions[r]);
    SerialStartMeaning(sh, b, s.regions[r], nv);
  }

  /** The puts of region `r` that the serial writer has issued after `nv` variables. */
  ghost function SerialPuts(sh: Shape, b: Batch, s: Share, r: nat, nv: nat): (ps: seq<Put>)
    requires ValidWrite(sh, b, s) && nv <= |b.varids|
    ensures forall p :: p in ps ==> ValidPut(p)
  {
    if r < |s.regions| then PutsOfRegion(sh, b, s, r, nv, true) else []
  }

  lemma SerialPutsSame(sh: Shape, b: Batch, s: Share, r: nat, nv: nat)
    requires ValidWrite(sh, b, s) && nv < |b.varids|
    requires Product(FileCount(sh, RegionAt(s, r))) == 0
    ensures SerialPuts(sh, b, s, r, nv + 1) == SerialPuts(sh, b, s, r, nv)
  {
    if r < |s.regions| {
      FileCountMeaning(sh, s.regions[r]);
      if Stores(sh) && Product(s.regions[r].count) > 0 {
        assert false;
      }
    }
  }

  lemma SerialPutsSnoc(sh: Shape, b: Batch, s: Share, r: nat, nv: nat)
    requires ValidWrite(sh, b, s) && r < |s.regions| && nv < |b.varids|
    requires Stores(sh) && Product(s.regions[r].count) > 0
    ensures SerialPuts(sh, b, s, r, nv + 1) == SerialPuts(sh, b, s, r, nv) + [RegionPut(sh, b, s, r, nv, nv + 1)]
  {
  }

  method CheckNeedToWrite(sh: Shape, count: seq<nat>) returns (needtowrite: bool)
    ensures needtowrite <==> NeedToWrite(sh, count)
  {
    needtowrite := true;
    for i := 0 to |count|
      invariant needtowrite <==> forall k :: 0 <= k < i && (k > 0 || sh.record < 0) ==> count[k] > 0
    {
      if i > 0 || sh.record < 0 {
        needtowrite := count[i] > 0 && needtowrite;
      }
    }
  }

  lemma SerialStartSteps(sh: Shape, b: Batch, region: Option<Region>, nv: nat)
    requires ValidShape(sh) && ValidBatch(sh, b) && ValidRegion(sh, region) && nv < |b.varids|
    ensures var start, next := SerialStart(sh, b, region, nv), SerialStart(sh, b, region, nv + 1);
      if RecordSlot(sh, RowCount(sh, region)) then next == start[0 := b.frame[nv]]
      else if sh.record >= 0 && sh.fndims == sh.ndims then next == start[0 := start[0] + sh.record]
      else next == start
  {
    assert nv * sh.record + sh.record == (nv + 1) * sh.record;
  }

  /** The effect of variable `nv` of region `r` on a file. */
  ghost function AfterVariable(sh: Shape, b: Batch, s: Share, r: nat, nv: nat, file: FileData): FileData
    requires ValidWrite(sh, b, s) && nv < |b.varids|
  {
    if r < |s.regions| && Stores(sh) && Product(FileCount(sh, RegionAt(s, r))) > 0
    then file + Patch(RegionPut(sh, b, s, r, nv, nv + 1)) else file
  }

  /** One `nc_put_vara`, out of the buffer of task 0. */
  method PutVariable(
    file: NcFile, sh: Shape, b: Batch, nv: nat, rlen: nat, loffset: nat, start: seq<int>, count: seq<nat>,
    iobuf: seq<Value>, ghost s: Share, ghost r: nat)
    requires Holds(sh, b, s, iobuf) && rlen == s.llen && nv < |b.varids|
    requires start == SerialStart(sh, b, RegionAt(s, r), nv + 1) && count == FileCount(sh, RegionAt(s, r))
    requires Stores(sh) && r < |s.regions| ==> loffset == s.regions[r].loffset
    modifies file
    ensures file.data == AfterVariable(sh, b, s, r, nv, old(file.data))
  {
    var data: seq<Value> := [];
    if Product(count) > 0 {
      SerialPut(sh, b, s, r, nv);
      PutCountProduct(sh, s.regions[r]);
      BufferedData(sh, b, s, r, nv, iobuf);
      data := iobuf[nv * rlen + loffset..nv * rlen + loffset + Product(count)];
      assert Put(b.varids[nv], start, count, data) == RegionPut(sh, b, s, r, nv, nv + 1);
    } else {
      EmptyPatch(Put(b.varids[nv], start, count, data));
    }
    file.PutVara(b.varids[nv], start, count, data);
  }

  /** The file after the puts of the first `nv` variables of a region. */
  ghost function AfterVariables(sh: Shape, b: Batch, s: Share, r: nat, nv: nat, file: FileData): FileData
    requires ValidWrite(sh, b, s) && nv <= |b.varids|
  {
    ApplyAll(file, SerialPuts(sh, b, s, r, nv))
  }

  lemma PutsAdvance(sh: Shape, b: Batch, s: Share, r: nat, nv: nat, file: FileData)
    requires ValidWrite(sh, b, s) && nv < |b.varids|
    ensures AfterVariables(sh, b, s, r, nv + 1, file) ==
      AfterVariable(sh, b, s, r, nv, AfterVariables(sh, b, s, r, nv, file))
  {
    if Product(FileCount(sh, RegionAt(s, r))) > 0 {
      SerialPut(sh, b, s, r, nv);
      SerialPutsSnoc(sh, b, s, r, nv);
      ApplyAllSnoc(file, SerialPuts(sh, b, s, r, nv), RegionPut(sh, b, s, r, nv, nv + 1));
    } else {
      SerialPutsSame(sh, b, s, r, nv);
    }
  }

  /** One turn of the loop over the variables; the start and count arrays carry over to the next. */
  method WriteVariable(
    file: NcFile, sh: Shape, b: Batch, nv: nat, rlen: nat, loffset: nat, start0: seq<int>, count0: seq<nat>,
    iobuf: seq<Value>, needtowrite: bool, ghost s: Share, ghost r: nat, ghost before: FileData)
    returns (start: seq<int>, count: seq<nat>)
    requires Holds(sh, b, s, iobuf) && rlen == s.llen && nv < |b.varids|
    requires start0 == SerialStart(sh, b, RegionAt(s, r), nv)
    requires count0 == RowCount(sh, RegionAt(s, r)) || (nv > 0 && count0 == FileCount(sh, RegionAt(s, r)))
    requires Stores(sh) && r < |s.regions| ==> loffset == s.regions[r].loffset
    requires needtowrite || Product(FileCount(sh, RegionAt(s, r))) == 0
    requires file.data == AfterVariables(sh, b, s, r, nv, before)
    modifies file
    ensures start == SerialStart(sh, b, RegionAt(s, r), nv + 1) && count == FileCount(sh, RegionAt(s, r))
    ensures file.data == AfterVariables(sh, b, s, r, nv + 1, before)
  {
    start, count := start0, count0;
    SerialStartSteps(sh, b, RegionAt(s, r), nv);
    if sh.record >= 0 {
      if sh.fndims > 1 && sh.ndims < sh.fndims && count[1] > 0 {
        count := count[0 := 1];
        start := start[0 := b.frame[nv]];
      } else if sh.fndims == sh.ndims {
        start := start[0 := start[0] + sh.record];
      }
    }
    if needtowrite {
      PutVariable(file, sh, b, nv, rlen, loffset, start, count, iobuf, s, r);
    }
    PutsAdvance(sh, b, s, r, nv, before);
  }

  /** Writes all variables of one region and returns the number of elements this takes in the buffer. */
  method WriteRegion(
    file: NcFile, sh: Shape, b: Batch, rlen: nat, loffset: nat, start0: seq<int>, count0: seq<nat>, iobuf: seq<Value>,
    ghost s: Share, ghost r: nat) returns (tsize: nat)
    requires Holds(sh, b, s, iobuf) && rlen == s.llen
    requires start0 == RowStart(sh, RegionAt(s, r)) && count0 == RowCount(sh, RegionAt(s, r))
    requires Stores(sh) && r < |s.regions| ==> loffset == s.regions[r].loffset
    modifies file
    ensures file.data == AfterVariables(sh, b, s, r, |b.varids|, old(file.data))
    ensures tsize == Product(FileCount(sh, RegionAt(s, r)))
  {
    var start, count := start0, count0;
    var needtowrite := CheckNeedToWrite(sh, count);
    if !needtowrite {
      SkippedIsEmpty(sh, RegionAt(s, r));
    }
    var nv := 0;
    while nv < |b.varids|
      invariant 0 <= nv <= |b.varids| && start == SerialStart(sh, b, RegionAt(s, r), nv)
      invariant count == if nv == 0 then count0 else FileCount(sh, RegionAt(s, r))
      invariant file.data == AfterVariables(sh, b, s, r, nv, old(file.data))
    {
      start, count :=
        WriteVariable(file, sh, b, nv, rlen, loffset, start, count, iobuf, needtowrite, s, r, old(file.data));
      nv := nv + 1;
    }
    tsize := Product(count);
  }

  lemma RegionOffsetSteps(sh: Shape, s: Share, r: nat)
    requires ValidShape(sh) && ValidRegions(sh.ndims, s.regions, s.llen)
    ensures Stores(sh) && r < |s.regions| ==>
      s.regions[r].loffset + Product(FileCount(sh, RegionAt(s, r))) == Sum(Sizes(s.regions)[..r + 1])
  {
    if r < |s.regions| {
      FileCountMeaning(sh, s.regions[r]);
      assert InOrder(s.regions, r);
      SumSnoc(Sizes(s.regions), r);
    }
  }

  ghost function SerialSharePuts(sh: Shape, b: Batch, s: Share, n: nat): (ps: seq<Put>)
    requires ValidWrite(sh, b, s)
    ensures forall p :: p in ps ==> ValidPut(p)
  {
    PutsOfShare(sh, b, s, Covered(s, n), true)
  }

  /** The file after the puts of the first `n` regions of a task. */
  ghost function AfterRegions(sh: Shape, b: Batch, s: Share, n: nat, file: FileData): FileData
    requires ValidWrite(sh, b, s)
  {
    ApplyAll(file, SerialSharePuts(sh, b, s, n))
  }

  lemma SerialSharePutsSnoc(sh: Shape, b: Batch, s: Share, n: nat, file: FileData)
    requires ValidWrite(sh, b, s)
    ensures AfterRegions(sh, b, s, n + 1, file) ==
      AfterVariables(sh, b, s, n, |b.varids|, AfterRegions(sh, b, s, n, file))
  {
    if n < |s.regions| {
      PutsOfShareSnoc(sh, b, s, n + 1, true);
      ApplyAllAppend(file, SerialSharePuts(sh, b, s, n), SerialPuts(sh, b, s, n, |b.varids|));
    }
  }

  /** The running offset when region `r` is next; it matters as long as there are regions to store. */
  ghost predicate OffsetAt(sh: Shape, s: Share, r: nat, loffset: nat) {
    Stores(sh) && r <= |s.regions| ==> loffset == Sum(Sizes(s.regions)[..r])
  }

  /** Row `r` of an array of rows; the rows are found at multiples of their length. */
  function RowAt<T>(rows: seq<T>, r: nat, width: nat): seq<T>
    requires r * width + width <= |rows|
  {
    var at := r * width;
    assert at >= 0;
    rows[at..at + width]
  }

  lemma RowOfPrefix<T>(rows: seq<seq<T>>, width: nat, r: nat, whole: seq<T>)
    requires (forall i :: 0 <= i < |rows| ==> |rows[i]| == width) && r < |rows| && Flatten(rows) <= whole
    ensures r * width + width <= |whole| && RowAt(whole, r, width) == rows[r]
  {
    FlattenRow(rows, width, r);
    SliceOfPrefix(whole, |Flatten(rows)|, r * width, r * width + width);
  }

  lemma RowsOfTask(sh: Shape, s: Share, n: nat, r: nat, tmpStart: seq<int>, tmpCount: seq<nat>)
    requires ValidShape(sh) && ValidRegions(sh.ndims, s.regions, s.llen) && r < n
    requires Flatten(StartRows(sh, s, n)) <= tmpStart && Flatten(CountRows(sh, s, n)) <= tmpCount
    ensures r * sh.fndims + sh.fndims <= |tmpStart| && r * sh.fndims + sh.fndims <= |tmpCount|
    ensures RowAt(tmpStart, r, sh.fndims) == RowStart(sh, RegionAt(s, r))
    ensures RowAt(tmpCount, r, sh.fndims) == RowCount(sh, RegionAt(s, r))
  {
    RowOfPrefix(StartRows(sh, s, n), sh.fndims, r, tmpStart);
    RowOfPrefix(CountRows(sh, s, n), sh.fndims, r, tmpCount);
  }

  /** Takes one row of the arrays and writes its region. */
  method WriteReported(
    file: NcFile, sh: Shape, b: Batch, rlen: nat, r: nat, tmpStart: seq<int>, tmpCount: seq<nat>, iobuf: seq<Value>,
    loffset: nat, ghost s: Share, ghost rregions: nat) returns (next: nat)
    requires Holds(sh, b, s, iobuf) && rlen == s.llen && r < rregions
    requires Flatten(StartRows(sh, s, rregions)) <= tmpStart
    requires Flatten(CountRows(sh, s, rregions)) <= tmpCount
    requires OffsetAt(sh, s, r, loffset)
    modifies file
    ensures file.data == AfterVariables(sh, b, s, r, |b.varids|, old(file.data))
    ensures OffsetAt(sh, s, r + 1, next)
  {
    RowsOfTask(sh, s, rregions, r, tmpStart, tmpCount);
    assert r < |s.regions| ==> InOrder(s.regions, r);
    var tsize := WriteRegion(file, sh, b, rlen, loffset,
      RowAt(tmpStart, r, sh.fndims), RowAt(tmpCount, r, sh.fndims), iobuf, s, r);
    RegionOffsetSteps(sh, s, r);
    next := loffset + tsize;
  }

  /** Writes all regions that one task reported. The running offset follows the regions' own offsets. */
  method WriteTask(
    file: NcFile, sh: Shape, b: Batch, rlen: nat, rregions: nat, tmpStart: seq<int>, tmpCount: seq<nat>,
    iobuf: seq<Value>, ghost s: Share)
    requires Holds(sh, b, s, iobuf) && rlen == s.llen && |s.regions| <= rregions
    requires Flatten(StartRows(sh, s, rregions)) <= tmpStart
    requires Flatten(CountRows(sh, s, rregions)) <= tmpCount
    modifies file
    ensures file.data == ApplyAll(old(file.data), PutsOfShare(sh, b, s, |s.regions|, true))
  {
    var loffset := 0;
    var regioncnt := 0;
    while regioncnt < rregions
      invariant 0 <= regioncnt <= rregions && OffsetAt(sh, s, regioncnt, loffset)
      invariant file.data == AfterRegions(sh, b, s, regioncnt, old(file.data))
    {
      loffset := WriteReported(file, sh, b, rlen, regioncnt, tmpStart, tmpCount, iobuf, loffset, s, rregions);
      SerialSharePutsSnoc(sh, b, s, regioncnt, old(file.data));
      regioncnt := regioncnt + 1;
    }
  }

  /** Receives into the front of a buffer; what lies beyond keeps its old contents. */
  function Overwrite<T>(buf: seq<T>, data: seq<T>): (r: seq<T>)
    requires |data| <= |buf|
    ensures |r| == |buf| && data <= r
  {
    data + buf[|data|..]
  }

  /** What IO task 0 works with: the messages that every other task has sent. */
  ghost predicate Reported(
    sh: Shape, b: Batch, shares: seq<Share>, maxregions: nat, maxiobuflen: nat, inboxes: seq<seq<Message>>) {
    |inboxes| == |shares| > 0 && ValidWrites(sh, b, shares) &&
    (forall t :: 0 <= t < |shares| ==> |shares[t].regions| <= maxregions && shares[t].llen <= maxiobuflen) &&
    forall t :: 0 < t < |shares| ==> inboxes[t] == Report(sh, |b.varids|, shares[t], t, |shares|, maxregions)
  }

  /** A task without data contributes no put, whatever region rows it has. */
  lemma NoDataNoPuts(sh: Shape, b: Batch, s: Share)
    requires ValidWrite(sh, b, s) && s.llen == 0
    ensures PutsOfShare(sh, b, s, |s.regions|, true) == []
  {
    var ps := PutsOfShare(sh, b, s, |s.regions|, true);
    if ps != [] {
      assert ps[0] in ps;
      var r, nv := PutsOfShareMembers(sh, b, s, true, ps[0]);
      RegionFits(sh.ndims, s.regions, s.llen, r);
      assert false;
    }
  }

  /** Takes the messages of task `rtask` off its queue, in the order in which the task sent them. */
  method ReceiveReport(
    inbox: seq<Message>, rtask: nat, numIotasks: nat, tmpStart: seq<int>, tmpCount: seq<nat>, iobuf: seq<Value>,
    ghost sh: Shape, ghost nvars: nat, ghost s: Share, ghost maxregions: nat)
    returns (rlen: nat, rregions: nat, tmpStart': seq<int>, tmpCount': seq<nat>, iobuf': seq<Value>)
    requires ValidShape(sh) && ValidShare(sh, nvars, s)
    requires inbox == Report(sh, nvars, s, rtask, numIotasks, maxregions)
    requires |tmpStart| == |tmpCount| == maxregions * sh.fndims && nvars * s.llen <= |iobuf|
    ensures rlen == s.llen
    ensures |tmpStart'| == |tmpCount'| == maxregions * sh.fndims && |iobuf'| == |iobuf|
    ensures rlen > 0 ==> rregions == maxregions
    ensures rlen > 0 ==> Flatten(StartRows(sh, s, maxregions)) <= tmpStart'
    ensures rlen > 0 ==> Flatten(CountRows(sh, s, maxregions)) <= tmpCount'
    ensures rlen > 0 ==> s.iobuf[..nvars * s.llen] <= iobuf'
  {
    FlattenWidth(StartRows(sh, s, maxregions), sh.fndims);
    FlattenWidth(CountRows(sh, s, maxregions), sh.fndims);
    rregions, tmpStart', tmpCount', iobuf' := 0, tmpStart, tmpCount, iobuf;
    assert inbox[0].tag == rtask;
    rlen := inbox[0].body.n;
    if rlen > 0 {
      assert inbox[1].tag == rtask + numIotasks && inbox[2].tag == rtask + 2 * numIotasks;
      assert inbox[3].tag == rtask + 3 * numIotasks && inbox[4].tag == rtask + 4 * numIotasks;
      rregions := inbox[1].body.n;
      tmpStart' := Overwrite(tmpStart, inbox[2].body.starts);
      tmpCount' := Overwrite(tmpCount, inbox[3].body.counts);
      iobuf' := Overwrite(iobuf, inbox[4].body.data);
    }
  }

  /** One turn of task 0: take over the data of task `rtask`, its own first, and write it. */
  method ServeTask(
    file: NcFile, sh: Shape, b: Batch, maxregions: nat, tmpStart0: seq<int>, tmpCount0: seq<nat>, iobuf0: seq<Value>,
    own: Share, inboxes: seq<seq<Message>>, rtask: nat, ghost shares: seq<Share>, ghost maxiobuflen: nat)
    returns (tmpStart: seq<int>, tmpCount: seq<nat>, iobuf: seq<Value>)
    requires Reported(sh, b, shares, maxregions, maxiobuflen, inboxes) && own == shares[0]
    requires |b.varids| * maxiobuflen <= |own.iobuf| == |iobuf0| && rtask < |inboxes|
    requires |tmpStart0| == |tmpCount0| == maxregions * sh.fndims
    requires rtask == 0 ==> iobuf0 == own.iobuf
    requires rtask == 0 ==> tmpStart0 == Flatten(StartRows(sh, own, maxregions))
    requires rtask == 0 ==> tmpCount0 == Flatten(CountRows(sh, own, maxregions))
    modifies file
    ensures |tmpStart| == |tmpCount| == maxregions * sh.fndims && |iobuf| == |own.iobuf|
    ensures file.data == ApplyAll(old(file.data), PutsOfShare(sh, b, shares[rtask], |shares[rtask].regions|, true))
  {
    var rlen, rregions := own.llen, maxregions;
    tmpStart, tmpCount, iobuf := tmpStart0, tmpCount0, iobuf0;
    MulMonotone(|b.varids|, shares[rtask].llen, maxiobuflen);
    if rtask > 0 {
      rlen, rregions, tmpStart, tmpCount, iobuf := ReceiveReport(inboxes[rtask], rtask, |inboxes|,
        tmpStart, tmpCount, iobuf, sh, |b.varids|, shares[rtask], maxregions);
    }
    if rlen > 0 {
      WriteTask(file, sh, b, rlen, rregions, tmpStart, tmpCount, iobuf, shares[rtask]);
    } else {
      NoDataNoPuts(sh, b, shares[rtask]);
    }
  }

  /** The file after the first `n` tasks' puts. */
  ghost function AfterTasks(sh: Shape, b: Batch, shares: seq<Share>, n: nat, file: FileData): FileData
    requires ValidWrites(sh, b, shares) && n <= |shares|
  {
    ApplyAll(file, PutsOfTasks(sh, b, shares, n, true))
  }

  lemma TasksAdvance(sh: Shape, b: Batch, shares: seq<Share>, t: nat, file: FileData)
    requires ValidWrites(sh, b, shares) && t < |shares|
    ensures AfterTasks(sh, b, shares, t + 1, file) ==
      ApplyAll(AfterTasks(sh, b, shares, t, file), PutsOfShare(sh, b, shares[t], |shares[t].regions|, true))
  {
    PutsOfTasksSnoc(sh, b, shares, t + 1, true);
    ApplyAllAppend(file, PutsOfTasks(sh, b, shares, t, true), PutsOfShare(sh, b, shares[t], |shares[t].regions|, true));
  }

  /** The arrays of task 0 have their size, and before the first turn they hold its own data. */
  ghost predicate OwnFirst(
    sh: Shape, own: Share, maxregions: nat, rtask: nat, tmpStart: seq<int>, tmpCount: seq<nat>, iobuf: seq<Value>)
    requires ValidShape(sh) && ValidRegions(sh.ndims, own.regions, own.llen)
  {
    |tmpStart| == |tmpCount| == maxregions * sh.fndims && |iobuf| == |own.iobuf| &&
    (rtask == 0 ==> iobuf == own.iobuf) &&
    (rtask == 0 ==> tmpStart == Flatten(StartRows(sh, own, maxregions))) &&
    (rtask == 0 ==> tmpCount == Flatten(CountRows(sh, own, maxregions)))
  }

  lemma OwnIsFirst(sh: Shape, own: Share, maxregions: nat)
    requires ValidShape(sh) && ValidRegions(sh.ndims, own.regions, own.llen)
    ensures OwnFirst(sh, own, maxregions, 0, Flatten(StartRows(sh, own, maxregions)),
                     Flatten(CountRows(sh, own, maxregions)), own.iobuf)
  {
    FlattenWidth(StartRows(sh, own, maxregions), sh.fndims);
    FlattenWidth(CountRows(sh, own, maxregions), sh.fndims);
  }

  lemma NoTasksNoPuts(sh: Shape, b: Batch, shares: seq<Share>)
    requires ValidWrites(sh, b, shares)
    ensures forall file: FileData :: AfterTasks(sh, b, shares, 0, file) == file
  {
  }

  /** One turn, and what the file holds after it. */
  method ServeNext(
    file: NcFile, sh: Shape, b: Batch, maxregions: nat, tmpStart0: seq<int>, tmpCount0: seq<nat>, iobuf0: seq<Value>,
    own: Share, inboxes: seq<seq<Message>>, rtask: nat, ghost shares: seq<Share>, ghost maxiobuflen: nat,
    ghost before: FileData)
    returns (tmpStart: seq<int>, tmpCount: seq<nat>, iobuf: seq<Value>)
    requires Reported(sh, b, shares, maxregions, maxiobuflen, inboxes) && own == shares[0]
    requires |b.varids| * maxiobuflen <= |own.iobuf| && rtask < |inboxes|
    requires OwnFirst(sh, own, maxregions, rtask, tmpStart0, tmpCount0, iobuf0)
    requires file.data == AfterTasks(sh, b, shares, rtask, before)
    modifies file
    ensures OwnFirst(sh, own, maxregions, rtask + 1, tmpStart, tmpCount, iobuf)
    ensures file.data == AfterTasks(sh, b, shares, rtask + 1, before)
  {
    tmpStart, tmpCount, iobuf := ServeTask(file, sh, b, maxregions, tmpStart0, tmpCount0, iobuf0, own, inboxes, rtask,
      shares, maxiobuflen);
    TasksAdvance(sh, b, shares, rtask, before);
  }

  /**
   * Task 0 writes its own data, then what it receives from each other task in turn, reusing its
   * arrays and buffer, which are large enough for every task. The file ends up with the puts of all tasks.
   */
  method RecvAndWriteData(
    file: NcFile, sh: Shape, b: Batch, maxregions: nat, tmpStart0: seq<int>, tmpCount0: seq<nat>, own: Share,
    inboxes: seq<seq<Message>>, ghost shares: seq<Share>, ghost maxiobuflen: nat)
    requires Reported(sh, b, shares, maxregions, maxiobuflen, inboxes) && own == shares[0]
    requires |b.varids| * maxiobuflen <= |own.iobuf|
    requires tmpStart0 == Flatten(StartRows(sh, own, maxregions))
    requires tmpCount0 == Flatten(CountRows(sh, own, maxregions))
    modifies file
    ensures file.data == ApplyAll(old(file.data), PutsOfTasks(sh, b, shares, |shares|, true))
  {
    var tmpStart, tmpCount, iobuf := tmpStart0, tmpCount0, own.iobuf;
    OwnIsFirst(sh, own, maxregions);
    NoTasksNoPuts(sh, b, shares);
    var rtask := 0;
    while rtask < |inboxes|
      invariant 0 <= rtask <= |inboxes| && OwnFirst(sh, own, maxregions, rtask, tmpStart, tmpCount, iobuf)
      invariant file.data == AfterTasks(sh, b, shares, rtask, old(file.data))
    {
      tmpStart, tmpCount, iobuf := ServeNext(file, sh, b, maxregions, tmpStart, tmpCount, iobuf, own, inboxes, rtask,
        shares, maxiobuflen, old(file.data));
      rtask := rtask + 1;
    }
  }
}

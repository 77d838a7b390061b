/** Writing and then reading with the same decomposition and record restores every task's buffer. */
module RoundTrip {
  import opened Sequences
  import opened Hyperslabs
  import opened Decomposition
  import opened Interleaving
  import opened Reader
  import opened PnetcdfWriter
  import opened SerialReader
  import opened WriterAgreement

  /** The shape to read variable `nv` of a batch back with: its own record, if there is a record dimension. */
  function ReadShape(sh: Shape, b: Batch, nv: nat): Shape
    requires ValidBatch(sh, b) && nv < |b.varids|
  {
    if sh.ndims < sh.fndims && sh.record >= 0 then sh.(record := b.frame[nv]) else sh
  }

  /** Entry `nv` of the batch is one that the reader looks for where the writer puts it. */
  predicate LooksWhereWritten(sh: Shape, b: Batch, nv: nat) {
    ValidBatch(sh, b) && nv < |b.varids| && Readable(ReadShape(sh, b, nv)) && ReadsBack(ReadShape(sh, b, nv))
  }

  /** Reader and writer have the same idea of where variable `nv` of a region is. */
  lemma SamePlace(sh: Shape, b: Batch, s: Share, r: nat, nv: nat)
    requires ValidWrite(sh, b, s) && r < |s.regions|
    requires LooksWhereWritten(sh, b, nv)
    ensures var p, rs := RegionPut(sh, b, s, r, nv, 1), ReadShape(sh, b, nv);
      p.start == PutStart(rs, OneVariable(rs, b.varids[nv]), s.regions[r], 0, 1) &&
      p.count == PutCount(rs, s.regions[r])
  {
  }

  /** The last of the first `n` entries of the batch that is the same record of the same variable as entry `nv`. */
  function LatestOf(sh: Shape, b: Batch, nv: nat, n: nat): (l: nat)
    requires ValidBatch(sh, b) && nv < n <= |b.varids|
    ensures nv <= l < n && SameTarget(sh, b, nv, l)
  {
    if n == nv + 1 || SameTarget(sh, b, nv, n - 1) then n - 1 else LatestOf(sh, b, nv, n - 1)
  }

  lemma {:induction false} LatestIsLast(sh: Shape, b: Batch, nv: nat, n: nat, j: nat)
    requires ValidBatch(sh, b) && nv < n <= |b.varids| && LatestOf(sh, b, nv, n) < j < n
    ensures !SameTarget(sh, b, LatestOf(sh, b, nv, n), j)
  {
    if n == nv + 1 {
    } else if j < n - 1 {
      LatestIsLast(sh, b, nv, n - 1, j);
    }
  }

  /** The entry whose data stays in the file: a batch may hold the same record of a variable several times. */
  function Latest(sh: Shape, b: Batch, nv: nat): (l: nat)
    requires ValidBatch(sh, b) && nv < |b.varids|
    ensures nv <= l < |b.varids| && SameTarget(sh, b, nv, l)
  {
    LatestOf(sh, b, nv, |b.varids|)
  }

  lemma DistinctIsLatest(sh: Shape, b: Batch, nv: nat)
    requires DistinctTargets(sh, b) && nv < |b.varids|
    ensures Latest(sh, b, nv) == nv
  {
  }

  lemma OtherTarget(sh: Shape, b: Batch, s: Share, r: nat, l: nat, j: nat, k: Key)
    requires ValidWrite(sh, b, s) && Stores(sh) && r < |s.regions| && l < |b.varids| && j < |b.varids|
    requires !SameTarget(sh, b, l, j) && Touches(RegionPut(sh, b, s, r, l, 1), k)
    ensures !Touches(RegionPut(sh, b, s, r, j, 1), k)
  {
    PatchKeys(RegionPut(sh, b, s, r, l, 1), k);
    PatchKeys(RegionPut(sh, b, s, r, j, 1), k);
    if Touches(RegionPut(sh, b, s, r, j, 1), k) {
      SameRegionSameTarget(sh, b, s, r, l, j, k.1);
    }
  }

  /** Of one region, entry `l` is the last to touch a key of its own, if the entries after it have other targets. */
  lemma RegionEndsWith(sh: Shape, b: Batch, s: Share, r: nat, l: nat, k: Key)
    requires ValidWrite(sh, b, s) && Stores(sh) && r < |s.regions| && Product(s.regions[r].count) > 0
    requires l < |b.varids| && Touches(RegionPut(sh, b, s, r, l, 1), k)
    requires forall j :: l < j < |b.varids| ==> !SameTarget(sh, b, l, j)
    ensures EndsWith(Touching(PutsOfRegion(sh, b, s, r, |b.varids|, false), k), RegionPut(sh, b, s, r, l, 1))
  {
    var puts := PutsOfRegion(sh, b, s, r, |b.varids|, false);
    forall j | l < j < |puts| ensures !Touches(puts[j], k) {
      OtherTarget(sh, b, s, r, l, j, k);
    }
    LastToucher(puts, l, k);
  }

  lemma RegionUntouched(sh: Shape, b: Batch, shares: seq<Share>, t: nat, r: nat, l: nat, r': nat, k: Key)
    requires ValidWrites(sh, b, shares) && DisjointRegions(shares) && Stores(sh)
    requires t < |shares| && r < |shares[t].regions| && l < |b.varids| && r' < |shares[t].regions| && r' != r
    requires Touches(RegionPut(sh, b, shares[t], r, l, 1), k)
    ensures Touching(PutsOfRegion(sh, b, shares[t], r', |b.varids|, false), k) == []
  {
    var puts := PutsOfRegion(sh, b, shares[t], r', |b.varids|, false);
    if Touching(puts, k) != [] {
      var q := TouchingMember(puts, k);
      var nv :| 0 <= nv < |puts| && puts[nv] == q;
      OneRegionTouches(sh, b, shares, t, r, l, t, r', nv, k);
    }
  }

  /** A key of one region: the task's puts touch it as the region's do. */
  lemma ShareTouching(sh: Shape, b: Batch, shares: seq<Share>, t: nat, r: nat, l: nat, k: Key)
    requires ValidWrites(sh, b, shares) && DisjointRegions(shares) && Stores(sh)
    requires t < |shares| && r < |shares[t].regions| && l < |b.varids|
    requires Touches(RegionPut(sh, b, shares[t], r, l, 1), k)
    ensures Touching(PutsOfShare(sh, b, shares[t], |shares[t].regions|, false), k) ==
      Touching(PutsOfRegion(sh, b, shares[t], r, |b.varids|, false), k)
  {
    var parts := RegionParts(sh, b, shares[t], |shares[t].regions|, false);
    forall u | 0 <= u < |parts| && u != r ensures Touching(parts[u], k) == [] {
      RegionUntouched(sh, b, shares, t, r, l, u, k);
    }
    FlattenTouching(parts, k, r);
  }

  /** The puts of all tasks touch it as the task's do. */
  lemma TasksTouching(sh: Shape, b: Batch, shares: seq<Share>, t: nat, k: Key)
    requires ValidWrites(sh, b, shares) && DisjointRegions(shares) && t < |shares|
    requires Touching(PutsOfShare(sh, b, shares[t], |shares[t].regions|, false), k) != []
    ensures Touching(PutsOfTasks(sh, b, shares, |shares|, false), k) ==
      Touching(PutsOfShare(sh, b, shares[t], |shares[t].regions|, false), k)
  {
    var parts := ShareParts(sh, b, shares, |shares|, false);
    forall u | 0 <= u < |parts| && u != t ensures Touching(parts[u], k) == [] {
      OneTaskTouches(sh, b, shares, t, u, k);
    }
    FlattenTouching(parts, k, t);
  }

  lemma LatestEndsWith(sh: Shape, b: Batch, shares: seq<Share>, t: nat, r: nat, nv: nat, k: Key)
    requires ValidWrites(sh, b, shares) && DisjointRegions(shares) && Stores(sh)
    requires t < |shares| && r < |shares[t].regions| && nv < |b.varids| && Product(shares[t].regions[r].count) > 0
    requires Touches(RegionPut(sh, b, shares[t], r, Latest(sh, b, nv), 1), k)
    ensures EndsWith(Touching(PutsOfTasks(sh, b, shares, |shares|, false), k),
      RegionPut(sh, b, shares[t], r, Latest(sh, b, nv), 1))
  {
    var l := Latest(sh, b, nv);
    forall j | l < j < |b.varids| ensures !SameTarget(sh, b, l, j) {
      LatestIsLast(sh, b, nv, |b.varids|, j);
    }
    RegionEndsWith(sh, b, shares[t], r, l, k);
    ShareTouching(sh, b, shares, t, r, l, k);
    TasksTouching(sh, b, shares, t, k);
  }

  /** A key has the value of the last put that touches it. */
  lemma LastDecides(file: FileData, puts: seq<Put>, p: Put, k: Key)
    requires AllPutsValid(puts) && ValidPut(p) && k in Patch(p) && EndsWith(Touching(puts, k), p)
    ensures k in ApplyAll(file, puts) && ApplyAll(file, puts)[k] == Patch(p)[k]
  {
    TouchingDecides(file, puts, k);
  }

  /** Reading a box whose every element was put last by `p` returns the data of `p`. */
  lemma GetAfterLast(file: FileData, fill: Value, puts: seq<Put>, p: Put)
    requires AllPutsValid(puts) && ValidPut(p)
    requires forall k :: Touches(p, k) ==> EndsWith(Touching(puts, k), p)
    ensures Get(ApplyAll(file, puts), fill, p.varid, p.start, p.count) == p.data
  {
    var got := Get(ApplyAll(file, puts), fill, p.varid, p.start, p.count);
    forall i | 0 <= i < |got| ensures got[i] == p.data[i] {
      PatchAt(p, i);
      var k := (p.varid, Indices(p.start, p.count)[i]);
      assert Touches(p, k);
      LastDecides(file, puts, p, k);
    }
  }

  /** After the write, the region of any task reads back as that task's data of the latest entry. */
  lemma RegionReadsBack(file: FileData, fill: Value, sh: Shape, b: Batch, shares: seq<Share>, t: nat, r: nat, nv: nat)
    requires ValidWrites(sh, b, shares) && DisjointRegions(shares)
    requires t < |shares| && r < |shares[t].regions|
    requires LooksWhereWritten(sh, b, nv)
    ensures RegionRead(ApplyAll(file, PutsOfTasks(sh, b, shares, |shares|, false)), fill,
      ReadShape(sh, b, nv), b.varids[nv], shares[t].regions[r]) ==
      RegionPut(sh, b, shares[t], r, Latest(sh, b, nv), 1).data
  {
    if Product(shares[t].regions[r].count) > 0 {
      var l := Latest(sh, b, nv);
      SamePlace(sh, b, shares[t], r, l);
      var p := RegionPut(sh, b, shares[t], r, l, 1);
      forall k | Touches(p, k)
        ensures EndsWith(Touching(PutsOfTasks(sh, b, shares, |shares|, false), k), p)
      {
        LatestEndsWith(sh, b, shares, t, r, nv, k);
      }
      GetAfterLast(file, fill, PutsOfTasks(sh, b, shares, |shares|, false), p);
    }
  }

  /** Every region reads as the piece of `data` at its own offset. */
  ghost predicate PiecesOf(
    data: seq<Value>, after: FileData, fill: Value, rs: Shape, varid: int, regions: seq<Region>, llen: nat)
    requires ValidRead(rs, regions, llen) && |data| == llen
  {
    forall r :: 0 <= r < |regions| ==>
      regions[r].loffset + Product(regions[r].count) <= llen &&
      RegionRead(after, fill, rs, varid, regions[r]) ==
      data[regions[r].loffset..regions[r].loffset + Product(regions[r].count)]
  }

  lemma ExtendPrefix(data: seq<Value>, a: seq<Value>, piece: seq<Value>)
    requires a <= data && |a| + |piece| <= |data|
    requires piece == data[|a|..|a| + |piece|]
    ensures a + piece <= data
  {
    assert data[..|a| + |piece|] == data[..|a|] + data[|a|..|a| + |piece|];
  }

  lemma NextPiece(
    data: seq<Value>, after: FileData, fill: Value, rs: Shape, varid: int, regions: seq<Region>, llen: nat, n: nat)
    requires ValidRead(rs, regions, llen) && |data| == llen && 0 < n <= |regions|
    requires PiecesOf(data, after, fill, rs, varid, regions, llen)
    requires TaskRead(after, fill, rs, varid, regions, llen, n - 1) <= data
    ensures TaskRead(after, fill, rs, varid, regions, llen, n) <= data
  {
    var read := TaskRead(after, fill, rs, varid, regions, llen, n - 1);
    var piece := RegionRead(after, fill, rs, varid, regions[n - 1]);
    assert InOrder(regions, n - 1);
    assert |read| == regions[n - 1].loffset;
    ExtendPrefix(data, read, piece);
  }

  /** Regions that tile a buffer read back as the buffer. */
  lemma {:induction false} PiecesJoin(
    data: seq<Value>, after: FileData, fill: Value, rs: Shape, varid: int, regions: seq<Region>, llen: nat, n: nat)
    requires ValidRead(rs, regions, llen) && |data| == llen && n <= |regions|
    requires PiecesOf(data, after, fill, rs, varid, regions, llen)
    ensures TaskRead(after, fill, rs, varid, regions, llen, n) <= data
  {
    if n == 0 {
    } else {
      PiecesJoin(data, after, fill, rs, varid, regions, llen, n - 1);
      NextPiece(data, after, fill, rs, varid, regions, llen, n);
    }
  }

  /** The part of a task's buffer that belongs to entry `nv` of the batch. */
  ghost function VariableData(sh: Shape, b: Batch, s: Share, nv: nat): (data: seq<Value>)
    requires ValidWrite(sh, b, s) && nv < |b.varids|
    ensures |data| == s.llen
  {
    BufferBounds(|b.varids|, s.llen, nv, 0, s.llen, |s.iobuf|);
    s.iobuf[nv * s.llen..nv * s.llen + s.llen]
  }

  /** A region's data is the piece of that part at the region's offset. */
  lemma RegionPiece(sh: Shape, b: Batch, s: Share, r: nat, nv: nat)
    requires ValidWrite(sh, b, s) && Stores(sh) && r < |s.regions| && nv < |b.varids|
    ensures s.regions[r].loffset + Product(s.regions[r].count) <= s.llen
    ensures RegionPut(sh, b, s, r, nv, 1).data ==
      VariableData(sh, b, s, nv)[s.regions[r].loffset..s.regions[r].loffset + Product(s.regions[r].count)]
  {
    var g := s.regions[r];
    RegionFits(sh.ndims, s.regions, s.llen, r);
    BufferBounds(|b.varids|, s.llen, nv, 0, s.llen, |s.iobuf|);
    BufferBounds(|b.varids|, s.llen, nv, g.loffset, Product(g.count), |s.iobuf|);
    SliceOfSlice(s.iobuf, nv * s.llen, nv * s.llen + s.llen, g.loffset, g.loffset + Product(g.count));
  }

  /** The file after the parallel puts of all tasks. */
  ghost function AfterPuts(file: FileData, sh: Shape, b: Batch, shares: seq<Share>): FileData
    requires ValidWrites(sh, b, shares)
  {
    ApplyAll(file, PutsOfTasks(sh, b, shares, |shares|, false))
  }

  lemma ShareReadsBack(file: FileData, fill: Value, sh: Shape, b: Batch, shares: seq<Share>, t: nat, nv: nat)
    requires ValidWrites(sh, b, shares) && DisjointRegions(shares)
    requires t < |shares| && LooksWhereWritten(sh, b, nv)
    ensures ValidRead(ReadShape(sh, b, nv), shares[t].regions, shares[t].llen)
    ensures PiecesOf(VariableData(sh, b, shares[t], Latest(sh, b, nv)), AfterPuts(file, sh, b, shares), fill,
      ReadShape(sh, b, nv), b.varids[nv], shares[t].regions, shares[t].llen)
  {
    var s, data := shares[t], VariableData(sh, b, shares[t], Latest(sh, b, nv));
    forall r | 0 <= r < |s.regions|
      ensures s.regions[r].loffset + Product(s.regions[r].count) <= s.llen
      ensures RegionRead(AfterPuts(file, sh, b, shares), fill, ReadShape(sh, b, nv), b.varids[nv], s.regions[r]) ==
        data[s.regions[r].loffset..s.regions[r].loffset + Product(s.regions[r].count)]
    {
      RegionPiece(sh, b, s, r, Latest(sh, b, nv));
      RegionReadsBack(file, fill, sh, b, shares, t, r, nv);
    }
  }

  /** A task reads, for entry `nv`, the data that it wrote for entry `l`. */
  ghost predicate ReadsAs(
    after: FileData, fill: Value, sh: Shape, b: Batch, s: Share, nv: nat, l: nat)
    requires ValidWrite(sh, b, s) && nv < |b.varids| && l < |b.varids|
  {
    ValidRead(ReadShape(sh, b, nv), s.regions, s.llen) &&
    TaskRead(after, fill, ReadShape(sh, b, nv), b.varids[nv], s.regions, s.llen, |s.regions|) ==
      VariableData(sh, b, s, l)
  }

  /** The parallel puts, then a read. */
  lemma PutsThenRead(file: FileData, fill: Value, sh: Shape, b: Batch, shares: seq<Share>, t: nat, nv: nat)
    requires ValidWrites(sh, b, shares) && DisjointRegions(shares)
    requires t < |shares| && LooksWhereWritten(sh, b, nv)
    ensures ReadsAs(AfterPuts(file, sh, b, shares), fill, sh, b, shares[t], nv, Latest(sh, b, nv))
  {
    var s := shares[t];
    ShareReadsBack(file, fill, sh, b, shares, t, nv);
    PiecesJoin(VariableData(sh, b, s, Latest(sh, b, nv)), AfterPuts(file, sh, b, shares), fill, ReadShape(sh, b, nv),
      b.varids[nv], s.regions, s.llen, |s.regions|);
    assert Sizes(s.regions)[..|s.regions|] == Sizes(s.regions);
  }

  /**
   * The serial write, then a read: for every entry of the batch, every task reads what it wrote for the latest
   * entry with the same variable and record. This is the entry itself unless the batch repeats it.
   */
  lemma WriteThenRead(file: FileData, fill: Value, sh: Shape, b: Batch, shares: seq<Share>, t: nat, nv: nat)
    requires ValidWrites(sh, b, shares) && DisjointRegions(shares)
    requires t < |shares| && LooksWhereWritten(sh, b, nv)
    ensures ReadsAs(ApplyAll(file, PutsOfTasks(sh, b, shares, |shares|, true)), fill, sh, b, shares[t], nv,
      Latest(sh, b, nv))
  {
    TasksAgree(sh, b, shares);
    PutsThenRead(file, fill, sh, b, shares, t, nv);
  }

  /** The same after the parallel writers, for every interleaving of their calls. */
  lemma ParallelWriteThenRead(
    file: FileData, fill: Value, sh: Shape, b: Batch, shares: seq<Share>, traces: seq<seq<Put>>, merged: seq<Put>,
    t: nat, nv: nat)
    requires ValidWrites(sh, b, shares) && DisjointRegions(shares)
    requires ParallelTraces(sh, b, shares, traces) && Merges(traces, merged)
    requires t < |shares| && LooksWhereWritten(sh, b, nv)
    ensures AllPutsValid(merged)
    ensures ReadsAs(ApplyAll(file, merged), fill, sh, b, shares[t], nv, Latest(sh, b, nv))
  {
    InterleavingIrrelevant(file, sh, b, shares, traces, merged);
    PutsThenRead(file, fill, sh, b, shares, t, nv);
  }

  /** Every task has made its requests. */
  ghost predicate AllRequested(
    sh: Shape, b: Batch, shares: seq<Share>, requests: seq<seq<Varn>>, numRegions: nat)
    requires ValidWrites(sh, b, shares)
  {
    |requests| == |shares| &&
    (forall t :: 0 <= t < |shares| ==>
      |shares[t].regions| <= numRegions && |requests[t]| == if numRegions > 0 then |b.varids| else 0) &&
    forall t, nv :: 0 <= t < |shares| && 0 <= nv < |requests[t]| ==>
      IsRequest(sh, b, shares[t], requests[t][nv], nv)
  }

  /** The same after the PnetCDF requests, completed in any order; the entries must be distinct then. */
  lemma PnetcdfWriteThenRead(
    file: FileData, fill: Value, sh: Shape, b: Batch, shares: seq<Share>, requests: seq<seq<Varn>>, numRegions: nat,
    merged: seq<Put>, t: nat, nv: nat)
    requires ValidWrites(sh, b, shares) && DisjointRegions(shares) && DistinctTargets(sh, b)
    requires AllRequested(sh, b, shares, requests, numRegions)
    requires forall p :: p in merged <==> exists u :: 0 <= u < |requests| && RequestedPut(requests[u], p)
    requires t < |shares| && LooksWhereWritten(sh, b, nv)
    ensures AllPutsValid(merged)
    ensures ReadsAs(ApplyAll(file, merged), fill, sh, b, shares[t], nv, nv)
  {
    SerialEqualsPnetcdf(file, sh, b, shares, requests, numRegions, merged);
    WriteThenRead(file, fill, sh, b, shares, t, nv);
    DistinctIsLatest(sh, b, nv);
  }

  function PartOf(s: Share): Part {
    Part(s.regions, s.llen)
  }

  /** Every task holds what it wrote for entry `l`. */
  ghost predicate AllReadBack(sh: Shape, b: Batch, shares: seq<Share>, l: nat, data: seq<seq<Value>>)
    requires ValidWrites(sh, b, shares) && l < |b.varids|
  {
    |data| == |shares| && forall t :: 0 <= t < |shares| ==> data[t] == VariableData(sh, b, shares[t], l)
  }

  /** The serial path from end to end: the batch is written, and all IO tasks read entry `nv` of it back. */
  method WriteAndReadSerial(
    file: NcFile, fill: Value, sh: Shape, b: Batch, shares: seq<Share>, maxregions: nat, ghost maxiobuflen: nat,
    nv: nat, buf: seq<Value>) returns (data: seq<seq<Value>>)
    requires shares != [] && ValidWrites(sh, b, shares) && DisjointRegions(shares)
    requires LooksWhereWritten(sh, b, nv)
    requires forall t :: 0 <= t < |shares| ==> |shares[t].regions| <= maxregions && shares[t].llen <= maxiobuflen
    requires |b.varids| * maxiobuflen <= |shares[0].iobuf| && maxiobuflen <= |buf|
    modifies file
    ensures AllReadBack(sh, b, shares, Latest(sh, b, nv), data)
  {
    ghost var before := file.data;
    WriteDarrayMultiSerial(file, sh, b, shares, maxregions, maxiobuflen);
    var parts := seq(|shares|, t requires 0 <= t < |shares| => PartOf(shares[t]));
    assert ValidParts(ReadShape(sh, b, nv), parts, maxregions, maxiobuflen);
    data := ReadDarraySerial(file.data, fill, ReadShape(sh, b, nv), b.varids[nv], parts, maxregions, buf, maxiobuflen);
    forall t | 0 <= t < |shares| ensures data[t] == VariableData(sh, b, shares[t], Latest(sh, b, nv)) {
      WriteThenRead(before, fill, sh, b, shares, t, nv);
    }
  }

  // The parallel paths from end to end.

  lemma Removed(puts: seq<Put>, k: nat)
    requires k < |puts|
    ensures multiset(puts) == multiset(puts[..k] + puts[k + 1..]) + multiset{puts[k]}
    ensures forall p :: p in puts <==> p == puts[k] || p in puts[..k] + puts[k + 1..]
  {
    assert puts == puts[..k] + [puts[k]] + puts[k + 1..];
  }

  /** The puts reach the file in an order that `schedule` picks; every order is the pick of some schedule. */
  method CompleteAll(file: NcFile, all: seq<Put>, schedule: seq<nat>) returns (ghost merged: seq<Put>)
    requires forall p :: p in all ==> ValidPut(p)
    modifies file
    ensures multiset(merged) == multiset(all) && forall p :: p in merged <==> p in all
    ensures file.data == ApplyAll(old(file.data), merged)
  {
    merged := [];
    var remaining := all;
    while remaining != []
      invariant multiset(merged) + multiset(remaining) == multiset(all)
      invariant forall p :: p in merged || p in remaining <==> p in all
      invariant file.data == ApplyAll(old(file.data), merged)
      decreases |remaining|
    {
      var i := |all| - |remaining|;
      var k := if 0 <= i < |schedule| then schedule[i] % |remaining| else 0;
      var p := remaining[k];
      file.PutVara(p.varid, p.start, p.count, p.data);
      ApplyAllSnoc(old(file.data), merged, p);
      Removed(remaining, k);
      merged := merged + [p];
      remaining := remaining[..k] + remaining[k + 1..];
    }
  }

  /** The tasks can read with this shape into a buffer of the given length. */
  ghost predicate CanRead(rs: Shape, shares: seq<Share>, maxregions: nat, length: nat) {
    forall t :: 0 <= t < |shares| ==>
      ValidRead(rs, shares[t].regions, shares[t].llen) && |shares[t].regions| <= maxregions && shares[t].llen <= length
  }

  ghost function ShareRead(after: FileData, fill: Value, rs: Shape, varid: int, s: Share): seq<Value>
    requires ValidRead(rs, s.regions, s.llen)
  {
    TaskRead(after, fill, rs, varid, s.regions, s.llen, |s.regions|)
  }

  /** The first `n` tasks have read. */
  ghost predicate HaveRead(
    after: FileData, fill: Value, rs: Shape, varid: int, shares: seq<Share>, maxregions: nat, length: nat, n: nat,
    data: seq<seq<Value>>)
    requires CanRead(rs, shares, maxregions, length) && n <= |shares|
  {
    |data| == n && forall t :: 0 <= t < n ==> data[t] == ShareRead(after, fill, rs, varid, shares[t])
  }

  lemma HaveReadSnoc(
    after: FileData, fill: Value, rs: Shape, varid: int, shares: seq<Share>, maxregions: nat, length: nat, n: nat,
    data: seq<seq<Value>>, own: seq<Value>)
    requires CanRead(rs, shares, maxregions, length) && n < |shares|
    requires HaveRead(after, fill, rs, varid, shares, maxregions, length, n, data)
    requires own == ShareRead(after, fill, rs, varid, shares[n])
    ensures HaveRead(after, fill, rs, varid, shares, maxregions, length, n + 1, data + [own])
  {
  }

  method ReadShareNc(
    after: FileData, fill: Value, rs: Shape, varid: int, s: Share, maxregions: nat, buf: seq<Value>)
    returns (data: seq<Value>)
    requires ValidRead(rs, s.regions, s.llen) && |s.regions| <= maxregions && s.llen <= |buf|
    ensures data == ShareRead(after, fill, rs, varid, s)
  {
    var iobuf := PioReadDarrayNc(after, fill, rs, varid, s.regions, s.llen, maxregions, buf);
    data := iobuf[..s.llen];
  }

  method ReadAllNc(
    after: FileData, fill: Value, rs: Shape, varid: int, shares: seq<Share>, maxregions: nat, buf: seq<Value>)
    returns (data: seq<seq<Value>>)
    requires CanRead(rs, shares, maxregions, |buf|)
    ensures HaveRead(after, fill, rs, varid, shares, maxregions, |buf|, |shares|, data)
  {
    data := [];
    for t := 0 to |shares|
      invariant HaveRead(after, fill, rs, varid, shares, maxregions, |buf|, t, data)
    {
      var own := ReadShareNc(after, fill, rs, varid, shares[t], maxregions, buf);
      HaveReadSnoc(after, fill, rs, varid, shares, maxregions, |buf|, t, data, own);
      data := data + [own];
    }
  }

  /** netCDF-4: all IO tasks write, their calls interleave as the schedule says, and all IO tasks read back. */
  method WriteAndReadNetcdf4p(
    file: NcFile, fill: Value, sh: Shape, b: Batch, shares: seq<Share>, maxregions: nat, schedule: seq<nat>, nv: nat,
    buf: seq<Value>) returns (data: seq<seq<Value>>)
    requires ValidWrites(sh, b, shares) && DisjointRegions(shares)
    requires LooksWhereWritten(sh, b, nv)
    requires forall t :: 0 <= t < |shares| ==> |shares[t].regions| <= maxregions && shares[t].llen <= |buf|
    modifies file
    ensures AllReadBack(sh, b, shares, Latest(sh, b, nv), data)
  {
    ghost var before := file.data;
    WriteDarrayMultiPar(file, sh, b, shares, maxregions, schedule);
    assert CanRead(ReadShape(sh, b, nv), shares, maxregions, |buf|);
    data := ReadAllNc(file.data, fill, ReadShape(sh, b, nv), b.varids[nv], shares, maxregions, buf);
    forall t | 0 <= t < |shares| ensures data[t] == VariableData(sh, b, shares[t], Latest(sh, b, nv)) {
      PutsThenRead(before, fill, sh, b, shares, t, nv);
    }
  }

  /** Every task finds the right record in its list for every variable. */
  ghost predicate AllRecordsRight(sh: Shape, b: Batch, shares: seq<Share>, recordSet: seq<bool>)
    requires ValidWrites(sh, b, shares) && |recordSet| == |b.varids|
  {
    forall t :: 0 <= t < |shares| ==> RecordsRight(sh, b, shares[t], recordSet)
  }

  /** The requests that one task makes. */
  ghost predicate TaskRequests(
    sh: Shape, b: Batch, s: Share, recordSet: seq<bool>, requests: seq<Varn>, numRegions: nat)
    requires ValidWrite(sh, b, s) && |recordSet| == |b.varids|
  {
    |s.regions| <= numRegions &&
    RequestsMade(sh, b, s, recordSet, requests, if numRegions > 0 then |b.varids| else 0)
  }

  method WriteAllPnetcdf(sh: Shape, b: Batch, shares: seq<Share>, recordSet: seq<bool>, numRegions: nat)
    returns (requests: seq<seq<Varn>>)
    requires ValidWrites(sh, b, shares) && forall t :: 0 <= t < |shares| ==> |shares[t].regions| <= numRegions
    requires |recordSet| == |b.varids|
    ensures |requests| == |shares|
    ensures forall t :: 0 <= t < |shares| ==> TaskRequests(sh, b, shares[t], recordSet, requests[t], numRegions)
  {
    requests := [];
    for t := 0 to |shares|
      invariant |requests| == t
      invariant forall u :: 0 <= u < t ==> TaskRequests(sh, b, shares[u], recordSet, requests[u], numRegions)
    {
      var own := WritePnetcdf(sh, b, shares[t], recordSet, numRegions);
      requests := requests + [own];
    }
  }

  /** The requests of all tasks are right exactly when all records are; without regions there are none to be wrong. */
  lemma AllRequestedExact(
    sh: Shape, b: Batch, shares: seq<Share>, recordSet: seq<bool>, requests: seq<seq<Varn>>, numRegions: nat)
    requires ValidWrites(sh, b, shares) && |recordSet| == |b.varids| && |requests| == |shares|
    requires forall t :: 0 <= t < |shares| ==> TaskRequests(sh, b, shares[t], recordSet, requests[t], numRegions)
    ensures AllRequested(sh, b, shares, requests, numRegions) <==> AllRecordsRight(sh, b, shares, recordSet)
  {
    forall t | 0 <= t < |shares|
      ensures RecordsRight(sh, b, shares[t], recordSet) <==>
        forall nv :: 0 <= nv < |requests[t]| ==> IsRequest(sh, b, shares[t], requests[t][nv], nv)
    {
      assert TaskRequests(sh, b, shares[t], recordSet, requests[t], numRegions);
      if numRegions > 0 {
        RequestsExact(sh, b, shares[t], recordSet, requests[t]);
      }
    }
  }

  /** The puts that a request amounts to. */
  function VarnPuts(v: Varn): (r: seq<Put>)
    requires ValidVarn(v)
    ensures |r| == |v.starts|
  {
    seq(|v.starts|, i requires 0 <= i < |v.starts| => VarnPut(v, i))
  }

  function RequestParts(requests: seq<Varn>): (r: seq<seq<Put>>)
    requires forall nv :: 0 <= nv < |requests| ==> ValidVarn(requests[nv])
    ensures |r| == |requests|
  {
    seq(|requests|, nv requires 0 <= nv < |requests| => VarnPuts(requests[nv]))
  }

  /** The puts that the requests of one task amount to. */
  function PutsOfRequests(requests: seq<Varn>): (r: seq<Put>)
    requires forall nv :: 0 <= nv < |requests| ==> ValidVarn(requests[nv])
  {
    Flatten(RequestParts(requests))
  }

  lemma PutsOfRequestsMembers(requests: seq<Varn>, p: Put)
    requires forall nv :: 0 <= nv < |requests| ==> ValidVarn(requests[nv])
    ensures p in PutsOfRequests(requests) <==> RequestedPut(requests, p)
  {
    var parts := RequestParts(requests);
    InFlatten(parts, p);
    if nv :| 0 <= nv < |parts| && p in parts[nv] {
      var i :| 0 <= i < |parts[nv]| && parts[nv][i] == p;
      assert p == VarnPut(requests[nv], i);
    }
    if RequestedPut(requests, p) {
      var nv, i :| 0 <= nv < |requests| && ValidVarn(requests[nv]) && 0 <= i < |requests[nv].starts| &&
        p == VarnPut(requests[nv], i);
      assert parts[nv][i] == p;
    }
  }

  method ReadSharePnetcdf(
    after: FileData, fill: Value, rs: Shape, varid: int, s: Share, maxregions: nat, buf: seq<Value>)
    returns (data: seq<Value>)
    requires ValidRead(rs, s.regions, s.llen) && |s.regions| <= maxregions && s.llen <= |buf|
    ensures data == ShareRead(after, fill, rs, varid, s)
  {
    var iobuf := PioReadDarrayPnetcdf(after, fill, rs, varid, s.regions, s.llen, s.llen, maxregions, buf);
    data := iobuf[..s.llen];
  }

  method ReadAllPnetcdf(
    after: FileData, fill: Value, rs: Shape, varid: int, shares: seq<Share>, maxregions: nat, buf: seq<Value>)
    returns (data: seq<seq<Value>>)
    requires CanRead(rs, shares, maxregions, |buf|)
    ensures HaveRead(after, fill, rs, varid, shares, maxregions, |buf|, |shares|, data)
  {
    data := [];
    for t := 0 to |shares|
      invariant HaveRead(after, fill, rs, varid, shares, maxregions, |buf|, t, data)
    {
      var own := ReadSharePnetcdf(after, fill, rs, varid, shares[t], maxregions, buf);
      HaveReadSnoc(after, fill, rs, varid, shares, maxregions, |buf|, t, data, own);
      data := data + [own];
    }
  }

  lemma AllPutsMembers(
    sh: Shape, b: Batch, shares: seq<Share>, requests: seq<seq<Varn>>, numRegions: nat, puts: seq<seq<Put>>, p: Put)
    requires ValidWrites(sh, b, shares) && AllRequested(sh, b, shares, requests, numRegions)
    requires |puts| == |requests|
    requires forall t :: 0 <= t < |puts| ==>
      (forall nv :: 0 <= nv < |requests[t]| ==> ValidVarn(requests[t][nv])) && puts[t] == PutsOfRequests(requests[t])
    ensures p in Flatten(puts) <==> exists t :: 0 <= t < |requests| && RequestedPut(requests[t], p)
    ensures p in Flatten(puts) ==> ValidPut(p)
  {
    InFlatten(puts, p);
    forall t | 0 <= t < |requests| ensures p in puts[t] <==> RequestedPut(requests[t], p) {
      PutsOfRequestsMembers(requests[t], p);
    }
  }

  method PutsOfAll(sh: Shape, b: Batch, shares: seq<Share>, requests: seq<seq<Varn>>, ghost numRegions: nat)
    returns (puts: seq<Put>)
    requires ValidWrites(sh, b, shares) && AllRequested(sh, b, shares, requests, numRegions)
    ensures forall p :: p in puts <==> exists t :: 0 <= t < |requests| && RequestedPut(requests[t], p)
    ensures forall p :: p in puts ==> ValidPut(p)
  {
    assert forall t, nv :: 0 <= t < |requests| && 0 <= nv < |requests[t]| ==>
      IsRequest(sh, b, shares[t], requests[t][nv], nv);
    var parts := seq(|requests|, t requires 0 <= t < |requests| => PutsOfRequests(requests[t]));
    forall p
      ensures p in Flatten(parts) <==> exists t :: 0 <= t < |requests| && RequestedPut(requests[t], p)
      ensures p in Flatten(parts) ==> ValidPut(p)
    {
      AllPutsMembers(sh, b, shares, requests, numRegions, parts, p);
    }
    puts := Flatten(parts);
  }

  /** PnetCDF: all IO tasks make their requests, these complete in any order, and all IO tasks read back. */
  method WriteAndReadPnetcdf(
    file: NcFile, fill: Value, sh: Shape, b: Batch, shares: seq<Share>, recordSet: seq<bool>, maxregions: nat,
    schedule: seq<nat>, nv: nat, buf: seq<Value>) returns (data: seq<seq<Value>>)
    requires ValidWrites(sh, b, shares) && DisjointRegions(shares) && DistinctTargets(sh, b)
    requires |recordSet| == |b.varids| && AllRecordsRight(sh, b, shares, recordSet)
    requires LooksWhereWritten(sh, b, nv)
    requires forall t :: 0 <= t < |shares| ==> |shares[t].regions| <= maxregions && shares[t].llen <= |buf|
    modifies file
    ensures AllReadBack(sh, b, shares, nv, data)
  {
    ghost var before := file.data;
    var requests := WriteAllPnetcdf(sh, b, shares, recordSet, maxregions);
    AllRequestedExact(sh, b, shares, recordSet, requests, maxregions);
    var puts := PutsOfAll(sh, b, shares, requests, maxregions);
    ghost var merged := CompleteAll(file, puts, schedule);
    assert CanRead(ReadShape(sh, b, nv), shares, maxregions, |buf|);
    data := ReadAllPnetcdf(file.data, fill, ReadShape(sh, b, nv), b.varids[nv], shares, maxregions, buf);
    forall t | 0 <= t < |shares| ensures data[t] == VariableData(sh, b, shares[t], nv) {
      PnetcdfWriteThenRead(before, fill, sh, b, shares, requests, maxregions, merged, t, nv);
    }
  }
}

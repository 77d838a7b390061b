/**
 * What one IO task holds of a decomposition, and the puts that a write of its buffer
 * ought to issue. Both writers are measured against these puts.
 */
module Decomposition {
  import opened Sequences
  import opened Hyperslabs

  datatype Option<T> = None | Some(value: T)

  /** A box of the decomposition and where its data starts in the IO buffer. */
  datatype Region = Region(loffset: nat, start: seq<int>, count: seq<nat>)

  /** Dimensions of the decomposition and of the file variables, and the record number (negative: none). */
  datatype Shape = Shape(ndims: nat, fndims: nat, record: int)

  /** The variables written together; `frame` is empty when they have no record dimension. */
  datatype Batch = Batch(varids: seq<int>, frame: seq<int>)

  /** The regions of one IO task, `llen` elements per variable, and its buffer with the data of all variables. */
  datatype Share = Share(regions: seq<Region>, llen: nat, iobuf: seq<Value>)

  predicate ValidShape(sh: Shape) {
    sh.ndims <= sh.fndims && sh.fndims > 0
  }

  predicate ValidBatch(sh: Shape, b: Batch) {
    |b.varids| > 0 && (sh.record >= 0 && sh.ndims < sh.fndims ==> |b.frame| == |b.varids|)
  }

  function Sizes(regions: seq<Region>): (r: seq<nat>)
    ensures |r| == |regions|
  {
    seq(|regions|, i requires 0 <= i < |regions| => Product(regions[i].count))
  }

  /** The data of region `i` follows the data of the regions before it. */
  ghost predicate InOrder(regions: seq<Region>, i: nat)
    requires i < |regions|
  {
    regions[i].loffset == Sum(Sizes(regions)[..i])
  }

  /** The regions tile the buffer in order; this is what building the decomposition provides. */
  ghost predicate ValidRegions(ndims: nat, regions: seq<Region>, llen: nat) {
    (forall i :: 0 <= i < |regions| ==> |regions[i].start| == |regions[i].count| == ndims) &&
    (forall i :: 0 <= i < |regions| ==> InOrder(regions, i)) && llen == Sum(Sizes(regions))
  }

  ghost predicate ValidShare(sh: Shape, nvars: nat, s: Share) {
    ValidRegions(sh.ndims, s.regions, s.llen) && nvars * s.llen <= |s.iobuf|
  }

  lemma RegionFits(ndims: nat, regions: seq<Region>, llen: nat, i: nat)
    requires ValidRegions(ndims, regions, llen) && i < |regions|
    ensures regions[i].loffset == Sum(Sizes(regions)[..i])
    ensures regions[i].loffset + Product(regions[i].count) <= llen
  {
    assert InOrder(regions, i);
    SumSnoc(Sizes(regions), i);
    SumTakeMonotone(Sizes(regions), i + 1, |regions|);
    assert Sizes(regions)[..|regions|] == Sizes(regions);
  }

  lemma BufferBounds(nvars: nat, llen: nat, nv: nat, offset: nat, size: nat, length: nat)
    requires nv < nvars && offset + size <= llen && nvars * llen <= length
    ensures 0 <= nv * llen + offset <= nv * llen + offset + size <= length
  {
    RowBounds(nv, nvars, llen);
  }

  /** The data of variable `nv` for one region. */
  function RegionData(s: Share, region: Region, nv: nat): (r: seq<Value>)
    requires 0 <= nv * s.llen
    requires nv * s.llen + region.loffset + Product(region.count) <= |s.iobuf|
    ensures |r| == Product(region.count)
  {
    s.iobuf[nv * s.llen + region.loffset..nv * s.llen + region.loffset + Product(region.count)]
  }

  /**
   * Whether a write stores anything: the file variable has the dimensions of the decomposition,
   * or these plus a leading record dimension for which a record is set.
   */
  predicate Stores(sh: Shape) {
    sh.fndims == sh.ndims || (sh.fndims == sh.ndims + 1 && sh.ndims > 0 && sh.record >= 0)
  }

  /** Start of a region in the file; without record dimension the record shifts dimension 0, `times` times. */
  function PutStart(sh: Shape, b: Batch, region: Region, nv: nat, times: nat): seq<int>
    requires ValidShape(sh) && ValidBatch(sh, b) && Stores(sh)
    requires |region.start| == sh.ndims && nv < |b.varids|
  {
    if sh.ndims < sh.fndims then [b.frame[nv]] + region.start
    else if sh.record >= 0 then region.start[0 := region.start[0] + times * sh.record]
    else region.start
  }

  function PutCount(sh: Shape, region: Region): seq<nat> {
    if sh.ndims < sh.fndims then [1] + region.count else region.count
  }

  lemma PutCountProduct(sh: Shape, region: Region)
    ensures Product(PutCount(sh, region)) == Product(region.count)
  {
    if sh.ndims < sh.fndims {
      assert PutCount(sh, region)[1..] == region.count;
    }
  }

  ghost predicate ValidWrite(sh: Shape, b: Batch, s: Share) {
    ValidShape(sh) && ValidBatch(sh, b) && ValidShare(sh, |b.varids|, s)
  }

  /** The put that stores variable `nv` of region `r`. */
  ghost function RegionPut(sh: Shape, b: Batch, s: Share, r: nat, nv: nat, times: nat): (p: Put)
    requires ValidWrite(sh, b, s) && Stores(sh) && r < |s.regions| && nv < |b.varids|
    ensures ValidPut(p) && p.varid == b.varids[nv] && Product(p.count) == Product(s.regions[r].count)
  {
    var region := s.regions[r];
    RegionFits(sh.ndims, s.regions, s.llen, r);
    BufferBounds(|b.varids|, s.llen, nv, region.loffset, Product(region.count), |s.iobuf|);
    PutCountProduct(sh, region);
    Put(b.varids[nv], PutStart(sh, b, region, nv, times), PutCount(sh, region), RegionData(s, region, nv))
  }

  /** How often the record is added to the start of variable `nv`: once, or once more for every variable. */
  function Times(accumulate: bool, nv: nat): nat {
    if accumulate then nv + 1 else 1
  }

  /** The puts of the first `nvars` variables of region `r`. */
  ghost function PutsOfRegion(sh: Shape, b: Batch, s: Share, r: nat, nvars: nat, accumulate: bool): (ps: seq<Put>)
    requires ValidWrite(sh, b, s) && r < |s.regions| && nvars <= |b.varids|
    ensures forall p :: p in ps ==> ValidPut(p)
  {
    if !Stores(sh) || Product(s.regions[r].count) == 0 then []
    else seq(nvars, nv requires 0 <= nv < nvars => RegionPut(sh, b, s, r, nv, Times(accumulate, nv)))
  }

  ghost predicate AllValid(parts: seq<seq<Put>>) {
    forall i, p :: 0 <= i < |parts| && p in parts[i] ==> ValidPut(p)
  }

  ghost function Joined(parts: seq<seq<Put>>): (ps: seq<Put>)
    requires AllValid(parts)
    ensures forall p :: p in ps ==> ValidPut(p)
  {
    forall p | p in Flatten(parts) ensures ValidPut(p) {
      InFlatten(parts, p);
    }
    Flatten(parts)
  }

  ghost function RegionParts(sh: Shape, b: Batch, s: Share, n: nat, accumulate: bool): (parts: seq<seq<Put>>)
    requires ValidWrite(sh, b, s) && n <= |s.regions|
    ensures AllValid(parts) && |parts| == n
  {
    seq(n, r requires 0 <= r < n => PutsOfRegion(sh, b, s, r, |b.varids|, accumulate))
  }

  /** The puts of the first `n` regions, region by region. */
  ghost function PutsOfShare(sh: Shape, b: Batch, s: Share, n: nat, accumulate: bool): (ps: seq<Put>)
    requires ValidWrite(sh, b, s) && n <= |s.regions|
    ensures forall p :: p in ps ==> ValidPut(p)
  {
    Joined(RegionParts(sh, b, s, n, accumulate))
  }

  lemma PutsOfShareSnoc(sh: Shape, b: Batch, s: Share, n: nat, accumulate: bool)
    requires ValidWrite(sh, b, s) && 0 < n <= |s.regions|
    ensures PutsOfShare(sh, b, s, n, accumulate) ==
      PutsOfShare(sh, b, s, n - 1, accumulate) + PutsOfRegion(sh, b, s, n - 1, |b.varids|, accumulate)
  {
    var parts := RegionParts(sh, b, s, n, accumulate);
    assert parts == RegionParts(sh, b, s, n - 1, accumulate) + [parts[n - 1]];
    FlattenSnoc(RegionParts(sh, b, s, n - 1, accumulate), parts[n - 1]);
  }

  ghost predicate ValidWrites(sh: Shape, b: Batch, shares: seq<Share>) {
    forall t :: 0 <= t < |shares| ==> ValidWrite(sh, b, shares[t])
  }

  ghost function ShareParts(sh: Shape, b: Batch, shares: seq<Share>, n: nat, accumulate: bool): (parts: seq<seq<Put>>)
    requires ValidWrites(sh, b, shares) && n <= |shares|
    ensures AllValid(parts) && |parts| == n
  {
    seq(n, t requires 0 <= t < n => PutsOfShare(sh, b, shares[t], |shares[t].regions|, accumulate))
  }

  /** The puts of the first `n` tasks, task by task. */
  ghost function PutsOfTasks(sh: Shape, b: Batch, shares: seq<Share>, n: nat, accumulate: bool): (ps: seq<Put>)
    requires ValidWrites(sh, b, shares) && n <= |shares|
    ensures forall p :: p in ps ==> ValidPut(p)
  {
    Joined(ShareParts(sh, b, shares, n, accumulate))
  }

  lemma PutsOfTasksSnoc(sh: Shape, b: Batch, shares: seq<Share>, n: nat, accumulate: bool)
    requires ValidWrites(sh, b, shares) && 0 < n <= |shares|
    ensures PutsOfTasks(sh, b, shares, n, accumulate) ==
      PutsOfTasks(sh, b, shares, n - 1, accumulate) +
      PutsOfShare(sh, b, shares[n - 1], |shares[n - 1].regions|, accumulate)
  {
    var parts := ShareParts(sh, b, shares, n, accumulate);
    assert parts == ShareParts(sh, b, shares, n - 1, accumulate) + [parts[n - 1]];
    FlattenSnoc(ShareParts(sh, b, shares, n - 1, accumulate), parts[n - 1]);
  }

  lemma PutsOfShareMembers(sh: Shape, b: Batch, s: Share, accumulate: bool, p: Put) returns (r: nat, nv: nat)
    requires ValidWrite(sh, b, s)
    requires p in PutsOfShare(sh, b, s, |s.regions|, accumulate)
    ensures r < |s.regions| && nv < |b.varids| && Stores(sh) && Product(s.regions[r].count) > 0
    ensures p == RegionPut(sh, b, s, r, nv, Times(accumulate, nv))
  {
    var regions := RegionParts(sh, b, s, |s.regions|, accumulate);
    InFlatten(regions, p);
    r :| 0 <= r < |s.regions| && p in regions[r];
    nv :| 0 <= nv < |b.varids| && p == regions[r][nv];
  }

  lemma PutIsShareMember(sh: Shape, b: Batch, s: Share, accumulate: bool, r: nat, nv: nat)
    requires ValidWrite(sh, b, s) && r < |s.regions| && nv < |b.varids| && Stores(sh)
    requires Product(s.regions[r].count) > 0
    ensures RegionPut(sh, b, s, r, nv, Times(accumulate, nv)) in PutsOfShare(sh, b, s, |s.regions|, accumulate)
  {
    var p := RegionPut(sh, b, s, r, nv, Times(accumulate, nv));
    assert p == PutsOfRegion(sh, b, s, r, |b.varids|, accumulate)[nv];
    assert p in RegionParts(sh, b, s, |s.regions|, accumulate)[r];
    InFlatten(RegionParts(sh, b, s, |s.regions|, accumulate), p);
  }

  /** What it takes to be a put of the tasks: some task, region with data, and variable. */
  lemma PutsOfTasksMembers(sh: Shape, b: Batch, shares: seq<Share>, accumulate: bool, p: Put)
    returns (t: nat, r: nat, nv: nat)
    requires ValidWrites(sh, b, shares)
    requires p in PutsOfTasks(sh, b, shares, |shares|, accumulate)
    ensures t < |shares| && r < |shares[t].regions| && nv < |b.varids| && Stores(sh)
    ensures Product(shares[t].regions[r].count) > 0
    ensures p == RegionPut(sh, b, shares[t], r, nv, Times(accumulate, nv))
  {
    var parts := ShareParts(sh, b, shares, |shares|, accumulate);
    InFlatten(parts, p);
    t :| 0 <= t < |shares| && p in parts[t];
    r, nv := PutsOfShareMembers(sh, b, shares[t], accumulate, p);
  }

  lemma PutIsMember(sh: Shape, b: Batch, shares: seq<Share>, accumulate: bool, t: nat, r: nat, nv: nat)
    requires ValidWrites(sh, b, shares)
    requires t < |shares| && r < |shares[t].regions| && nv < |b.varids| && Stores(sh)
    requires Product(shares[t].regions[r].count) > 0
    ensures RegionPut(sh, b, shares[t], r, nv, Times(accumulate, nv)) in
      PutsOfTasks(sh, b, shares, |shares|, accumulate)
  {
    var p := RegionPut(sh, b, shares[t], r, nv, Times(accumulate, nv));
    PutIsShareMember(sh, b, shares[t], accumulate, r, nv);
    assert p in ShareParts(sh, b, shares, |shares|, accumulate)[t];
    InFlatten(ShareParts(sh, b, shares, |shares|, accumulate), p);
  }
}

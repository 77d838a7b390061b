/** The start and count arrays that the writers hand to netCDF for one region. */
module StartCount {
  import opened Sequences
  import opened Hyperslabs
  import opened Decomposition

  ghost predicate ValidRegion(sh: Shape, region: Option<Region>) {
    region.Some? ==> |region.value.start| == |region.value.count| == sh.ndims
  }

  /** Count of a region in file dimensions, before the record dimension is filled in. */
  function RowCount(sh: Shape, region: Option<Region>): (r: seq<nat>)
    requires ValidShape(sh) && ValidRegion(sh, region)
    ensures |r| == sh.fndims
  {
    match region
    case None => Zeros(sh.fndims)
    case Some(g) =>
      if sh.record >= 0 then Zeros(sh.fndims - sh.ndims) + g.count
      else g.count + Zeros(sh.fndims - sh.ndims)
  }

  function RowStart(sh: Shape, region: Option<Region>): (r: seq<int>)
    requires ValidShape(sh) && ValidRegion(sh, region)
    ensures |r| == sh.fndims
  {
    match region
    case None => Zeros(sh.fndims)
    case Some(g) =>
      if sh.record >= 0 then Zeros(sh.fndims - sh.ndims) + g.start
      else g.start + Zeros(sh.fndims - sh.ndims)
  }

  /** The record dimension is written only when the dimension after it has data. */
  predicate RecordSlot(sh: Shape, row: seq<nat>)
    requires |row| == sh.fndims
  {
    sh.record >= 0 && sh.fndims > 1 && sh.ndims < sh.fndims && row[1] > 0
  }

  function FileCount(sh: Shape, region: Option<Region>): (r: seq<nat>)
    requires ValidShape(sh) && ValidRegion(sh, region)
    ensures |r| == sh.fndims
  {
    var row := RowCount(sh, region);
    if RecordSlot(sh, row) then row[0 := 1] else row
  }

  function FileStart(sh: Shape, region: Option<Region>, frame: seq<int>): (r: seq<int>)
    requires ValidShape(sh) && ValidRegion(sh, region)
    requires sh.record >= 0 && sh.ndims < sh.fndims ==> |frame| > 0
    ensures |r| == sh.fndims
  {
    var row := RowStart(sh, region);
    if RecordSlot(sh, RowCount(sh, region)) then row[0 := frame[0]]
    else if region.Some? && sh.record >= 0 && sh.fndims == sh.ndims then row[0 := row[0] + sh.record]
    else row
  }

  /** Copies a region into the arrays from position `at` on. */
  method CopyRegion(g: Region, start: array<int>, count: array<nat>, at: nat)
    requires |g.start| == |g.count| && at + |g.start| <= start.Length == count.Length
    modifies start, count
    ensures start[..] == old(start[..at]) + g.start + old(start[at + |g.start|..])
    ensures count[..] == old(count[..at]) + g.count + old(count[at + |g.start|..])
  {
    for i := at to at + |g.start|
      invariant forall k :: 0 <= k < at || i <= k < start.Length ==> start[k] == old(start[k])
      invariant forall k :: 0 <= k < at || i <= k < count.Length ==> count[k] == old(count[k])
      invariant forall k :: 0 <= k < i - at ==> start[k + at] == g.start[k]
      invariant forall k :: 0 <= k < i - at ==> count[k + at] == g.count[k]
    {
      start[i] := g.start[i - at];
      count[i] := g.count[i - at];
    }
    assert start[at..at + |g.start|] == g.start && count[at..at + |g.start|] == g.count;
  }

  method ZeroArrays(start: array<int>, count: array<nat>)
    requires start.Length == count.Length
    modifies start, count
    ensures start[..] == Zeros(start.Length) && count[..] == Zeros(start.Length)
  {
    for i := 0 to start.Length
      invariant forall k :: 0 <= k < i ==> start[k] == 0 && count[k] == 0
    {
      start[i] := 0;
      count[i] := 0;
    }
  }

  /** A row put at the end, or at the front, of zeros. */
  lemma BehindZeros(n: nat, row: seq<int>)
    requires |row| <= n
    ensures Zeros(n)[..n - |row|] + row + Zeros(n)[n - |row| + |row|..] == Zeros(n - |row|) + row
    ensures Zeros(n)[..0] + row + Zeros(n)[0 + |row|..] == row + Zeros(n - |row|)
  {
  }

  /** A region in file dimensions: behind the other dimensions with a record, else in front of them. */
  method FillRow(sh: Shape, g: Region, start: array<int>, count: array<nat>)
    requires ValidShape(sh) && ValidRegion(sh, Some(g)) && start.Length == count.Length == sh.fndims
    requires start[..] == Zeros(sh.fndims) && count[..] == Zeros(sh.fndims)
    modifies start, count
    ensures start[..] == RowStart(sh, Some(g)) && count[..] == RowCount(sh, Some(g))
  {
    BehindZeros(sh.fndims, g.start);
    BehindZeros(sh.fndims, g.count);
    CopyRegion(g, start, count, if sh.record >= 0 then sh.fndims - sh.ndims else 0);
  }

  /** The record dimension of a row with data gets the record, a variable without one is shifted by it. */
  method SetRecord(sh: Shape, frame: seq<int>, start: array<int>, count: array<nat>)
    requires ValidShape(sh) && sh.record >= 0 && (sh.ndims < sh.fndims ==> |frame| > 0)
    requires start.Length == count.Length == sh.fndims
    modifies start, count
    ensures count[..] == if RecordSlot(sh, old(count[..])) then old(count[..])[0 := 1] else old(count[..])
    ensures start[..] ==
      if RecordSlot(sh, old(count[..])) then old(start[..])[0 := frame[0]]
      else if sh.fndims == sh.ndims then old(start[..])[0 := old(start[0]) + sh.record]
      else old(start[..])
  {
    var ndims, fndims := sh.ndims, sh.fndims;
    if fndims > 1 && ndims < fndims && count[1] > 0 {
      count[0] := 1;
      start[0] := frame[0];
    } else if fndims == ndims {
      start[0] := start[0] + sh.record;
    }
  }

  /** Fills the start and count arrays for one region, in place. */
  method FindStartCount(sh: Shape, region: Option<Region>, frame: seq<int>, start: array<int>, count: array<nat>)
    requires ValidShape(sh) && ValidRegion(sh, region)
    requires sh.record >= 0 && sh.ndims < sh.fndims ==> |frame| > 0
    requires start.Length == count.Length == sh.fndims
    modifies start, count
    ensures start[..] == FileStart(sh, region, frame)
    ensures count[..] == FileCount(sh, region)
  {
    ZeroArrays(start, count);
    if region.Some? {
      FillRow(sh, region.value, start, count);
      if sh.record >= 0 {
        SetRecord(sh, frame, start, count);
      }
    }
  }

  lemma {:induction false} ProductOfZero(s: seq<nat>, i: nat)
    requires i < |s| && s[i] == 0
    ensures Product(s) == 0
  {
    if i == 0 {
    } else {
      ProductOfZero(s[1..], i - 1);
    }
  }

  /**
   * What the rules for the record dimension amount to: the count arrays cover exactly the
   * region when the write stores it, and no element otherwise.
   */
  lemma FileCountMeaning(sh: Shape, region: Region)
    requires ValidShape(sh) && ValidRegion(sh, Some(region))
    ensures Product(FileCount(sh, Some(region))) == if Stores(sh) then Product(region.count) else 0
    ensures Stores(sh) && Product(region.count) > 0 ==> FileCount(sh, Some(region)) == PutCount(sh, region)
  {
    var count := FileCount(sh, Some(region));
    if sh.fndims == sh.ndims {
      assert RowCount(sh, Some(region)) == region.count;
    } else if sh.record < 0 {
      ProductOfZero(count, sh.fndims - 1);
    } else if sh.fndims == sh.ndims + 1 && sh.ndims > 0 {
      assert RowCount(sh, Some(region)) == [0] + region.count;
      if region.count[0] > 0 {
        assert count == PutCount(sh, region);
        PutCountProduct(sh, region);
      } else {
        ProductOfZero(count, 0);
        ProductOfZero(region.count, 0);
      }
    } else {
      ProductOfZero(count, 0);
    }
  }

  lemma NoRegionNoData(sh: Shape)
    requires ValidShape(sh)
    ensures Product(FileCount(sh, None)) == 0
  {
    ProductOfZero(FileCount(sh, None), 0);
  }
}

/**
 * The parallel writers, run by every IO task on its own regions: one `nc_put_vara` per region and
 * variable for netCDF-4, one list of subarrays per variable for PnetCDF. Both are compared with
 * the puts that the decomposition calls for.
 */
module ParallelWriter {
  import opened Sequences
  import opened Hyperslabs
  import opened Decomposition
  import opened StartCount

  /** The puts of `ps` that touch some index. */
  ghost function NonEmpty(ps: seq<Put>): seq<Put> {
    if ps == [] then []
    else
      NonEmpty(ps[..|ps| - 1]) + (if EmptyPut(ps[|ps| - 1]) then [] else [ps[|ps| - 1]])
  }

  lemma {:induction false} NonEmptyAppend(a: seq<Put>, b: seq<Put>)
    ensures NonEmpty(a + b) == NonEmpty(a) + NonEmpty(b)
  {
    if b == [] {
      assert a + b == a;
    } else {
      assert (a + b)[..|a + b| - 1] == a + b[..|b| - 1];
      NonEmptyAppend(a, b[..|b| - 1]);
    }
  }

  function RegionAt(s: Share, r: nat): Option<Region> {
    if r < |s.regions| then Some(s.regions[r]) else None
  }

  /** The record dimension is set again for every variable. */
  function StartOfVariable(sh: Shape, b: Batch, start: seq<int>, nv: nat): seq<int>
    requires ValidShape(sh) && ValidBatch(sh, b) && |start| == sh.fndims && nv < |b.varids|
  {
    if sh.record >= 0 && sh.ndims < sh.fndims then start[0 := b.frame[nv]] else start
  }

  lemma StartMeaning(sh: Shape, b: Batch, region: Region, nv: nat)
    requires ValidShape(sh) && ValidBatch(sh, b) && ValidRegion(sh, Some(region)) && nv < |b.varids|
    requires Stores(sh) && Product(region.count) > 0
    ensures StartOfVariable(sh, b, FileStart(sh, Some(region), b.frame), nv) == PutStart(sh, b, region, nv, 1)
  {
    if sh.fndims == sh.ndims {
      assert RowStart(sh, Some(region)) == region.start;
    } else {
      if region.count[0] == 0 {
        ProductOfZero(region.count, 0);
      }
      assert RowCount(sh, Some(region)) == [0] + region.count;
      assert RowStart(sh, Some(region)) == [0] + region.start;
    }
  }

  /** The call for variable `nv` of region `r`; past the last region it carries no data. */
  ghost function CallFor(sh: Shape, b: Batch, s: Share, r: nat, nv: nat): (p: Put)
    requires ValidWrite(sh, b, s) && nv < |b.varids|
    ensures ValidPut(p) && p.varid == b.varids[nv]
    ensures p.start == StartOfVariable(sh, b, FileStart(sh, RegionAt(s, r), b.frame), nv)
    ensures p.count == FileCount(sh, RegionAt(s, r))
    ensures EmptyPut(p) <==> !(Stores(sh) && r < |s.regions| && Product(s.regions[r].count) > 0)
    ensures !EmptyPut(p) ==> p == RegionPut(sh, b, s, r, nv, 1)
  {
    var count := FileCount(sh, RegionAt(s, r));
    var start := StartOfVariable(sh, b, FileStart(sh, RegionAt(s, r), b.frame), nv);
    NoRegionNoData(sh);
    if r < |s.regions| then
      FileCountMeaning(sh, s.regions[r]);
      if Product(count) > 0 then
        StartMeaning(sh, b, s.regions[r], nv);
        var p := RegionPut(sh, b, s, r, nv, 1);
        Put(b.varids[nv], start, count, p.data)
      else Put(b.varids[nv], start, count, [])
    else Put(b.varids[nv], start, count, [])
  }

  ghost function Calls(sh: Shape, b: Batch, s: Share, r: nat, nvars: nat): (ps: seq<Put>)
    requires ValidWrite(sh, b, s) && nvars <= |b.varids|
    ensures |ps| == nvars
  {
    seq(nvars, nv requires 0 <= nv < nvars => CallFor(sh, b, s, r, nv))
  }

  lemma CallsSnoc(sh: Shape, b: Batch, s: Share, r: nat, nvars: nat)
    requires ValidWrite(sh, b, s) && 0 < nvars <= |b.varids|
    ensures NonEmpty(Calls(sh, b, s, r, nvars)) == NonEmpty(Calls(sh, b, s, r, nvars - 1)) +
      if EmptyPut(CallFor(sh, b, s, r, nvars - 1)) then [] else [CallFor(sh, b, s, r, nvars - 1)]
  {
    assert Calls(sh, b, s, r, nvars)[..nvars - 1] == Calls(sh, b, s, r, nvars - 1);
  }

  lemma RegionSnoc(sh: Shape, b: Batch, s: Share, r: nat, nvars: nat)
    requires ValidWrite(sh, b, s) && r < |s.regions| && 0 < nvars <= |b.varids|
    ensures PutsOfRegion(sh, b, s, r, nvars, false) == PutsOfRegion(sh, b, s, r, nvars - 1, false) +
      if !Stores(sh) || Product(s.regions[r].count) == 0 then [] else [RegionPut(sh, b, s, r, nvars - 1, 1)]
  {
  }

  lemma {:induction false} CallsMeaning(sh: Shape, b: Batch, s: Share, r: nat, nvars: nat)
    requires ValidWrite(sh, b, s) && nvars <= |b.varids|
    ensures NonEmpty(Calls(sh, b, s, r, nvars)) ==
      if r < |s.regions| then PutsOfRegion(sh, b, s, r, nvars, false) else []
    decreases nvars
  {
    if nvars == 0 {
    } else {
      CallsMeaning(sh, b, s, r, nvars - 1);
      CallsSnoc(sh, b, s, r, nvars);
      if r < |s.regions| {
        RegionSnoc(sh, b, s, r, nvars);
      }
    }
  }

  lemma DataOfRegion(sh: Shape, b: Batch, s: Share, r: nat, nv: nat, p: Put)
    requires ValidWrite(sh, b, s) && Stores(sh) && r < |s.regions| && nv < |b.varids|
    requires p == RegionPut(sh, b, s, r, nv, 1)
    ensures 0 <= nv * s.llen
    ensures nv * s.llen + s.regions[r].loffset + Product(s.regions[r].count) <= |s.iobuf|
    ensures p.data == RegionData(s, s.regions[r], nv)
  {
    RegionFits(sh.ndims, s.regions, s.llen, r);
    BufferBounds(|b.varids|, s.llen, nv, s.regions[r].loffset, Product(s.regions[r].count), |s.iobuf|);
  }

  /** Where the data of a non-empty call sits in the buffer. */
  lemma DataOfCall(sh: Shape, b: Batch, s: Share, r: nat, nv: nat)
    requires ValidWrite(sh, b, s) && nv < |b.varids| && !EmptyPut(CallFor(sh, b, s, r, nv))
    ensures r < |s.regions| && 0 <= nv * s.llen
    ensures nv * s.llen + s.regions[r].loffset + Product(s.regions[r].count) <= |s.iobuf|
    ensures CallFor(sh, b, s, r, nv).data == RegionData(s, s.regions[r], nv)
  {
    DataOfRegion(sh, b, s, r, nv, RegionPut(sh, b, s, r, nv, 1));
  }

  /** The call for one variable; `bufptr` is only looked up when there is data. */
  method PutVariable(sh: Shape, b: Batch, s: Share, r: nat, nv: nat, start: seq<int>, count: seq<nat>) returns (p: Put)
    requires ValidWrite(sh, b, s) && nv < |b.varids| && count == FileCount(sh, RegionAt(s, r))
    requires start == StartOfVariable(sh, b, FileStart(sh, RegionAt(s, r), b.frame), nv)
    ensures p == CallFor(sh, b, s, r, nv)
  {
    var data: seq<Value> := [];
    if Product(count) > 0 {
      DataOfCall(sh, b, s, r, nv);
      data := RegionData(s, s.regions[r], nv);
    }
    p := Put(b.varids[nv], start, count, data);
  }

  /** The start array when variable `nv` is next: only its record may have changed. */
  ghost predicate StartKept(sh: Shape, start: seq<int>, original: seq<int>) {
    |start| == |original| == sh.fndims > 0 && start[1..] == original[1..] &&
    (!(sh.record >= 0 && sh.ndims < sh.fndims) ==> start == original)
  }

  lemma NextStart(sh: Shape, b: Batch, start: seq<int>, original: seq<int>, nv: nat)
    requires ValidShape(sh) && ValidBatch(sh, b) && nv < |b.varids| && StartKept(sh, start, original)
    ensures StartOfVariable(sh, b, start, nv) == StartOfVariable(sh, b, original, nv)
    ensures StartKept(sh, StartOfVariable(sh, b, start, nv), original)
  {
    assert forall i :: 1 <= i < |start| ==> start[i] == start[1..][i - 1] && original[i] == original[1..][i - 1];
  }

  /** The record of variable `nv` is set in the start array, if there is a record dimension. */
  method SetFrame(sh: Shape, b: Batch, start: array<int>, nv: nat, ghost original: seq<int>)
    requires ValidShape(sh) && ValidBatch(sh, b) && nv < |b.varids|
    requires start.Length == sh.fndims && StartKept(sh, start[..], original)
    modifies start
    ensures start[..] == StartOfVariable(sh, b, original, nv) && StartKept(sh, start[..], original)
  {
    NextStart(sh, b, start[..], original, nv);
    ghost var was := start[..];
    if sh.record >= 0 && sh.ndims < sh.fndims {
      start[0] := b.frame[nv];
    }
    assert start[..] == StartOfVariable(sh, b, was, nv);
  }

  /** The call for the next variable. */
  method PutNext(
    sh: Shape, b: Batch, s: Share, r: nat, nv: nat, start: array<int>, count: array<nat>, ghost original: seq<int>)
    returns (p: Put)
    requires ValidWrite(sh, b, s) && nv < |b.varids| && original == FileStart(sh, RegionAt(s, r), b.frame)
    requires start.Length == sh.fndims && StartKept(sh, start[..], original)
    requires count[..] == FileCount(sh, RegionAt(s, r))
    modifies start
    ensures StartKept(sh, start[..], original) && count[..] == old(count[..])
    ensures p == CallFor(sh, b, s, r, nv)
  {
    SetFrame(sh, b, start, nv, original);
    p := PutVariable(sh, b, s, r, nv, start[..], count[..]);
  }

  lemma CallsNext(sh: Shape, b: Batch, s: Share, r: nat, nv: nat)
    requires ValidWrite(sh, b, s) && nv < |b.varids|
    ensures Calls(sh, b, s, r, nv + 1) == Calls(sh, b, s, r, nv) + [CallFor(sh, b, s, r, nv)]
  {
  }

  /** The calls for one region: every variable in turn, also when there is nothing to write. */
  method PutRegion(sh: Shape, b: Batch, s: Share, r: nat) returns (calls: seq<Put>)
    requires ValidWrite(sh, b, s)
    ensures calls == Calls(sh, b, s, r, |b.varids|)
  {
    var region := RegionAt(s, r);
    var start, count := new int[sh.fndims], new nat[sh.fndims];
    FindStartCount(sh, region, b.frame, start, count);
    ghost var original := start[..];
    calls := [];
    var nv := 0;
    while nv < |b.varids|
      invariant 0 <= nv <= |b.varids| && StartKept(sh, start[..], original)
      invariant count[..] == FileCount(sh, region) && calls == Calls(sh, b, s, r, nv)
    {
      var p := PutNext(sh, b, s, r, nv, start, count, original);
      CallsNext(sh, b, s, r, nv);
      calls := calls + [p];
      nv := nv + 1;
    }
  }

  /** Round `r` of collective calls of one task touches the given variables in the given order. */
  ghost predicate InStep(b: Batch, round: seq<Put>) {
    |round| == |b.varids| && forall nv :: 0 <= nv < |round| ==> ValidPut(round[nv]) && round[nv].varid == b.varids[nv]
  }

  ghost function Rounds(sh: Shape, b: Batch, s: Share, n: nat): (rounds: seq<seq<Put>>)
    requires ValidWrite(sh, b, s)
    ensures |rounds| == n
  {
    seq(n, r requires 0 <= r => Calls(sh, b, s, r, |b.varids|))
  }

  lemma RoundsInStep(sh: Shape, b: Batch, s: Share, n: nat, r: nat)
    requires ValidWrite(sh, b, s) && r < n
    ensures InStep(b, Rounds(sh, b, s, n)[r])
  {
  }

  lemma RoundsSnoc(sh: Shape, b: Batch, s: Share, n: nat)
    requires ValidWrite(sh, b, s) && n > 0
    ensures Rounds(sh, b, s, n) == Rounds(sh, b, s, n - 1) + [Calls(sh, b, s, n - 1, |b.varids|)]
  {
  }

  /** How many of the first `n` rounds have a region. */
  function Covered(s: Share, n: nat): nat {
    if n <= |s.regions| then n else |s.regions|
  }

  lemma NonEmptyRound(rounds: seq<seq<Put>>, calls: seq<Put>)
    ensures NonEmpty(Flatten(rounds + [calls])) == NonEmpty(Flatten(rounds)) + NonEmpty(calls)
  {
    FlattenSnoc(rounds, calls);
    NonEmptyAppend(Flatten(rounds), calls);
  }

  /** What round `r` puts. */
  ghost function PutsOfRound(sh: Shape, b: Batch, s: Share, r: nat): seq<Put>
    requires ValidWrite(sh, b, s)
  {
    if r < |s.regions| then PutsOfRegion(sh, b, s, r, |b.varids|, false) else []
  }

  lemma CoveredPuts(sh: Shape, b: Batch, s: Share, n: nat)
    requires ValidWrite(sh, b, s) && n > 0
    ensures PutsOfShare(sh, b, s, Covered(s, n), false) ==
      PutsOfShare(sh, b, s, Covered(s, n - 1), false) + PutsOfRound(sh, b, s, n - 1)
  {
    if n <= |s.regions| {
      PutsOfShareSnoc(sh, b, s, n, false);
    }
  }

  lemma LastRound(sh: Shape, b: Batch, s: Share, n: nat)
    requires ValidWrite(sh, b, s) && n > 0
    ensures NonEmpty(Flatten(Rounds(sh, b, s, n))) ==
      NonEmpty(Flatten(Rounds(sh, b, s, n - 1))) + PutsOfRound(sh, b, s, n - 1)
  {
    CallsMeaning(sh, b, s, n - 1, |b.varids|);
    RoundsSnoc(sh, b, s, n);
    NonEmptyRound(Rounds(sh, b, s, n - 1), Calls(sh, b, s, n - 1, |b.varids|));
  }

  lemma NoRounds(sh: Shape, b: Batch, s: Share)
    requires ValidWrite(sh, b, s)
    ensures NonEmpty(Flatten(Rounds(sh, b, s, 0))) == PutsOfShare(sh, b, s, Covered(s, 0), false)
  {
  }

  lemma RoundStep(sh: Shape, b: Batch, s: Share, n: nat, puts: seq<Put>)
    requires ValidWrite(sh, b, s) && n > 0
    requires puts == NonEmpty(Flatten(Rounds(sh, b, s, n - 1))) == PutsOfShare(sh, b, s, Covered(s, n - 1), false)
    ensures NonEmpty(Flatten(Rounds(sh, b, s, n))) == PutsOfShare(sh, b, s, Covered(s, n), false)
  {
    LastRound(sh, b, s, n);
    CoveredPuts(sh, b, s, n);
  }

  lemma {:induction false} RoundsMeaning(sh: Shape, b: Batch, s: Share, n: nat)
    requires ValidWrite(sh, b, s)
    ensures NonEmpty(Flatten(Rounds(sh, b, s, n))) == PutsOfShare(sh, b, s, Covered(s, n), false)
  {
    if n == 0 {
      NoRounds(sh, b, s);
    } else {
      RoundsMeaning(sh, b, s, n - 1);
      RoundStep(sh, b, s, n, NonEmpty(Flatten(Rounds(sh, b, s, n - 1))));
    }
  }

  /**
   * One IO task's collective netCDF-4 calls. Every task makes the same number of calls for the same
   * variables in the same order, and the calls that carry data are the puts of its regions.
   */
  method WriteNetcdf4p(sh: Shape, b: Batch, s: Share, numRegions: nat) returns (rounds: seq<seq<Put>>)
    requires ValidWrite(sh, b, s) && |s.regions| <= numRegions
    ensures |rounds| == numRegions && forall r :: 0 <= r < numRegions ==> InStep(b, rounds[r])
    ensures NonEmpty(Flatten(rounds)) == PutsOfShare(sh, b, s, |s.regions|, false)
  {
    rounds := [];
    var regioncnt := 0;
    while regioncnt < numRegions
      invariant 0 <= regioncnt <= numRegions
      invariant rounds == Rounds(sh, b, s, regioncnt)
    {
      var calls := PutRegion(sh, b, s, regioncnt);
      rounds := rounds + [calls];
      regioncnt := regioncnt + 1;
    }
    RoundsMeaning(sh, b, s, numRegions);
    forall r | 0 <= r < numRegions ensures InStep(b, rounds[r]) {
      RoundsInStep(sh, b, s, numRegions, r);
    }
  }
}

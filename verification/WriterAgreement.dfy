/**
 * The serial and the parallel writers leave the same file. The serial writer gathers everything
 * on task 0; the parallel tasks issue their puts independently, in any interleaving.
 */
module WriterAgreement {
  import opened Sequences
  import opened Hyperslabs
  import opened Decomposition
  import opened Interleaving
  import opened Messages
  import opened ParallelWriter
  import opened PnetcdfWriter
  import opened SerialWriter

  /** The IO tasks other than 0 prepare their rows and report to task 0. */
  method GatherReports(sh: Shape, b: Batch, shares: seq<Share>, maxregions: nat) returns (inboxes: seq<seq<Message>>)
    requires shares != [] && ValidWrites(sh, b, shares)
    ensures |inboxes| == |shares|
    ensures forall t :: 0 < t < |shares| ==> inboxes[t] == Report(sh, |b.varids|, shares[t], t, |shares|, maxregions)
  {
    inboxes := [[]];
    var t := 1;
    while t < |shares|
      invariant 1 <= t <= |shares| && |inboxes| == t
      invariant forall k :: 0 < k < t ==> inboxes[k] == Report(sh, |b.varids|, shares[k], k, |shares|, maxregions)
    {
      var starts, counts := FindAllStartCount(sh, shares[t], maxregions);
      var sent := SendAllStartCount(sh, |b.varids|, shares[t], t, |shares|, maxregions, starts, counts);
      inboxes := inboxes + [sent];
      t := t + 1;
    }
  }

  /** The whole serial write, run by all IO tasks. */
  method WriteDarrayMultiSerial(
    file: NcFile, sh: Shape, b: Batch, shares: seq<Share>, maxregions: nat, ghost maxiobuflen: nat)
    requires shares != [] && ValidWrites(sh, b, shares)
    requires forall t :: 0 <= t < |shares| ==> |shares[t].regions| <= maxregions && shares[t].llen <= maxiobuflen
    requires |b.varids| * maxiobuflen <= |shares[0].iobuf|
    modifies file
    ensures file.data == ApplyAll(old(file.data), PutsOfTasks(sh, b, shares, |shares|, true))
  {
    var inboxes := GatherReports(sh, b, shares, maxregions);
    var tmpStart, tmpCount := FindAllStartCount(sh, shares[0], maxregions);
    RecvAndWriteData(file, sh, b, maxregions, tmpStart, tmpCount, shares[0], inboxes, shares, maxiobuflen);
  }

  /**
   * The condition under which adding the record once more for every variable makes no difference.
   * It concerns only variables that are written without a separate record dimension.
   */
  predicate RecordAddedOnce(sh: Shape, nvars: nat) {
    sh.ndims < sh.fndims || sh.record <= 0 || nvars <= 1
  }

  lemma SameStart(sh: Shape, b: Batch, region: Region, nv: nat)
    requires ValidShape(sh) && ValidBatch(sh, b) && Stores(sh)
    requires |region.start| == sh.ndims && nv < |b.varids|
    requires RecordAddedOnce(sh, |b.varids|)
    ensures PutStart(sh, b, region, nv, nv + 1) == PutStart(sh, b, region, nv, 1)
  {
    if sh.record == 0 {
      assert (nv + 1) * 0 == 1 * 0;
    }
  }

  /** For a region with data, the serial and the parallel writer issue the same puts exactly under that condition. */
  lemma RegionAgreement(sh: Shape, b: Batch, s: Share, r: nat)
    requires ValidWrite(sh, b, s) && r < |s.regions|
    requires Stores(sh) && Product(s.regions[r].count) > 0
    ensures PutsOfRegion(sh, b, s, r, |b.varids|, true) == PutsOfRegion(sh, b, s, r, |b.varids|, false)
      <==> RecordAddedOnce(sh, |b.varids|)
  {
    var serial := PutsOfRegion(sh, b, s, r, |b.varids|, true);
    var parallel := PutsOfRegion(sh, b, s, r, |b.varids|, false);
    if RecordAddedOnce(sh, |b.varids|) {
      forall nv | 0 <= nv < |b.varids| ensures serial[nv] == parallel[nv] {
        SameStart(sh, b, s.regions[r], nv);
      }
    } else {
      assert serial[1].start[0] == s.regions[r].start[0] + 2 * sh.record;
      assert parallel[1].start[0] == s.regions[r].start[0] + 1 * sh.record;
    }
  }

  lemma RegionAgrees(sh: Shape, b: Batch, s: Share, r: nat)
    requires ValidWrite(sh, b, s) && r < |s.regions| && RecordAddedOnce(sh, |b.varids|)
    ensures PutsOfRegion(sh, b, s, r, |b.varids|, true) == PutsOfRegion(sh, b, s, r, |b.varids|, false)
  {
    if Stores(sh) && Product(s.regions[r].count) > 0 {
      RegionAgreement(sh, b, s, r);
    }
  }

  lemma ShareAgrees(sh: Shape, b: Batch, s: Share)
    requires ValidWrite(sh, b, s) && RecordAddedOnce(sh, |b.varids|)
    ensures PutsOfShare(sh, b, s, |s.regions|, true) == PutsOfShare(sh, b, s, |s.regions|, false)
  {
    var n := |s.regions|;
    forall r | 0 <= r < n
      ensures RegionParts(sh, b, s, n, true)[r] == RegionParts(sh, b, s, n, false)[r]
    {
      RegionAgrees(sh, b, s, r);
    }
    assert RegionParts(sh, b, s, n, true) == RegionParts(sh, b, s, n, false);
  }

  lemma TasksAgree(sh: Shape, b: Batch, shares: seq<Share>)
    requires ValidWrites(sh, b, shares) && RecordAddedOnce(sh, |b.varids|)
    ensures PutsOfTasks(sh, b, shares, |shares|, true) == PutsOfTasks(sh, b, shares, |shares|, false)
  {
    var n := |shares|;
    forall t | 0 <= t < n
      ensures ShareParts(sh, b, shares, n, true)[t] == ShareParts(sh, b, shares, n, false)[t]
    {
      ShareAgrees(sh, b, shares[t]);
    }
    assert ShareParts(sh, b, shares, n, true) == ShareParts(sh, b, shares, n, false);
  }

  ghost predicate DisjointBoxes(g: Region, h: Region) {
    forall idx :: InBox(idx, g.start, g.count) ==> !InBox(idx, h.start, h.count)
  }

  /** No two regions of the decomposition overlap. */
  ghost predicate DisjointRegions(shares: seq<Share>) {
    forall t, r, t', r' |
      0 <= t < |shares| && 0 <= r < |shares[t].regions| &&
      0 <= t' < |shares| && 0 <= r' < |shares[t'].regions| && (t != t' || r != r') ::
      DisjointBoxes(shares[t].regions[r], shares[t'].regions[r'])
  }

  lemma BoxesDisjoint(shares: seq<Share>, t: nat, r: nat, t': nat, r': nat, idx: Index)
    requires DisjointRegions(shares) && t < |shares| && r < |shares[t].regions|
    requires t' < |shares| && r' < |shares[t'].regions| && (t != t' || r != r')
    requires InBox(idx, shares[t].regions[r].start, shares[t].regions[r].count)
    ensures !InBox(idx, shares[t'].regions[r'].start, shares[t'].regions[r'].count)
  {
    assert DisjointBoxes(shares[t].regions[r], shares[t'].regions[r']);
  }

  /** Two entries of a batch are the same record of the same variable. */
  predicate SameTarget(sh: Shape, b: Batch, i: nat, j: nat)
    requires ValidBatch(sh, b) && i < |b.varids| && j < |b.varids|
  {
    b.varids[i] == b.varids[j] && (sh.ndims < sh.fndims && sh.record >= 0 ==> b.frame[i] == b.frame[j])
  }

  ghost predicate DistinctTargets(sh: Shape, b: Batch) {
    ValidBatch(sh, b) && forall i, j :: 0 <= i < j < |b.varids| ==> !SameTarget(sh, b, i, j)
  }

  /** The decomposition index that a file index of a put belongs to. */
  ghost function Core(sh: Shape, idx: Index): Index {
    if sh.ndims < sh.fndims then (if idx == [] then [] else idx[1..])
    else if sh.record >= 0 && idx != [] then idx[0 := idx[0] - sh.record]
    else idx
  }

  lemma CoreInRegion(sh: Shape, b: Batch, s: Share, r: nat, nv: nat, idx: Index)
    requires ValidWrite(sh, b, s) && Stores(sh) && r < |s.regions| && nv < |b.varids|
    requires var p := RegionPut(sh, b, s, r, nv, 1); InBox(idx, p.start, p.count)
    ensures InBox(Core(sh, idx), s.regions[r].start, s.regions[r].count)
    ensures sh.ndims < sh.fndims ==> idx[0] == b.frame[nv]
  {
    var p, g, core := RegionPut(sh, b, s, r, nv, 1), s.regions[r], Core(sh, idx);
    if sh.ndims < sh.fndims {
      forall d | 0 <= d < |core| ensures g.start[d] <= core[d] < g.start[d] + g.count[d] {
        assert p.start[d + 1] <= idx[d + 1] < p.start[d + 1] + p.count[d + 1];
      }
    }
  }

  /** Puts of one region that reach a common index go to the same record of the same variable. */
  lemma SameRegionSameTarget(sh: Shape, b: Batch, s: Share, r: nat, nv: nat, nv': nat, idx: Index)
    requires ValidWrite(sh, b, s) && Stores(sh) && r < |s.regions| && nv < |b.varids| && nv' < |b.varids|
    requires b.varids[nv] == b.varids[nv']
    requires var p := RegionPut(sh, b, s, r, nv, 1); InBox(idx, p.start, p.count)
    requires var q := RegionPut(sh, b, s, r, nv', 1); InBox(idx, q.start, q.count)
    ensures SameTarget(sh, b, nv, nv')
  {
    CoreInRegion(sh, b, s, r, nv, idx);
    CoreInRegion(sh, b, s, r, nv', idx);
  }

  lemma OverlapIsSame(
    sh: Shape, b: Batch, shares: seq<Share>, t: nat, r: nat, nv: nat, t': nat, r': nat, nv': nat, idx: Index)
    requires ValidWrites(sh, b, shares) && DisjointRegions(shares) && DistinctTargets(sh, b) && Stores(sh)
    requires t < |shares| && r < |shares[t].regions| && nv < |b.varids|
    requires t' < |shares| && r' < |shares[t'].regions| && nv' < |b.varids|
    requires b.varids[nv] == b.varids[nv']
    requires var p := RegionPut(sh, b, shares[t], r, nv, 1); InBox(idx, p.start, p.count)
    requires var q := RegionPut(sh, b, shares[t'], r', nv', 1); InBox(idx, q.start, q.count)
    ensures t == t' && r == r' && nv == nv'
  {
    CoreInRegion(sh, b, shares[t], r, nv, idx);
    CoreInRegion(sh, b, shares[t'], r', nv', idx);
    if t != t' || r != r' {
      BoxesDisjoint(shares, t, r, t', r', Core(sh, idx));
    } else {
      SameRegionSameTarget(sh, b, shares[t], r, nv, nv', idx);
      SameRegionSameTarget(sh, b, shares[t], r, nv', nv, idx);
    }
  }

  lemma TwoPutsDisjoint(sh: Shape, b: Batch, shares: seq<Share>, t: nat, r: nat, nv: nat, t': nat, r': nat, nv': nat)
    requires ValidWrites(sh, b, shares) && DisjointRegions(shares) && DistinctTargets(sh, b) && Stores(sh)
    requires t < |shares| && r < |shares[t].regions| && nv < |b.varids|
    requires t' < |shares| && r' < |shares[t'].regions| && nv' < |b.varids|
    ensures var p, q := RegionPut(sh, b, shares[t], r, nv, 1), RegionPut(sh, b, shares[t'], r', nv', 1);
      p == q || DisjointPuts(p, q)
  {
    var p, q := RegionPut(sh, b, shares[t], r, nv, 1), RegionPut(sh, b, shares[t'], r', nv', 1);
    if p.varid == q.varid && (t, r, nv) != (t', r', nv') {
      forall idx | InBox(idx, p.start, p.count) ensures !InBox(idx, q.start, q.count) {
        if InBox(idx, q.start, q.count) {
          OverlapIsSame(sh, b, shares, t, r, nv, t', r', nv', idx);
        }
      }
    }
  }

  /** The puts of a write with disjoint regions and distinct targets do not overlap. */
  lemma PutsConsistent(sh: Shape, b: Batch, shares: seq<Share>)
    requires ValidWrites(sh, b, shares) && DisjointRegions(shares) && DistinctTargets(sh, b)
    ensures Consistent(PutsOfTasks(sh, b, shares, |shares|, false))
  {
    var puts := PutsOfTasks(sh, b, shares, |shares|, false);
    forall p, q | p in puts && q in puts && p != q ensures DisjointPuts(p, q) {
      var t, r, nv := PutsOfTasksMembers(sh, b, shares, false, p);
      var t', r', nv' := PutsOfTasksMembers(sh, b, shares, false, q);
      TwoPutsDisjoint(sh, b, shares, t, r, nv, t', r', nv');
    }
  }

  /** `merged` consists of the calls of all tasks, in some order. */
  ghost predicate Interleaves(traces: seq<seq<Put>>, merged: seq<Put>) {
    forall p :: p in merged <==> exists t :: 0 <= t < |traces| && p in traces[t]
  }

  lemma {:induction false} NonEmptyMembers(ps: seq<Put>, p: Put)
    ensures p in NonEmpty(ps) <==> p in ps && !EmptyPut(p)
  {
    if ps == [] {
    } else {
      NonEmptyMembers(ps[..|ps| - 1], p);
    }
  }

  /** The calls of all parallel tasks: those with data are the puts of each task's regions, in order. */
  ghost predicate ParallelTraces(sh: Shape, b: Batch, shares: seq<Share>, traces: seq<seq<Put>>)
    requires ValidWrites(sh, b, shares)
  {
    |traces| == |shares| && forall t :: 0 <= t < |shares| ==>
      AllPutsValid(traces[t]) && NonEmpty(traces[t]) == PutsOfShare(sh, b, shares[t], |shares[t].regions|, false)
  }

  /** The calls with data of all tasks together are the puts of the decomposition. */
  lemma TracesSamePuts(sh: Shape, b: Batch, shares: seq<Share>, traces: seq<seq<Put>>, merged: seq<Put>)
    requires ValidWrites(sh, b, shares) && ParallelTraces(sh, b, shares, traces) && Interleaves(traces, merged)
    ensures SamePuts(merged, PutsOfTasks(sh, b, shares, |shares|, false))
  {
    var puts := PutsOfTasks(sh, b, shares, |shares|, false);
    var parts := ShareParts(sh, b, shares, |shares|, false);
    forall p | p in merged && !EmptyPut(p) ensures p in puts {
      var t :| 0 <= t < |traces| && p in traces[t];
      NonEmptyMembers(traces[t], p);
      assert p in parts[t];
      InFlatten(parts, p);
    }
    forall p | p in puts && !EmptyPut(p) ensures p in merged {
      InFlatten(parts, p);
      var t :| 0 <= t < |parts| && p in parts[t];
      NonEmptyMembers(traces[t], p);
    }
  }

  lemma InBoxNotEmpty(p: Put, idx: Index)
    requires ValidPut(p) && InBox(idx, p.start, p.count)
    ensures !EmptyPut(p)
  {
    IndicesAreBox(p.start, p.count, idx);
    IndicesLength(p.start, p.count);
  }

  lemma ConsistentWithEmpties(puts: seq<Put>, merged: seq<Put>)
    requires Consistent(puts) && SamePuts(merged, puts)
    requires forall p :: p in merged ==> ValidPut(p)
    ensures Consistent(merged)
  {
    forall p, q | p in merged && q in merged && p != q ensures DisjointPuts(p, q) {
      assert !EmptyPut(p) && !EmptyPut(q) ==> DisjointPuts(p, q);
      forall idx | p.varid == q.varid && InBox(idx, p.start, p.count) ensures !InBox(idx, q.start, q.count) {
        InBoxNotEmpty(p, idx);
        if InBox(idx, q.start, q.count) {
          InBoxNotEmpty(q, idx);
        }
      }
    }
  }

  /** A key is touched by the puts of one region only. */
  lemma OneRegionTouches(
    sh: Shape, b: Batch, shares: seq<Share>, t: nat, r: nat, nv: nat, t': nat, r': nat, nv': nat, k: Key)
    requires ValidWrites(sh, b, shares) && DisjointRegions(shares) && Stores(sh)
    requires t < |shares| && r < |shares[t].regions| && nv < |b.varids|
    requires t' < |shares| && r' < |shares[t'].regions| && nv' < |b.varids|
    requires Touches(RegionPut(sh, b, shares[t], r, nv, 1), k) && Touches(RegionPut(sh, b, shares[t'], r', nv', 1), k)
    ensures t == t' && r == r'
  {
    PatchKeys(RegionPut(sh, b, shares[t], r, nv, 1), k);
    PatchKeys(RegionPut(sh, b, shares[t'], r', nv', 1), k);
    CoreInRegion(sh, b, shares[t], r, nv, k.1);
    CoreInRegion(sh, b, shares[t'], r', nv', k.1);
    if t != t' || r != r' {
      BoxesDisjoint(shares, t, r, t', r', Core(sh, k.1));
    }
  }

  /** Two tasks do not touch the same key, whatever variables they write. */
  lemma OneTaskTouches(sh: Shape, b: Batch, shares: seq<Share>, t: nat, u: nat, k: Key)
    requires ValidWrites(sh, b, shares) && DisjointRegions(shares) && t < |shares| && u < |shares| && t != u
    requires Touching(PutsOfShare(sh, b, shares[t], |shares[t].regions|, false), k) != []
    ensures Touching(PutsOfShare(sh, b, shares[u], |shares[u].regions|, false), k) == []
  {
    var own, other := PutsOfShare(sh, b, shares[t], |shares[t].regions|, false),
      PutsOfShare(sh, b, shares[u], |shares[u].regions|, false);
    if Touching(other, k) != [] {
      var p := TouchingMember(own, k);
      var q := TouchingMember(other, k);
      var r, nv := PutsOfShareMembers(sh, b, shares[t], false, p);
      var r', nv' := PutsOfShareMembers(sh, b, shares[u], false, q);
      OneRegionTouches(sh, b, shares, t, r, nv, u, r', nv', k);
    }
  }

  /** Some task such that no other one touches the key. */
  lemma TaskOfKey(sh: Shape, b: Batch, shares: seq<Share>, k: Key) returns (t: nat)
    requires ValidWrites(sh, b, shares) && DisjointRegions(shares) && shares != []
    ensures t < |shares|
    ensures forall u :: 0 <= u < |shares| && u != t ==>
      Touching(PutsOfShare(sh, b, shares[u], |shares[u].regions|, false), k) == []
  {
    if v :| 0 <= v < |shares| && Touching(PutsOfShare(sh, b, shares[v], |shares[v].regions|, false), k) != [] {
      t := v;
      forall u | 0 <= u < |shares| && u != t
        ensures Touching(PutsOfShare(sh, b, shares[u], |shares[u].regions|, false), k) == []
      {
        OneTaskTouches(sh, b, shares, t, u, k);
      }
    } else {
      t := 0;
    }
  }

  lemma TraceTouching(sh: Shape, b: Batch, shares: seq<Share>, traces: seq<seq<Put>>, t: nat, k: Key)
    requires ValidWrites(sh, b, shares) && ParallelTraces(sh, b, shares, traces) && t < |shares|
    ensures Touching(traces[t], k) == Touching(PutsOfShare(sh, b, shares[t], |shares[t].regions|, false), k)
  {
    TouchingNonEmpty(traces[t], k);
  }

  lemma MergedValid(sh: Shape, b: Batch, shares: seq<Share>, traces: seq<seq<Put>>, merged: seq<Put>)
    requires ValidWrites(sh, b, shares) && ParallelTraces(sh, b, shares, traces) && Merges(traces, merged)
    ensures AllPutsValid(merged)
  {
    forall p | p in merged ensures ValidPut(p) {
      MergedMembers(traces, merged, p);
    }
  }

  /** Whatever the interleaving, the tasks treat every key as if they wrote one after the other. */
  lemma MergedLikeTasks(sh: Shape, b: Batch, shares: seq<Share>, traces: seq<seq<Put>>, merged: seq<Put>, k: Key)
    requires ValidWrites(sh, b, shares) && DisjointRegions(shares) && shares != []
    requires ParallelTraces(sh, b, shares, traces) && Merges(traces, merged)
    ensures Touching(merged, k) == Touching(PutsOfTasks(sh, b, shares, |shares|, false), k)
  {
    var parts := ShareParts(sh, b, shares, |shares|, false);
    var t := TaskOfKey(sh, b, shares, k);
    forall u | 0 <= u < |shares| ensures Touching(traces[u], k) == Touching(parts[u], k) {
      TraceTouching(sh, b, shares, traces, u, k);
    }
    MergedTouching(traces, merged, k, t);
    FlattenTouching(parts, k, t);
  }

  lemma NoTasksNoFile(sh: Shape, b: Batch, traces: seq<seq<Put>>, merged: seq<Put>)
    requires ValidWrites(sh, b, []) && traces == [] && Merges(traces, merged)
    ensures merged == [] && PutsOfTasks(sh, b, [], 0, false) == []
  {
    assert ShareParts(sh, b, [], 0, false) == [];
  }

  /** Every interleaving of the parallel tasks leaves the file that they leave one after the other. */
  lemma InterleavingIrrelevant(
    file: FileData, sh: Shape, b: Batch, shares: seq<Share>, traces: seq<seq<Put>>, merged: seq<Put>)
    requires ValidWrites(sh, b, shares) && DisjointRegions(shares)
    requires ParallelTraces(sh, b, shares, traces) && Merges(traces, merged)
    ensures AllPutsValid(merged)
    ensures ApplyAll(file, merged) == ApplyAll(file, PutsOfTasks(sh, b, shares, |shares|, false))
  {
    MergedValid(sh, b, shares, traces, merged);
    if shares == [] {
      NoTasksNoFile(sh, b, traces, merged);
    } else {
      forall k: Key ensures Touching(merged, k) == Touching(PutsOfTasks(sh, b, shares, |shares|, false), k) {
        MergedLikeTasks(sh, b, shares, traces, merged, k);
      }
      SameTouching(file, merged, PutsOfTasks(sh, b, shares, |shares|, false));
    }
  }

  /**
   * Every interleaving of the parallel netCDF-4 tasks leaves the file that the serial writer leaves,
   * provided the record is added once. A batch may hold the same record of a variable several times.
   */
  lemma SerialEqualsParallel(
    file: FileData, sh: Shape, b: Batch, shares: seq<Share>, traces: seq<seq<Put>>, merged: seq<Put>)
    requires ValidWrites(sh, b, shares) && DisjointRegions(shares) && RecordAddedOnce(sh, |b.varids|)
    requires ParallelTraces(sh, b, shares, traces) && Merges(traces, merged)
    ensures AllPutsValid(merged)
    ensures ApplyAll(file, merged) == ApplyAll(file, PutsOfTasks(sh, b, shares, |shares|, true))
  {
    TasksAgree(sh, b, shares);
    InterleavingIrrelevant(file, sh, b, shares, traces, merged);
  }

  /** The calls that are left of one task come last. */
  lemma MergesSnoc(traces: seq<seq<Put>>, merged: seq<Put>, t: nat, p: Put)
    requires Merges(traces, merged) && t < |traces|
    ensures Merges(traces[t := traces[t] + [p]], merged + [p])
  {
    var longer := traces[t := traces[t] + [p]];
    assert WithoutLast(longer, t) == traces by {
      assert (traces[t] + [p])[..|traces[t]|] == traces[t];
    }
    assert (merged + [p])[..|merged|] == merged;
    assert EndsWith(longer[t], p);
  }

  method WriteAllNetcdf4p(sh: Shape, b: Batch, shares: seq<Share>, numRegions: nat) returns (traces: seq<seq<Put>>)
    requires ValidWrites(sh, b, shares) && forall t :: 0 <= t < |shares| ==> |shares[t].regions| <= numRegions
    ensures ParallelTraces(sh, b, shares, traces)
  {
    traces := [];
    for t := 0 to |shares|
      invariant |traces| == t
      invariant forall u :: 0 <= u < t ==>
        AllPutsValid(traces[u]) && NonEmpty(traces[u]) == PutsOfShare(sh, b, shares[u], |shares[u].regions|, false)
    {
      var rounds := WriteNetcdf4p(sh, b, shares[t], numRegions);
      forall p | p in Flatten(rounds) ensures ValidPut(p) {
        InFlatten(rounds, p);
        var r :| 0 <= r < |rounds| && p in rounds[r];
        assert InStep(b, rounds[r]);
      }
      traces := traces + [Flatten(rounds)];
    }
  }

  /** The calls made so far: the first `made[t]` calls of every task. */
  ghost predicate MadeSoFar(traces: seq<seq<Put>>, made: seq<nat>, so: seq<seq<Put>>) {
    |made| == |so| == |traces| &&
    forall t :: 0 <= t < |traces| ==> made[t] <= |traces[t]| && so[t] == traces[t][..made[t]]
  }

  /** What holds between two calls: the file is the one after an interleaving of the calls made so far. */
  ghost predicate Progress(
    before: FileData, after: FileData, traces: seq<seq<Put>>, made: seq<nat>, so: seq<seq<Put>>, merged: seq<Put>)
  {
    MadeSoFar(traces, made, so) && Merges(so, merged) && AllPutsValid(merged) && after == ApplyAll(before, merged)
  }

  lemma ProgressStep(
    before: FileData, after: FileData, traces: seq<seq<Put>>, made: seq<nat>, so: seq<seq<Put>>, merged: seq<Put>,
    t: nat)
    requires Progress(before, after, traces, made, so, merged)
    requires t < |traces| && made[t] < |traces[t]| && ValidPut(traces[t][made[t]])
    ensures var p := traces[t][made[t]];
      Progress(before, after + Patch(p), traces, made[t := made[t] + 1], so[t := so[t] + [p]], merged + [p])
  {
    var p := traces[t][made[t]];
    MergesSnoc(so, merged, t, p);
    ApplyAllSnoc(before, merged, p);
    assert traces[t][..made[t] + 1] == traces[t][..made[t]] + [p];
  }

  lemma AllMade(traces: seq<seq<Put>>, made: seq<nat>, so: seq<seq<Put>>)
    requires MadeSoFar(traces, made, so) && forall t :: 0 <= t < |traces| ==> made[t] == |traces[t]|
    ensures so == traces
  {
    assert forall t :: 0 <= t < |traces| ==> so[t] == traces[t];
  }

  /** The next call of one task takes effect. */
  method MakeCall(
    file: NcFile, traces: seq<seq<Put>>, made: seq<nat>, t: nat, ghost before: FileData, ghost so: seq<seq<Put>>,
    ghost merged: seq<Put>) returns (made': seq<nat>, ghost so': seq<seq<Put>>, ghost merged': seq<Put>)
    requires Progress(before, file.data, traces, made, so, merged)
    requires t < |traces| && made[t] < |traces[t]| && AllPutsValid(traces[t])
    modifies file
    ensures Progress(before, file.data, traces, made', so', merged')
    ensures made' == made[t := made[t] + 1]
  {
    var p := traces[t][made[t]];
    ProgressStep(before, file.data, traces, made, so, merged, t);
    file.PutVara(p.varid, p.start, p.count, p.data);
    made', so', merged' := made[t := made[t] + 1], so[t := so[t] + [p]], merged + [p];
  }

  /** The tasks make their calls as `schedule` names them; what the schedule leaves over is made in the end. */
  method RunTasks(file: NcFile, traces: seq<seq<Put>>, schedule: seq<nat>) returns (ghost merged: seq<Put>)
    requires forall t :: 0 <= t < |traces| ==> AllPutsValid(traces[t])
    modifies file
    ensures Merges(traces, merged) && AllPutsValid(merged)
    ensures file.data == ApplyAll(old(file.data), merged)
  {
    ghost var before := file.data;
    merged := [];
    var made: seq<nat> := seq(|traces|, t => 0);
    ghost var so: seq<seq<Put>> := seq(|traces|, t => []);
    for i := 0 to |schedule|
      invariant Progress(before, file.data, traces, made, so, merged)
    {
      if schedule[i] < |traces| && made[schedule[i]] < |traces[schedule[i]]| {
        made, so, merged := MakeCall(file, traces, made, schedule[i], before, so, merged);
      }
    }
    for t := 0 to |traces|
      invariant Progress(before, file.data, traces, made, so, merged)
      invariant forall u :: 0 <= u < t ==> made[u] == |traces[u]|
    {
      while made[t] < |traces[t]|
        invariant Progress(before, file.data, traces, made, so, merged)
        invariant forall u :: 0 <= u < t ==> made[u] == |traces[u]|
        decreases |traces[t]| - made[t]
      {
        made, so, merged := MakeCall(file, traces, made, t, before, so, merged);
      }
    }
    AllMade(traces, made, so);
  }

  /** The whole netCDF-4 write: whatever the schedule, the tasks leave the file that the serial write leaves. */
  method WriteDarrayMultiPar(
    file: NcFile, sh: Shape, b: Batch, shares: seq<Share>, maxregions: nat, schedule: seq<nat>)
    requires ValidWrites(sh, b, shares) && DisjointRegions(shares)
    requires forall t :: 0 <= t < |shares| ==> |shares[t].regions| <= maxregions
    modifies file
    ensures file.data == ApplyAll(old(file.data), PutsOfTasks(sh, b, shares, |shares|, false))
    ensures RecordAddedOnce(sh, |b.varids|) ==>
      file.data == ApplyAll(old(file.data), PutsOfTasks(sh, b, shares, |shares|, true))
  {
    ghost var before := file.data;
    var traces := WriteAllNetcdf4p(sh, b, shares, maxregions);
    ghost var merged := RunTasks(file, traces, schedule);
    InterleavingIrrelevant(before, sh, b, shares, traces, merged);
    if RecordAddedOnce(sh, |b.varids|) {
      TasksAgree(sh, b, shares);
    }
  }

  /** If the targets are distinct, even the order of one task's calls does not matter. */
  lemma SerialEqualsAnyOrder(
    file: FileData, sh: Shape, b: Batch, shares: seq<Share>, traces: seq<seq<Put>>, merged: seq<Put>)
    requires ValidWrites(sh, b, shares) && DisjointRegions(shares) && DistinctTargets(sh, b)
    requires RecordAddedOnce(sh, |b.varids|)
    requires ParallelTraces(sh, b, shares, traces) && Interleaves(traces, merged) && AllPutsValid(merged)
    ensures ApplyAll(file, merged) == ApplyAll(file, PutsOfTasks(sh, b, shares, |shares|, true))
  {
    TasksAgree(sh, b, shares);
    PutsConsistent(sh, b, shares);
    TracesSamePuts(sh, b, shares, traces, merged);
    ConsistentWithEmpties(PutsOfTasks(sh, b, shares, |shares|, false), merged);
    OrderIrrelevant(file, merged, PutsOfTasks(sh, b, shares, |shares|, false));
  }

  /** The same for the PnetCDF requests, completed in any order. */
  lemma SerialEqualsPnetcdf(
    file: FileData, sh: Shape, b: Batch, shares: seq<Share>, requests: seq<seq<Varn>>, numRegions: nat,
    merged: seq<Put>)
    requires ValidWrites(sh, b, shares) && DisjointRegions(shares) && DistinctTargets(sh, b)
    requires RecordAddedOnce(sh, |b.varids|)
    requires |requests| == |shares|
    requires forall t :: 0 <= t < |shares| ==> |shares[t].regions| <= numRegions
    requires forall t :: 0 <= t < |shares| ==> |requests[t]| == if numRegions > 0 then |b.varids| else 0
    requires forall t, nv :: 0 <= t < |shares| && 0 <= nv < |requests[t]| ==>
      IsRequest(sh, b, shares[t], requests[t][nv], nv)
    requires forall p :: p in merged <==> exists t :: 0 <= t < |requests| && RequestedPut(requests[t], p)
    ensures forall p :: p in merged ==> ValidPut(p)
    ensures ApplyAll(file, merged) == ApplyAll(file, PutsOfTasks(sh, b, shares, |shares|, true))
  {
    var puts := PutsOfTasks(sh, b, shares, |shares|, false);
    var parts := ShareParts(sh, b, shares, |shares|, false);
    forall p ensures p in merged <==> p in puts {
      InFlatten(parts, p);
      forall t | 0 <= t < |shares| ensures RequestedPut(requests[t], p) <==> p in parts[t] {
        RequestsAreThePuts(sh, b, shares[t], requests[t], numRegions, p);
      }
    }
    TasksAgree(sh, b, shares);
    PutsConsistent(sh, b, shares);
    OrderIrrelevant(file, merged, puts);
  }

  // How far the condition reaches: a write of any data shows the difference.

  ghost predicate Touched(puts: seq<Put>, k: Key)
    requires AllPutsValid(puts)
  {
    puts != [] && (k in Patch(puts[|puts| - 1]) || Touched(puts[..|puts| - 1], k))
  }

  lemma {:induction false} TouchedBy(puts: seq<Put>, p: Put, k: Key)
    requires AllPutsValid(puts) && p in puts && k in Patch(p)
    ensures Touched(puts, k)
  {
    var n := |puts| - 1;
    if p == puts[n] {
    } else {
      assert p in puts[..n];
      TouchedBy(puts[..n], p, k);
    }
  }

  lemma {:induction false} ToucherOf(puts: seq<Put>, k: Key) returns (p: Put)
    requires AllPutsValid(puts) && Touched(puts, k)
    ensures p in puts && k in Patch(p)
  {
    var n := |puts| - 1;
    if k in Patch(puts[n]) {
      p := puts[n];
    } else {
      p := ToucherOf(puts[..n], k);
    }
  }

  lemma {:induction false} ApplyAllKeys(puts: seq<Put>, k: Key)
    requires AllPutsValid(puts)
    ensures k in ApplyAll(map[], puts) <==> Touched(puts, k)
  {
    if puts == [] {
    } else {
      ApplyAllKeys(puts[..|puts| - 1], k);
    }
  }

  /** An element of variable `v` that lies farthest along the first dimension. */
  lemma {:induction false} Farthest(keys: set<Key>, v: int, k0: Key) returns (k: Key)
    requires k0 in keys && k0.0 == v && |k0.1| > 0
    ensures k in keys && k.0 == v && |k.1| > 0
    ensures forall x :: x in keys && x.0 == v && |x.1| > 0 ==> x.1[0] <= k.1[0]
    decreases |keys|
  {
    var rest := keys - {k0};
    if y :| y in rest && y.0 == v && |y.1| > 0 {
      var z := Farthest(rest, v, y);
      k := if z.1[0] >= k0.1[0] then z else k0;
    } else {
      k := k0;
    }
  }

  lemma StartMoves(sh: Shape, b: Batch, region: Region)
    requires ValidShape(sh) && ValidBatch(sh, b) && Stores(sh) && |region.start| == sh.ndims
    requires !RecordAddedOnce(sh, |b.varids|)
    ensures var once, twice := PutStart(sh, b, region, 1, 1), PutStart(sh, b, region, 1, 2);
      |once| > 0 && twice == once[0 := once[0] + sh.record]
  {
    assert 2 * sh.record == 1 * sh.record + sh.record;
  }

  /** `q` is `p`, moved by `d` along the first dimension. */
  ghost predicate Moved(p: Put, q: Put, d: int) {
    ValidPut(p) && ValidPut(q) && |p.start| > 0 &&
    q.varid == p.varid && q.start == p.start[0 := p.start[0] + d] && q.count == p.count
  }

  lemma SecondPuts(sh: Shape, b: Batch, s: Share, r: nat)
    requires ValidWrite(sh, b, s) && Stores(sh) && r < |s.regions| && !RecordAddedOnce(sh, |b.varids|)
    ensures Moved(RegionPut(sh, b, s, r, 1, 1), RegionPut(sh, b, s, r, 1, 2), sh.record)
  {
    StartMoves(sh, b, s.regions[r]);
  }

  lemma BoxMoves(idx: Index, start: seq<int>, count: seq<nat>, d: int)
    requires InBox(idx, start, count) && |start| > 0
    ensures InBox(idx[0 := idx[0] + d], start[0 := start[0] + d], count)
  {
  }

  /** Moving a put moves the keys it touches. */
  lemma PutMoves(p: Put, q: Put, k: Key, d: int)
    requires Moved(p, q, d) && k in Patch(p)
    ensures k.0 == p.varid && |k.1| > 0 && (k.0, k.1[0 := k.1[0] + d]) in Patch(q)
  {
    PatchKeys(p, k);
    BoxMoves(k.1, p.start, p.count, d);
    PatchKeys(q, (k.0, k.1[0 := k.1[0] + d]));
  }

  /** The puts of the parallel writers and of the serial one. */
  ghost predicate BothWrites(sh: Shape, b: Batch, shares: seq<Share>, parallel: seq<Put>, serial: seq<Put>) {
    ValidWrites(sh, b, shares) && parallel == PutsOfTasks(sh, b, shares, |shares|, false) &&
    serial == PutsOfTasks(sh, b, shares, |shares|, true) && AllPutsValid(parallel) && AllPutsValid(serial)
  }

  lemma SecondParallelPut(sh: Shape, b: Batch, shares: seq<Share>, parallel: seq<Put>, serial: seq<Put>, k: Key)
    returns (t: nat, r: nat)
    requires BothWrites(sh, b, shares, parallel, serial) && Stores(sh)
    requires !RecordAddedOnce(sh, |b.varids|) && k.0 == b.varids[1] && Touched(parallel, k)
    ensures t < |shares| && r < |shares[t].regions| && Product(shares[t].regions[r].count) > 0
    ensures k in Patch(RegionPut(sh, b, shares[t], r, 1, 1))
  {
    var p := ToucherOf(parallel, k);
    var nv;
    t, r, nv := PutsOfTasksMembers(sh, b, shares, false, p);
    PatchKeys(p, k);
    PatchKeys(RegionPut(sh, b, shares[t], r, 1, 1), k);
  }

  /** Where the parallel writers put an element of the second variable, the serial one puts one a record farther. */
  lemma SecondPair(sh: Shape, b: Batch, shares: seq<Share>, parallel: seq<Put>, serial: seq<Put>, k: Key)
    returns (p: Put, q: Put)
    requires BothWrites(sh, b, shares, parallel, serial) && Stores(sh)
    requires !RecordAddedOnce(sh, |b.varids|) && k.0 == b.varids[1] && Touched(parallel, k)
    ensures Moved(p, q, sh.record) && k in Patch(p) && q in serial
  {
    var t, r := SecondParallelPut(sh, b, shares, parallel, serial, k);
    p, q := RegionPut(sh, b, shares[t], r, 1, 1), RegionPut(sh, b, shares[t], r, 1, 2);
    SecondPuts(sh, b, shares[t], r);
    PutIsMember(sh, b, shares, true, t, r, 1);
  }

  lemma MemberMoves(puts: seq<Put>, p: Put, q: Put, k: Key, d: int)
    requires AllPutsValid(puts) && q in puts && Moved(p, q, d) && k in Patch(p)
    ensures |k.1| > 0 && Touched(puts, (k.0, k.1[0 := k.1[0] + d]))
  {
    PutMoves(p, q, k, d);
    TouchedBy(puts, q, (k.0, k.1[0 := k.1[0] + d]));
  }

  /** An element of the second variable, if any region has data. */
  lemma SecondVariableWritten(
    sh: Shape, b: Batch, shares: seq<Share>, parallel: seq<Put>, serial: seq<Put>, t: nat, r: nat) returns (k: Key)
    requires BothWrites(sh, b, shares, parallel, serial) && Stores(sh) && !RecordAddedOnce(sh, |b.varids|)
    requires t < |shares| && r < |shares[t].regions| && Product(shares[t].regions[r].count) > 0
    ensures Touched(parallel, k) && k.0 == b.varids[1]
  {
    var p := RegionPut(sh, b, shares[t], r, 1, 1);
    PutIsMember(sh, b, shares, false, t, r, 1);
    PatchAt(p, 0);
    k := (p.varid, Indices(p.start, p.count)[0]);
    TouchedBy(parallel, p, k);
  }

  /** Two sequences of puts leave the same file, whatever it held before. */
  ghost predicate AlwaysSameFile(a: seq<Put>, b: seq<Put>)
    requires forall p :: p in a || p in b ==> ValidPut(p)
  {
    forall file: FileData :: ApplyAll(file, a) == ApplyAll(file, b)
  }

  /** Whatever `parallel` touches of variable `v`, `serial` touches at a distance. */
  ghost predicate Shifted(parallel: seq<Put>, serial: seq<Put>, v: int, d: int)
    requires AllPutsValid(parallel) && AllPutsValid(serial)
  {
    forall k: Key :: k.0 == v && Touched(parallel, k) ==>
      |k.1| > 0 && Touched(serial, (k.0, k.1[0 := k.1[0] + d]))
  }

  /** A finite set of elements is not moved onto itself. */
  lemma ShiftedDiffer(parallel: seq<Put>, serial: seq<Put>, v: int, d: int, k0: Key)
    requires AllPutsValid(parallel) && AllPutsValid(serial) && Shifted(parallel, serial, v, d)
    requires d > 0 && k0.0 == v && Touched(parallel, k0)
    ensures ApplyAll(map[], serial) != ApplyAll(map[], parallel)
  {
    ApplyAllKeys(parallel, k0);
    var k := Farthest(ApplyAll(map[], parallel).Keys, v, k0);
    ApplyAllKeys(parallel, k);
    var moved := (k.0, k.1[0 := k.1[0] + d]);
    ApplyAllKeys(serial, moved);
    assert moved !in ApplyAll(map[], parallel).Keys;
  }

  /** Some put of `serial` is a put that touches `k`, moved by `d`. */
  ghost predicate MovedPutFor(serial: seq<Put>, k: Key, d: int) {
    exists p, q :: Moved(p, q, d) && q in serial && k in Patch(p)
  }

  lemma MovedPutsShift(parallel: seq<Put>, serial: seq<Put>, v: int, d: int)
    requires AllPutsValid(parallel) && AllPutsValid(serial)
    requires forall k: Key :: k.0 == v && Touched(parallel, k) ==> MovedPutFor(serial, k, d)
    ensures Shifted(parallel, serial, v, d)
  {
    forall k: Key | k.0 == v && Touched(parallel, k)
      ensures |k.1| > 0 && Touched(serial, (k.0, k.1[0 := k.1[0] + d]))
    {
      var p, q :| Moved(p, q, d) && q in serial && k in Patch(p);
      MemberMoves(serial, p, q, k, d);
    }
  }

  lemma SerialIsShifted(sh: Shape, b: Batch, shares: seq<Share>, parallel: seq<Put>, serial: seq<Put>)
    requires BothWrites(sh, b, shares, parallel, serial) && Stores(sh)
    requires !RecordAddedOnce(sh, |b.varids|)
    ensures Shifted(parallel, serial, b.varids[1], sh.record)
  {
    forall k: Key | k.0 == b.varids[1] && Touched(parallel, k) ensures MovedPutFor(serial, k, sh.record) {
      var p, q := SecondPair(sh, b, shares, parallel, serial, k);
    }
    MovedPutsShift(parallel, serial, b.varids[1], sh.record);
  }

  lemma DifferentFiles(sh: Shape, b: Batch, shares: seq<Share>, parallel: seq<Put>, serial: seq<Put>, t: nat, r: nat)
    requires BothWrites(sh, b, shares, parallel, serial) && Stores(sh)
    requires !RecordAddedOnce(sh, |b.varids|)
    requires t < |shares| && r < |shares[t].regions| && Product(shares[t].regions[r].count) > 0
    ensures ApplyAll(map[], serial) != ApplyAll(map[], parallel)
  {
    SerialIsShifted(sh, b, shares, parallel, serial);
    var k0 := SecondVariableWritten(sh, b, shares, parallel, serial, t, r);
    ShiftedDiffer(parallel, serial, b.varids[1], sh.record, k0);
  }

  lemma FilesDiffer(sh: Shape, b: Batch, shares: seq<Share>, t: nat, r: nat)
    requires ValidWrites(sh, b, shares) && Stores(sh) && !RecordAddedOnce(sh, |b.varids|)
    requires t < |shares| && r < |shares[t].regions| && Product(shares[t].regions[r].count) > 0
    ensures ApplyAll(map[], PutsOfTasks(sh, b, shares, |shares|, true)) !=
      ApplyAll(map[], PutsOfTasks(sh, b, shares, |shares|, false))
  {
    DifferentFiles(sh, b, shares, PutsOfTasks(sh, b, shares, |shares|, false),
      PutsOfTasks(sh, b, shares, |shares|, true), t, r);
  }

  /** Some region has data that the write stores. */
  ghost predicate StoresData(sh: Shape, shares: seq<Share>) {
    Stores(sh) &&
    exists t, r :: 0 <= t < |shares| && 0 <= r < |shares[t].regions| && Product(shares[t].regions[r].count) > 0
  }

  lemma NothingStored(sh: Shape, b: Batch, shares: seq<Share>, accumulate: bool)
    requires ValidWrites(sh, b, shares) && !StoresData(sh, shares)
    ensures PutsOfTasks(sh, b, shares, |shares|, accumulate) == []
  {
    var puts := PutsOfTasks(sh, b, shares, |shares|, accumulate);
    if puts != [] {
      var t, r, nv := PutsOfTasksMembers(sh, b, shares, accumulate, puts[0]);
    }
  }

  lemma SameFiles(sh: Shape, b: Batch, shares: seq<Share>)
    requires ValidWrites(sh, b, shares) && (RecordAddedOnce(sh, |b.varids|) || !StoresData(sh, shares))
    ensures PutsOfTasks(sh, b, shares, |shares|, true) == PutsOfTasks(sh, b, shares, |shares|, false)
  {
    if RecordAddedOnce(sh, |b.varids|) {
      TasksAgree(sh, b, shares);
    } else {
      NothingStored(sh, b, shares, true);
      NothingStored(sh, b, shares, false);
    }
  }

  /**
   * The serial writer and any interleaving of the parallel ones leave the same file, whatever it held before,
   * exactly when the record is added once or there is nothing to store.
   */
  lemma AgreementExact(sh: Shape, b: Batch, shares: seq<Share>, traces: seq<seq<Put>>, merged: seq<Put>)
    requires ValidWrites(sh, b, shares) && DisjointRegions(shares)
    requires ParallelTraces(sh, b, shares, traces) && Merges(traces, merged)
    ensures AllPutsValid(merged)
    ensures AlwaysSameFile(PutsOfTasks(sh, b, shares, |shares|, true), merged) <==>
      RecordAddedOnce(sh, |b.varids|) || !StoresData(sh, shares)
  {
    MergedValid(sh, b, shares, traces, merged);
    if RecordAddedOnce(sh, |b.varids|) || !StoresData(sh, shares) {
      SameFiles(sh, b, shares);
      forall file: FileData
        ensures ApplyAll(file, PutsOfTasks(sh, b, shares, |shares|, true)) == ApplyAll(file, merged)
      {
        InterleavingIrrelevant(file, sh, b, shares, traces, merged);
      }
    } else {
      var t, r :| 0 <= t < |shares| && 0 <= r < |shares[t].regions| && Product(shares[t].regions[r].count) > 0;
      FilesDiffer(sh, b, shares, t, r);
      InterleavingIrrelevant(map[], sh, b, shares, traces, merged);
    }
  }

  /** A write of two one-dimensional variables with record 1 and no record dimension, one element each. */
  const EXAMPLE_SHAPE := Shape(1, 1, 1)
  const EXAMPLE_BATCH := Batch([7, 8], [])
  const EXAMPLE_SHARE := Share([Region(0, [0], [1])], 1, [10, 20])

  lemma ExampleIsValid()
    ensures ValidWrite(EXAMPLE_SHAPE, EXAMPLE_BATCH, EXAMPLE_SHARE)
    ensures ValidWrites(EXAMPLE_SHAPE, EXAMPLE_BATCH, [EXAMPLE_SHARE])
    ensures DisjointRegions([EXAMPLE_SHARE])
    ensures !RecordAddedOnce(EXAMPLE_SHAPE, |EXAMPLE_BATCH.varids|)
  {
    assert Sizes(EXAMPLE_SHARE.regions) == [1];
  }

  /** Without the condition the files differ: the serial writer puts the second variable at index 2, not 1. */
  lemma SerialDiffersFromParallel()
    ensures ValidWrites(EXAMPLE_SHAPE, EXAMPLE_BATCH, [EXAMPLE_SHARE])
    ensures ApplyAll(map[], PutsOfTasks(EXAMPLE_SHAPE, EXAMPLE_BATCH, [EXAMPLE_SHARE], 1, true)) !=
      ApplyAll(map[], PutsOfTasks(EXAMPLE_SHAPE, EXAMPLE_BATCH, [EXAMPLE_SHARE], 1, false))
  {
    ExampleIsValid();
    assert Product(EXAMPLE_SHARE.regions[0].count) == 1;
    FilesDiffer(EXAMPLE_SHAPE, EXAMPLE_BATCH, [EXAMPLE_SHARE], 0, 0);
  }
}

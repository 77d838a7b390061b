/**
 * What the file holds after a write, element by element, in terms of the decomposition: every element of every
 * region is where it belongs, and nothing else has changed.
 */
module FileContents {
  import opened Hyperslabs
  import opened Decomposition
  import opened Interleaving
  import opened WriterAgreement
  import opened RoundTrip

  /** The file index of entry `nv` for an index of the decomposition: behind the record, or shifted by it. */
  function FileIndex(sh: Shape, b: Batch, nv: nat, idx: Index): Index
    requires ValidBatch(sh, b) && nv < |b.varids|
  {
    if sh.ndims < sh.fndims && sh.record >= 0 then [b.frame[nv]] + idx
    else if sh.record >= 0 && idx != [] then idx[0 := idx[0] + sh.record]
    else idx
  }

  /** The elements of a put are at the file indices of the elements of its region. */
  lemma PutIndex(sh: Shape, b: Batch, s: Share, r: nat, nv: nat, k: nat)
    requires ValidWrite(sh, b, s) && Stores(sh) && r < |s.regions| && nv < |b.varids|
    requires k < Product(s.regions[r].count)
    ensures var p, g := RegionPut(sh, b, s, r, nv, 1), s.regions[r];
      k < |Indices(g.start, g.count)| && k < |Indices(p.start, p.count)| &&
      Indices(p.start, p.count)[k] == FileIndex(sh, b, nv, Indices(g.start, g.count)[k])
  {
    var g := s.regions[r];
    IndicesLength(g.start, g.count);
    if sh.ndims < sh.fndims {
      IndicesInFront(b.frame[nv], g.start, g.count, k);
    } else if sh.record >= 0 {
      IndicesMoved(g.start, g.count, 1 * sh.record, k);
    }
  }

  /** Where element `k` of a region is in the file. */
  function ElementKey(sh: Shape, b: Batch, g: Region, nv: nat, k: nat): Key
    requires ValidBatch(sh, b) && nv < |b.varids| && |g.start| == |g.count| && k < Product(g.count)
  {
    IndicesLength(g.start, g.count);
    (b.varids[nv], FileIndex(sh, b, nv, Indices(g.start, g.count)[k]))
  }

  /** Where it is in the buffer, for entry `nv`. */
  function BufferPlace(s: Share, g: Region, nv: nat, k: nat): int {
    nv * s.llen + g.loffset + k
  }

  lemma ElementInBuffer(sh: Shape, b: Batch, s: Share, r: nat, nv: nat, k: nat, p: Put)
    requires ValidWrite(sh, b, s) && Stores(sh) && r < |s.regions| && nv < |b.varids|
    requires k < Product(s.regions[r].count) && p == RegionPut(sh, b, s, r, nv, 1)
    ensures 0 <= BufferPlace(s, s.regions[r], nv, k) < |s.iobuf|
    ensures p.data[k] == s.iobuf[BufferPlace(s, s.regions[r], nv, k)]
  {
    RegionFits(sh.ndims, s.regions, s.llen, r);
    BufferBounds(|b.varids|, s.llen, nv, s.regions[r].loffset, Product(s.regions[r].count), |s.iobuf|);
  }

  /** The put of the latest entry holds the element under its key. */
  lemma LatestPut(sh: Shape, b: Batch, s: Share, r: nat, nv: nat, k: nat, p: Put, key: Key)
    requires ValidWrite(sh, b, s) && Stores(sh) && r < |s.regions| && nv < |b.varids|
    requires k < Product(s.regions[r].count) && key == ElementKey(sh, b, s.regions[r], nv, k)
    requires p == RegionPut(sh, b, s, r, Latest(sh, b, nv), 1)
    ensures Touches(p, key) && Patch(p)[key] == p.data[k]
  {
    PutIndex(sh, b, s, r, Latest(sh, b, nv), k);
    PatchAt(p, k);
  }

  lemma LatestValue(file: FileData, sh: Shape, b: Batch, shares: seq<Share>, t: nat, r: nat, nv: nat, p: Put, key: Key)
    requires ValidWrites(sh, b, shares) && DisjointRegions(shares) && Stores(sh) && t < |shares|
    requires r < |shares[t].regions| && nv < |b.varids| && Product(shares[t].regions[r].count) > 0
    requires p == RegionPut(sh, b, shares[t], r, Latest(sh, b, nv), 1) && Touches(p, key)
    ensures key in AfterPuts(file, sh, b, shares) && AfterPuts(file, sh, b, shares)[key] == Patch(p)[key]
  {
    LatestEndsWith(sh, b, shares, t, r, nv, key);
    LastDecides(file, PutsOfTasks(sh, b, shares, |shares|, false), p, key);
  }

  /** The file holds an element of the buffer under the key. */
  ghost predicate Stored(after: FileData, key: Key, s: Share, at: int) {
    0 <= at < |s.iobuf| && key in after && after[key] == s.iobuf[at]
  }

  lemma IsStored(after: FileData, key: Key, s: Share, at: int, p: Put, k: nat)
    requires Touches(p, key) && key in after && after[key] == Patch(p)[key]
    requires 0 <= at < |s.iobuf| && k < |p.data| && Patch(p)[key] == p.data[k] == s.iobuf[at]
    ensures Stored(after, key, s, at)
  {
  }

  /**
   * Element k of region r of task t, for entry nv of the batch: it is found in the file under the variable, at the
   * k-th index of the region in row-major order behind or shifted by the record, and comes from element k of the
   * region in the part of the buffer that belongs to the entry, or the latest with the same variable and record.
   */
  lemma ElementStored(file: FileData, sh: Shape, b: Batch, shares: seq<Share>, t: nat, r: nat, nv: nat, k: nat)
    requires ValidWrites(sh, b, shares) && DisjointRegions(shares) && Stores(sh) && t < |shares|
    requires r < |shares[t].regions| && nv < |b.varids| && k < Product(shares[t].regions[r].count)
    ensures var s, g := shares[t], shares[t].regions[r];
      Stored(AfterPuts(file, sh, b, shares), ElementKey(sh, b, g, nv, k), s,
             BufferPlace(s, g, Latest(sh, b, nv), k))
  {
    var s, g, l := shares[t], shares[t].regions[r], Latest(sh, b, nv);
    var p, key := RegionPut(sh, b, s, r, l, 1), ElementKey(sh, b, g, nv, k);
    LatestPut(sh, b, s, r, nv, k, p, key);
    ElementInBuffer(sh, b, s, r, l, k, p);
    LatestValue(file, sh, b, shares, t, r, nv, p, key);
    IsStored(AfterPuts(file, sh, b, shares), key, s, BufferPlace(s, g, l, k), p, k);
  }

  /** The key belongs to some element that is stored. */
  ghost predicate IsElement(sh: Shape, b: Batch, shares: seq<Share>, key: Key)
    requires ValidWrites(sh, b, shares)
  {
    exists t, r, nv, k :: 0 <= t < |shares| && 0 <= r < |shares[t].regions| && 0 <= nv < |b.varids| &&
      0 <= k < Product(shares[t].regions[r].count) && Stores(sh) &&
      key == ElementKey(sh, b, shares[t].regions[r], nv, k)
  }

  lemma TouchedIsElement(sh: Shape, b: Batch, shares: seq<Share>, key: Key)
    requires ValidWrites(sh, b, shares)
    requires Touching(PutsOfTasks(sh, b, shares, |shares|, false), key) != []
    ensures IsElement(sh, b, shares, key)
  {
    var p := TouchingMember(PutsOfTasks(sh, b, shares, |shares|, false), key);
    var t, r, nv := PutsOfTasksMembers(sh, b, shares, false, p);
    PatchKeys(p, key);
    IndicesAreBox(p.start, p.count, key.1);
    IndicesLength(p.start, p.count);
    var k :| 0 <= k < |Indices(p.start, p.count)| && Indices(p.start, p.count)[k] == key.1;
    PutIndex(sh, b, shares[t], r, nv, k);
    assert key == ElementKey(sh, b, shares[t].regions[r], nv, k);
  }

  /** Nothing else changes. */
  lemma ElsewhereUnchanged(file: FileData, sh: Shape, b: Batch, shares: seq<Share>, key: Key)
    requires ValidWrites(sh, b, shares) && !IsElement(sh, b, shares, key)
    ensures key in AfterPuts(file, sh, b, shares) <==> key in file
    ensures key in file ==> AfterPuts(file, sh, b, shares)[key] == file[key]
  {
    var puts := PutsOfTasks(sh, b, shares, |shares|, false);
    TouchingDecides(file, puts, key);
    if Touching(puts, key) != [] {
      TouchedIsElement(sh, b, shares, key);
      assert false;
    }
  }
}

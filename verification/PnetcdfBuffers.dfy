/**
 * The life of the buffers that non-blocking PnetCDF puts refer to, on the IO tasks: `iobuf` and the
 * variables' `fillbuf` stay allocated after a write until a flush has waited for all requests.
 * A buffer is a number that no other allocation gets.
 */
module PnetcdfBuffers {
  import opened Decomposition
  import opened Sequences

  datatype Collective = WaitAll | AllreduceUsage

  /**
   * One IO task's part of a write, in elements of one variable: room in the buffer and elements to put, for the
   * data and for the fill values of the holes.
   */
  datatype Part = Part(llen: nat, count: nat, holegridsize: nat, fillcount: nat)

  /**
   * One write of the variables `varids`, with elements of `size` bytes. `parts` and `usage` have one entry for
   * each IO task; `limit` is the buffer usage at which a flush is due.
   */
  datatype Write = Write(
    varids: seq<nat>, size: nat, maxregions: nat, maxiobuflen: nat, subset: bool, needsfill: bool,
    maxfillregions: nat, maxholegridsize: nat, parts: seq<Part>, flushtodisk: bool, usage: seq<nat>, limit: nat)

  /** An unfinished put of a variable: `bytes` bytes from byte `first` of a buffer. */
  datatype Pending = Pending(varid: nat, buf: Option<nat>, first: nat, bytes: nat)

  /**
   * What one IO task knows: its buffers, the counts of requests by variable, the unfinished puts, the sizes of
   * what is allocated, and the collective calls it has made.
   */
  datatype Buffers = Buffers(
    iobuf: Option<nat>, fillbuf: seq<Option<nat>>, nreqs: seq<nat>, outstanding: seq<Pending>, live: map<nat, nat>,
    next: nat, calls: seq<Collective>)

  function NoBuffers(n: nat): (r: seq<Option<nat>>)
    ensures |r| == n && forall i :: 0 <= i < n ==> r[i] == None
  {
    seq(n, _ => None)
  }

  function Held(o: Option<nat>): set<nat> {
    if o.Some? then {o.value} else {}
  }

  /** The buffers held by the first `n` entries. */
  function HeldBy(s: seq<Option<nat>>, n: nat): (r: set<nat>)
    requires n <= |s|
    ensures forall b :: b in r <==> exists i :: 0 <= i < n && s[i] == Some(b)
  {
    if n == 0 then {} else HeldBy(s, n - 1) + Held(s[n - 1])
  }

  // The effect of the code on one task, in one step each.

  /** A flush that takes place. */
  function Flushed(s: Buffers): Buffers {
    s.(iobuf := None, fillbuf := NoBuffers(|s.fillbuf|), nreqs := Zeros(|s.nreqs|), outstanding := [],
       live := s.live - Held(s.iobuf) - HeldBy(s.fillbuf, |s.fillbuf|), calls := s.calls + [WaitAll])
  }

  function FlushedIf(s: Buffers, force: bool, usage: nat, limit: nat): Buffers {
    var asked := if force then s else s.(calls := s.calls + [AllreduceUsage]);
    if force || usage >= limit then Flushed(asked) else asked
  }

  function Counted(nreqs: seq<nat>, varids: seq<nat>, n: nat): (r: seq<nat>)
    requires n <= |varids|
    ensures |r| == |nreqs|
  {
    if n == 0 then nreqs
    else
      var before := Counted(nreqs, varids, n - 1);
      if varids[n - 1] < |before| then before[varids[n - 1] := before[varids[n - 1]] + 1] else before
  }

  /** The part of the buffer that the put of entry `nv` of a batch refers to. */
  function PendingOf(varid: nat, buf: Option<nat>, size: nat, llen: nat, count: nat, nv: nat): Pending {
    Pending(varid, buf, nv * size * llen, count * size)
  }

  function Puts(varids: seq<nat>, buf: Option<nat>, size: nat, llen: nat, count: nat): (r: seq<Pending>)
    ensures |r| == |varids|
  {
    seq(|varids|, nv requires 0 <= nv < |varids| => PendingOf(varids[nv], buf, size, llen, count, nv))
  }

  /** `write_darray_multi_par`: earlier requests are waited for, then every variable gets one put from `buf`. */
  function Put(
    s: Buffers, buf: Option<nat>, varids: seq<nat>, size: nat, llen: nat, count: nat, regions: nat): Buffers
  {
    var waited := s.(outstanding := [], calls := s.calls + [WaitAll]);
    if regions == 0 then waited
    else
      waited.(outstanding := Puts(varids, buf, size, llen, count),
              nreqs := Counted(s.nreqs, varids, |varids|))
  }

  function Allocated(s: Buffers, bytes: nat): Buffers {
    s.(live := s.live[s.next := bytes], next := s.next + 1)
  }

  predicate LegalPart(w: Write, part: Part) {
    part.count <= part.llen <= w.maxiobuflen && part.fillcount <= part.holegridsize <= w.maxholegridsize
  }

  predicate LegalWrite(w: Write, nvars: nat, ranks: nat) {
    |w.varids| > 0 && (forall i :: 0 <= i < |w.varids| ==> w.varids[i] < nvars) &&
    |w.parts| == |w.usage| == ranks && forall t :: 0 <= t < ranks ==> LegalPart(w, w.parts[t])
  }

  const TOKEN_BYTES := 1

  /** A task without data gets a token, so that its `iobuf` is set like that of the others. */
  function IobufBytes(w: Write, part: Part): nat {
    if part.llen > 0 && w.maxiobuflen * |w.varids| > 0 then w.size * (w.maxiobuflen * |w.varids|) else TOKEN_BYTES
  }

  /** Up to the data's puts: a forced flush if the buffer is in use, a new buffer, the puts. */
  function DataWritten(s: Buffers, w: Write, part: Part): Buffers {
    var clean := if s.iobuf.Some? then Flushed(s) else s;
    var withBuf := Allocated(clean, IobufBytes(w, part)).(iobuf := Some(clean.next));
    Put(withBuf, Some(clean.next), w.varids, w.size, part.llen, part.count, w.maxregions)
  }

  function FillbufBytes(w: Write, rank: nat, part: Part): nat {
    (if rank == 0 then w.maxholegridsize else part.holegridsize) * w.size * |w.varids|
  }

  /** The puts of fill values, which the first variable of the batch owns the buffer of. */
  function FillWritten(s: Buffers, w: Write, rank: nat, part: Part): Buffers
    requires |w.varids| > 0 && w.varids[0] < |s.fillbuf|
  {
    if w.subset && w.needsfill then
      if rank == 0 || part.holegridsize > 0 then
        var withBuf :=
          Allocated(s, FillbufBytes(w, rank, part)).(fillbuf := s.fillbuf[w.varids[0] := Some(s.next)]);
        Put(withBuf, Some(s.next), w.varids, w.size, part.holegridsize, part.fillcount, w.maxfillregions)
      else
        Put(s, s.fillbuf[w.varids[0]], w.varids, w.size, part.holegridsize, part.fillcount, w.maxfillregions)
    else s
  }

  /** One write on one IO task; `usage` is the usage agreed on by all. */
  function Written(s: Buffers, w: Write, rank: nat, usage: nat): Buffers
    requires rank < |w.parts| && |w.varids| > 0 && w.varids[0] < |s.fillbuf|
  {
    var part := w.parts[rank];
    FlushedIf(FillWritten(DataWritten(s, w, part), w, rank, part), w.flushtodisk, usage, w.limit)
  }

  // What holds between calls.

  /** A put refers to allocated memory and reads inside it; without a buffer it reads nothing. */
  ghost predicate InsideBuffer(p: Pending, live: map<nat, nat>) {
    match p.buf
    case None => p.bytes == 0
    case Some(b) => b in live && p.first + p.bytes <= live[b]
  }

  /** Nothing is allocated, no request is unfinished or counted. */
  ghost predicate Clean(s: Buffers) {
    s.iobuf == None && s.live == map[] && s.outstanding == [] &&
    (forall i :: 0 <= i < |s.fillbuf| ==> s.fillbuf[i] == None) &&
    forall i :: 0 <= i < |s.nreqs| ==> s.nreqs[i] == 0
  }

  ghost predicate Valid(s: Buffers) {
    |s.nreqs| == |s.fillbuf| &&
    (forall b :: b in s.live ==> b < s.next) &&
    s.live.Keys == Held(s.iobuf) + HeldBy(s.fillbuf, |s.fillbuf|) &&
    (forall i :: 0 <= i < |s.outstanding| ==> InsideBuffer(s.outstanding[i], s.live)) &&
    (s.iobuf.None? ==> Clean(s))
  }

  lemma FlushedIsClean(s: Buffers)
    requires Valid(s)
    ensures Valid(Flushed(s)) && Clean(Flushed(s))
  {
    assert Flushed(s).live.Keys == {};
  }

  /** The put of variable `nv` ends inside a buffer with room for `nvars` variables of `room` elements. */
  lemma PutFits(nv: nat, nvars: nat, size: nat, llen: nat, count: nat, room: nat)
    requires nv < nvars && count <= llen <= room
    ensures 0 <= nv * size * llen && 0 <= room * nvars
    ensures nv * size * llen + count * size <= size * (room * nvars)
  {
    assert nv * size * llen == size * (nv * llen);
    RowBounds(nv, nvars, llen);
    MulMonotone(nvars, llen, room);
    MulMonotone(size, nv * llen + count, room * nvars);
  }

  lemma DataPutsFit(w: Write, part: Part, buf: Option<nat>, live: map<nat, nat>)
    requires LegalPart(w, part) && buf.Some? && buf.value in live && live[buf.value] == IobufBytes(w, part)
    ensures forall i :: 0 <= i < |w.varids| ==>
      InsideBuffer(Puts(w.varids, buf, w.size, part.llen, part.count)[i], live)
  {
    forall nv | 0 <= nv < |w.varids|
      ensures InsideBuffer(Puts(w.varids, buf, w.size, part.llen, part.count)[nv], live)
    {
      PutFits(nv, |w.varids|, w.size, part.llen, part.count, w.maxiobuflen);
      if part.llen > 0 {
        MulMonotone(|w.varids|, 1, w.maxiobuflen);
      }
    }
  }

  lemma Regroup(a: nat, b: nat, c: nat)
    ensures a * b * c == b * (a * c)
  {
  }

  lemma FillPutFits(w: Write, room: nat, part: Part, nv: nat, bytes: nat)
    requires LegalPart(w, part) && nv < |w.varids| && part.holegridsize <= room
    requires bytes == room * w.size * |w.varids|
    ensures var p := PendingOf(0, None, w.size, part.holegridsize, part.fillcount, nv); p.first + p.bytes <= bytes
  {
    PutFits(nv, |w.varids|, w.size, part.holegridsize, part.fillcount, room);
    Regroup(room, w.size, |w.varids|);
  }

  lemma FillPutsFit(w: Write, rank: nat, part: Part, buf: Option<nat>, live: map<nat, nat>)
    requires LegalPart(w, part)
    requires buf.Some? ==> buf.value in live && live[buf.value] == FillbufBytes(w, rank, part)
    requires buf.None? ==> part.holegridsize == 0
    ensures forall i :: 0 <= i < |w.varids| ==>
      InsideBuffer(Puts(w.varids, buf, w.size, part.holegridsize, part.fillcount)[i], live)
  {
    var room := if rank == 0 then w.maxholegridsize else part.holegridsize;
    forall nv | 0 <= nv < |w.varids|
      ensures InsideBuffer(Puts(w.varids, buf, w.size, part.holegridsize, part.fillcount)[nv], live)
    {
      FillPutFits(w, room, part, nv, FillbufBytes(w, rank, part));
    }
  }

  lemma DataWrittenValid(s: Buffers, w: Write, part: Part)
    requires Valid(s) && LegalPart(w, part)
    ensures var r := DataWritten(s, w, part);
      Valid(r) && r.iobuf.Some? && |r.fillbuf| == |s.fillbuf| &&
      forall i :: 0 <= i < |r.fillbuf| ==> r.fillbuf[i] == None
  {
    if s.iobuf.Some? {
      FlushedIsClean(s);
    }
    var clean := if s.iobuf.Some? then Flushed(s) else s;
    var r := DataWritten(s, w, part);
    DataPutsFit(w, part, r.iobuf, r.live);
    assert r.live.Keys == {clean.next};
  }

  /** The token is there to be held, not to be read: all puts that refer to it carry no data. */
  lemma TokenIsNotRead(s: Buffers, w: Write, part: Part, i: nat)
    requires LegalPart(w, part) && i < |DataWritten(s, w, part).outstanding|
    ensures var r := DataWritten(s, w, part);
      r.outstanding[i].buf == r.iobuf && r.iobuf.Some? && r.iobuf.value in r.live &&
      (part.llen == 0 ==> r.live[r.iobuf.value] == TOKEN_BYTES && r.outstanding[i].bytes == 0)
  {
    assert part.llen == 0 ==> part.count == 0;
  }

  /** One more entry holds a buffer. */
  lemma HeldByUpdate(s: seq<Option<nat>>, i: nat, b: nat)
    requires i < |s| && s[i] == None
    ensures HeldBy(s[i := Some(b)], |s|) == HeldBy(s, |s|) + {b}
  {
    var r := s[i := Some(b)];
    forall x ensures x in HeldBy(r, |r|) <==> x in HeldBy(s, |s|) || x == b {
      assert r[i] == Some(b);
      if k :| 0 <= k < |r| && s[k] == Some(x) {
        assert r[k] == Some(x);
      }
      if k :| 0 <= k < |r| && r[k] == Some(x) {
        assert k == i || s[k] == Some(x);
      }
    }
  }

  lemma FillbufAllocated(s: Buffers, i: nat, bytes: nat)
    requires Valid(s) && s.iobuf.Some? && i < |s.fillbuf| && s.fillbuf[i] == None
    ensures Valid(Allocated(s, bytes).(fillbuf := s.fillbuf[i := Some(s.next)]))
  {
    HeldByUpdate(s.fillbuf, i, s.next);
  }

  lemma PutValid(
    s: Buffers, buf: Option<nat>, varids: seq<nat>, size: nat, llen: nat, count: nat, regions: nat)
    requires Valid(s) && s.iobuf.Some?
    requires forall i :: 0 <= i < |varids| ==> InsideBuffer(Puts(varids, buf, size, llen, count)[i], s.live)
    ensures Valid(Put(s, buf, varids, size, llen, count, regions))
    ensures Put(s, buf, varids, size, llen, count, regions).iobuf == s.iobuf
  {
  }

  lemma FillWrittenValid(s: Buffers, w: Write, rank: nat, part: Part)
    requires Valid(s) && s.iobuf.Some? && LegalPart(w, part)
    requires |w.varids| > 0 && w.varids[0] < |s.fillbuf| && s.fillbuf[w.varids[0]] == None
    ensures Valid(FillWritten(s, w, rank, part)) && FillWritten(s, w, rank, part).iobuf.Some?
    ensures |FillWritten(s, w, rank, part).fillbuf| == |s.fillbuf|
  {
    if w.subset && w.needsfill {
      if rank == 0 || part.holegridsize > 0 {
        FillbufAllocated(s, w.varids[0], FillbufBytes(w, rank, part));
        var withBuf :=
          Allocated(s, FillbufBytes(w, rank, part)).(fillbuf := s.fillbuf[w.varids[0] := Some(s.next)]);
        FillPutsFit(w, rank, part, Some(s.next), withBuf.live);
        PutValid(withBuf, Some(s.next), w.varids, w.size, part.holegridsize, part.fillcount, w.maxfillregions);
      } else {
        FillPutsFit(w, rank, part, None, s.live);
        PutValid(s, None, w.varids, w.size, part.holegridsize, part.fillcount, w.maxfillregions);
      }
    }
  }

  /**
   * A write keeps the invariant: every unfinished put reads inside a buffer that is still allocated, and what is
   * allocated is exactly what `iobuf` and the `fillbuf`s hold. Neither buffer is overwritten while in use.
   */
  lemma WrittenValid(s: Buffers, w: Write, rank: nat, usage: nat)
    requires Valid(s) && LegalWrite(w, |s.fillbuf|, |w.parts|) && rank < |w.parts|
    ensures Valid(Written(s, w, rank, usage)) && |Written(s, w, rank, usage).fillbuf| == |s.fillbuf|
    ensures DataWritten(s, w, w.parts[rank]).fillbuf[w.varids[0]] == None
    ensures w.flushtodisk || usage >= w.limit ==> Clean(Written(s, w, rank, usage))
    ensures !(w.flushtodisk || usage >= w.limit) ==> Written(s, w, rank, usage).iobuf.Some?
  {
    var part := w.parts[rank];
    DataWrittenValid(s, w, part);
    FillWrittenValid(DataWritten(s, w, part), w, rank, part);
    var f := FillWritten(DataWritten(s, w, part), w, rank, part);
    FlushedIsClean(f);
    FlushedIsClean(f.(calls := f.calls + [AllreduceUsage]));
  }

  // Where the puts of a write find their data, and what is counted.

  /** Element `k` of a put. */
  function ByteOf(p: Pending, k: nat, size: nat): nat {
    p.first + k * size
  }

  /** The put of entry `nv`: its elements follow `nv * llen` others in the buffer. */
  ghost predicate PutOf(p: Pending, varid: nat, buf: Option<nat>, size: nat, llen: nat, count: nat, nv: nat) {
    p.varid == varid && p.buf == buf && p.bytes == count * size &&
    forall k :: 0 <= k < count ==> ByteOf(p, k, size) == (nv * llen + k) * size
  }

  /** Every entry of the batch has one put. */
  ghost predicate BatchPuts(
    puts: seq<Pending>, varids: seq<nat>, buf: Option<nat>, size: nat, llen: nat, count: nat)
  {
    |puts| == |varids| &&
    forall nv :: 0 <= nv < |varids| ==> PutOf(puts[nv], varids[nv], buf, size, llen, count, nv)
  }

  /** The puts of one round, if it has regions. */
  ghost predicate RoundPuts(
    puts: seq<Pending>, regions: nat, varids: seq<nat>, buf: Option<nat>, size: nat, llen: nat, count: nat)
  {
    if regions > 0 then BatchPuts(puts, varids, buf, size, llen, count) else puts == []
  }

  lemma PutsOfBatch(varids: seq<nat>, buf: Option<nat>, size: nat, llen: nat, count: nat)
    ensures BatchPuts(Puts(varids, buf, size, llen, count), varids, buf, size, llen, count)
  {
    forall nv, k | 0 <= nv < |varids| && 0 <= k < count
      ensures ByteOf(Puts(varids, buf, size, llen, count)[nv], k, size) == (nv * llen + k) * size
    {
      assert nv * size * llen == nv * llen * size;
    }
  }

  /** Puts of different entries read different bytes. */
  lemma PutsDoNotOverlap(
    puts: seq<Pending>, varids: seq<nat>, buf: Option<nat>, size: nat, llen: nat, count: nat, i: nat, j: nat)
    requires BatchPuts(puts, varids, buf, size, llen, count) && count <= llen && i < j < |puts|
    ensures puts[i].bytes == 0 || puts[j].bytes == 0 || puts[i].first + puts[i].bytes <= puts[j].first
  {
    if count > 0 && size > 0 {
      assert PutOf(puts[i], varids[i], buf, size, llen, count, i);
      assert PutOf(puts[j], varids[j], buf, size, llen, count, j);
      assert ByteOf(puts[i], 0, size) == (i * llen + 0) * size && ByteOf(puts[j], 0, size) == (j * llen + 0) * size;
      RowBounds(i, j, llen);
      MulMonotone(size, i * llen + count, j * llen);
      assert (i * llen + count) * size == i * llen * size + count * size;
    }
  }

  lemma {:induction false} CountedOccurrences(nreqs: seq<nat>, varids: seq<nat>, n: nat, v: nat)
    requires n <= |varids| && v < |nreqs| && forall i :: 0 <= i < |varids| ==> varids[i] < |nreqs|
    ensures Counted(nreqs, varids, n)[v] == nreqs[v] + multiset(varids[..n])[v]
  {
    if n == 0 {
    } else {
      CountedOccurrences(nreqs, varids, n - 1, v);
      assert varids[..n] == varids[..n - 1] + [varids[n - 1]];
    }
  }

  function Bit(b: bool): nat {
    if b then 1 else 0
  }

  /** The requests of a write by variable: one for every time it is in the batch, in each round of puts. */
  ghost predicate RequestsCounted(nreqs: seq<nat>, varids: seq<nat>, rounds: nat) {
    forall v :: 0 <= v < |nreqs| ==> nreqs[v] == rounds * multiset(varids)[v]
  }

  lemma PutCounts(
    s: Buffers, buf: Option<nat>, varids: seq<nat>, size: nat, llen: nat, count: nat, regions: nat, rounds: nat)
    requires RequestsCounted(s.nreqs, varids, rounds) && forall i :: 0 <= i < |varids| ==> varids[i] < |s.nreqs|
    ensures RequestsCounted(Put(s, buf, varids, size, llen, count, regions).nreqs, varids, rounds + Bit(regions > 0))
  {
    assert varids[..|varids|] == varids;
    if regions > 0 {
      forall v | 0 <= v < |s.nreqs|
        ensures Counted(s.nreqs, varids, |varids|)[v] == (rounds + 1) * multiset(varids)[v]
      {
        CountedOccurrences(s.nreqs, varids, |varids|, v);
      }
    }
  }

  /** The data of a write: every entry of the batch has one unfinished put, from the buffer of the task. */
  lemma DataPuts(s: Buffers, w: Write, part: Part)
    requires Valid(s) && forall i :: 0 <= i < |w.varids| ==> w.varids[i] < |s.fillbuf|
    ensures var r := DataWritten(s, w, part);
      RoundPuts(r.outstanding, w.maxregions, w.varids, r.iobuf, w.size, part.llen, part.count) &&
      RequestsCounted(r.nreqs, w.varids, Bit(w.maxregions > 0))
  {
    if s.iobuf.Some? {
      FlushedIsClean(s);
    }
    var clean := if s.iobuf.Some? then Flushed(s) else s;
    var withBuf := Allocated(clean, IobufBytes(w, part)).(iobuf := Some(clean.next));
    PutsOfBatch(w.varids, Some(clean.next), w.size, part.llen, part.count);
    PutCounts(withBuf, Some(clean.next), w.varids, w.size, part.llen, part.count, w.maxregions, 0);
  }

  predicate Fills(w: Write) {
    w.subset && w.needsfill
  }

  /** The fill values wait for the data, and are put in the same way from the buffer of the first variable. */
  lemma FillPuts(s: Buffers, w: Write, rank: nat, part: Part, rounds: nat)
    requires Fills(w) && |w.varids| > 0 && |s.nreqs| == |s.fillbuf|
    requires forall i :: 0 <= i < |w.varids| ==> w.varids[i] < |s.fillbuf|
    requires RequestsCounted(s.nreqs, w.varids, rounds)
    ensures var r := FillWritten(s, w, rank, part);
      w.varids[0] < |r.fillbuf| &&
      RoundPuts(r.outstanding, w.maxfillregions, w.varids, r.fillbuf[w.varids[0]], w.size, part.holegridsize,
                part.fillcount) &&
      RequestsCounted(r.nreqs, w.varids, rounds + Bit(w.maxfillregions > 0))
  {
    var own := rank == 0 || part.holegridsize > 0;
    var withBuf := if own then
        Allocated(s, FillbufBytes(w, rank, part)).(fillbuf := s.fillbuf[w.varids[0] := Some(s.next)])
      else s;
    PutsOfBatch(w.varids, withBuf.fillbuf[w.varids[0]], w.size, part.holegridsize, part.fillcount);
    PutCounts(withBuf, withBuf.fillbuf[w.varids[0]], w.varids, w.size, part.holegridsize, part.fillcount,
              w.maxfillregions, rounds);
  }

  /** Asking for the usage changes no put and no count. */
  lemma NoFlush(s: Buffers, usage: nat, limit: nat)
    requires usage < limit
    ensures FlushedIf(s, false, usage, limit) == s.(calls := s.calls + [AllreduceUsage])
  {
  }

  /**
   * After a write that no flush follows, the puts of the last round are unfinished: one for every entry of the
   * batch, element k of entry nv at byte (nv * llen + k) * size of the buffer. Every round counts one request for
   * every entry.
   */
  lemma UnfinishedPuts(s: Buffers, w: Write, rank: nat, usage: nat)
    requires Valid(s) && LegalWrite(w, |s.fillbuf|, |w.parts|) && rank < |w.parts|
    requires !w.flushtodisk && usage < w.limit
    ensures var r, part := Written(s, w, rank, usage), w.parts[rank];
      w.varids[0] < |r.fillbuf| &&
      if w.subset && w.needsfill then
        RoundPuts(r.outstanding, w.maxfillregions, w.varids, r.fillbuf[w.varids[0]], w.size, part.holegridsize,
                  part.fillcount)
      else RoundPuts(r.outstanding, w.maxregions, w.varids, r.iobuf, w.size, part.llen, part.count)
    ensures RequestsCounted(Written(s, w, rank, usage).nreqs, w.varids,
      Bit(w.maxregions > 0) + Bit(w.subset && w.needsfill && w.maxfillregions > 0))
  {
    var part := w.parts[rank];
    var data := DataWritten(s, w, part);
    DataPuts(s, w, part);
    DataWrittenValid(s, w, part);
    if Fills(w) {
      FillPuts(data, w, rank, part, Bit(w.maxregions > 0));
    }
    NoFlush(FillWritten(data, w, rank, part), usage, w.limit);
  }

  lemma DataCalls(s: Buffers, w: Write, part: Part)
    ensures DataWritten(s, w, part).calls == s.calls + (if s.iobuf.Some? then [WaitAll] else []) + [WaitAll]
    ensures |DataWritten(s, w, part).fillbuf| == |s.fillbuf|
  {
  }

  lemma FillCalls(s: Buffers, w: Write, rank: nat, part: Part)
    requires |w.varids| > 0 && w.varids[0] < |s.fillbuf|
    ensures FillWritten(s, w, rank, part).calls == s.calls + if Fills(w) then [WaitAll] else []
  {
  }

  lemma FlushCalls(s: Buffers, force: bool, usage: nat, limit: nat)
    ensures FlushedIf(s, force, usage, limit).calls == s.calls +
      (if force then [] else [AllreduceUsage]) + if force || usage >= limit then [WaitAll] else []
  {
  }

  /** The collective calls of a write, in order. */
  lemma CallsOfWrite(s: Buffers, w: Write, rank: nat, usage: nat)
    requires rank < |w.parts| && |w.varids| > 0 && w.varids[0] < |s.fillbuf|
    ensures Written(s, w, rank, usage).calls == s.calls +
      (if s.iobuf.Some? then [WaitAll] else []) + [WaitAll] + (if w.subset && w.needsfill then [WaitAll] else []) +
      (if w.flushtodisk then [] else [AllreduceUsage]) +
      (if w.flushtodisk || usage >= w.limit then [WaitAll] else [])
  {
    var part := w.parts[rank];
    DataCalls(s, w, part);
    FillCalls(DataWritten(s, w, part), w, rank, part);
    FlushCalls(FillWritten(DataWritten(s, w, part), w, rank, part), w.flushtodisk, usage, w.limit);
  }

  // All IO tasks together, over whole runs.

  datatype Op = WriteOp(w: Write) | SyncOp

  predicate LegalOp(tasks: seq<Buffers>, op: Op) {
    op.WriteOp? ==> forall t :: 0 <= t < |tasks| ==> LegalWrite(op.w, |tasks[t].fillbuf|, |tasks|)
  }

  function StepOp(tasks: seq<Buffers>, op: Op): (r: seq<Buffers>)
    requires LegalOp(tasks, op)
    ensures |r| == |tasks|
  {
    seq(|tasks|, t requires 0 <= t < |tasks| =>
      match op
      case WriteOp(w) => Written(tasks[t], w, t, Max(w.usage))
      case SyncOp => FlushedIf(tasks[t], true, 0, 0))
  }

  function Fresh(nvars: nat): Buffers {
    Buffers(None, NoBuffers(nvars), Zeros(nvars), [], map[], 0, [])
  }

  /** `states[i]` is the state of the IO tasks before operation `i`; at first nothing is allocated. */
  ghost predicate IsRun(nvars: nat, ops: seq<Op>, states: seq<seq<Buffers>>) {
    |states| == |ops| + 1 &&
    (forall t :: 0 <= t < |states[0]| ==> states[0][t] == Fresh(nvars)) &&
    forall i :: 0 <= i < |ops| ==> LegalOp(states[i], ops[i]) && states[i + 1] == StepOp(states[i], ops[i])
  }

  /** In every reachable state no unfinished put refers to a freed buffer, on any IO task. */
  lemma {:induction false} BuffersOutliveRequests(nvars: nat, ops: seq<Op>, states: seq<seq<Buffers>>, n: nat, t: nat)
    requires IsRun(nvars, ops, states) && n <= |ops| && t < |states[0]|
    ensures |states[n]| == |states[0]| && Valid(states[n][t]) && |states[n][t].fillbuf| == nvars
    decreases n
  {
    if n == 0 {
    } else {
      BuffersOutliveRequests(nvars, ops, states, n - 1, t);
      var s := states[n - 1][t];
      assert states[n] == StepOp(states[n - 1], ops[n - 1]);
      if ops[n - 1].WriteOp? {
        WrittenValid(s, ops[n - 1].w, t, Max(ops[n - 1].w.usage));
      } else {
        FlushedIsClean(s);
      }
    }
  }

  /** A write is followed by a flush on all IO tasks if it asks for one or some task's usage has reached the limit. */
  lemma FlushDecided(nvars: nat, ops: seq<Op>, states: seq<seq<Buffers>>, n: nat, t: nat)
    requires IsRun(nvars, ops, states) && 0 < n <= |ops| && t < |states[0]| && ops[n - 1].WriteOp?
    ensures |states[n]| == |states[0]|
    ensures var w := ops[n - 1].w;
      Clean(states[n][t]) <==> w.flushtodisk || exists u :: u in w.usage && u >= w.limit
  {
    BuffersOutliveRequests(nvars, ops, states, n - 1, t);
    var w := ops[n - 1].w;
    assert states[n] == StepOp(states[n - 1], ops[n - 1]);
    WrittenValid(states[n - 1][t], w, t, Max(w.usage));
    assert |w.usage| == |w.parts| && Max(w.usage) in w.usage;
  }

  /** Two IO tasks have made the same collective calls, and both hold a buffer or neither does. */
  ghost predicate InStep(a: Buffers, b: Buffers) {
    a.calls == b.calls && (a.iobuf.Some? <==> b.iobuf.Some?)
  }

  lemma DataInStep(a: Buffers, b: Buffers, w: Write, part: Part, part': Part)
    requires InStep(a, b)
    ensures InStep(DataWritten(a, w, part), DataWritten(b, w, part'))
  {
  }

  lemma FillInStep(a: Buffers, b: Buffers, w: Write, t: nat, u: nat, part: Part, part': Part)
    requires InStep(a, b) && |w.varids| > 0 && w.varids[0] < |a.fillbuf| && w.varids[0] < |b.fillbuf|
    ensures InStep(FillWritten(a, w, t, part), FillWritten(b, w, u, part'))
  {
  }

  lemma WrittenInStep(a: Buffers, b: Buffers, w: Write, t: nat, u: nat, usage: nat)
    requires InStep(a, b) && t < |w.parts| && u < |w.parts|
    requires |w.varids| > 0 && w.varids[0] < |a.fillbuf| && w.varids[0] < |b.fillbuf|
    ensures InStep(Written(a, w, t, usage), Written(b, w, u, usage))
  {
    DataInStep(a, b, w, w.parts[t], w.parts[u]);
    FillInStep(DataWritten(a, w, w.parts[t]), DataWritten(b, w, w.parts[u]), w, t, u, w.parts[t], w.parts[u]);
  }

  /**
   * All IO tasks make the same collective calls in the same order: `iobuf` is set on all of them or on none,
   * so a forced flush is entered by all or none, and the other flushes follow a common decision.
   */
  lemma {:induction false} FlushesAreCollective(
    nvars: nat, ops: seq<Op>, states: seq<seq<Buffers>>, n: nat, t: nat, u: nat)
    requires IsRun(nvars, ops, states) && n <= |ops| && t < |states[0]| && u < |states[0]|
    ensures |states[n]| == |states[0]| && InStep(states[n][t], states[n][u])
    decreases n
  {
    if n == 0 {
    } else {
      FlushesAreCollective(nvars, ops, states, n - 1, t, u);
      assert states[n] == StepOp(states[n - 1], ops[n - 1]);
      if ops[n - 1].WriteOp? {
        WrittenInStep(states[n - 1][t], states[n - 1][u], ops[n - 1].w, t, u, Max(ops[n - 1].w.usage));
      }
    }
  }

  /** After a sync nothing is allocated, unfinished or counted, on any IO task. */
  lemma SyncLeavesNothing(nvars: nat, ops: seq<Op>, states: seq<seq<Buffers>>, n: nat, t: nat)
    requires IsRun(nvars, ops, states) && 0 < n <= |ops| && t < |states[0]| && ops[n - 1].SyncOp?
    ensures |states[n]| == |states[0]| && Clean(states[n][t])
  {
    BuffersOutliveRequests(nvars, ops, states, n - 1, t);
    assert states[n] == StepOp(states[n - 1], ops[n - 1]);
    FlushedIsClean(states[n - 1][t]);
  }

  lemma FreedNext(live: map<nat, nat>, fillbuf: seq<Option<nat>>, v: nat)
    requires v < |fillbuf|
    ensures live - HeldBy(fillbuf, v + 1) ==
      if fillbuf[v].Some? then live - HeldBy(fillbuf, v) - {fillbuf[v].value} else live - HeldBy(fillbuf, v)
  {
  }

  // The code of one IO task.

  class IoTask {
    var iobuf: Option<nat>
    var fillbuf: seq<Option<nat>>
    var nreqs: seq<nat>
    var outstanding: seq<Pending>
    var live: map<nat, nat>
    var next: nat
    var calls: seq<Collective>

    ghost function State(): Buffers
      reads this
    {
      Buffers(iobuf, fillbuf, nreqs, outstanding, live, next, calls)
    }

    constructor (nvars: nat)
      ensures State() == Fresh(nvars)
    {
      iobuf, fillbuf, nreqs, outstanding, live, next, calls :=
        None, NoBuffers(nvars), Zeros(nvars), [], map[], 0, [];
    }

    method Malloc(bytes: nat) returns (b: nat)
      modifies this`live, this`next
      ensures b == old(next) && live == old(live)[b := bytes] && next == b + 1
    {
      b := next;
      live, next := live[b := bytes], next + 1;
    }

    method WaitForAll()
      modifies this`outstanding, this`calls
      ensures outstanding == [] && calls == old(calls) + [WaitAll]
    {
      outstanding, calls := [], calls + [WaitAll];
    }

    /** Counts start again from zero, up to the last variable that has any. */
    method ResetRequests()
      modifies this`nreqs
      ensures nreqs == Zeros(old(|nreqs|))
    {
      var maxreq := 0;
      for i := 0 to |nreqs|
        invariant 0 <= maxreq && (|nreqs| > 0 ==> maxreq < |nreqs|)
        invariant forall k :: maxreq < k < i ==> nreqs[k] == 0
      {
        if nreqs[i] > 0 {
          maxreq := i;
        }
      }
      if |nreqs| > 0 {
        for i := 0 to maxreq + 1
          invariant |nreqs| == old(|nreqs|)
          invariant forall k :: 0 <= k < i || maxreq < k < |nreqs| ==> nreqs[k] == 0
        {
          nreqs := nreqs[i := 0];
        }
      }
    }

    method FreeBuffers()
      modifies this`iobuf, this`fillbuf, this`live
      ensures iobuf == None && fillbuf == NoBuffers(old(|fillbuf|))
      ensures live == old(live) - Held(old(iobuf)) - HeldBy(old(fillbuf), old(|fillbuf|))
    {
      if iobuf.Some? {
        live := live - {iobuf.value};
        iobuf := None;
      }
      ghost var was := live;
      for v := 0 to |fillbuf|
        invariant |fillbuf| == old(|fillbuf|) && iobuf == None
        invariant forall k :: 0 <= k < v ==> fillbuf[k] == None
        invariant forall k :: v <= k < |fillbuf| ==> fillbuf[k] == old(fillbuf)[k]
        invariant live == was - HeldBy(old(fillbuf), v)
      {
        FreedNext(was, old(fillbuf), v);
        if fillbuf[v].Some? {
          live := live - {fillbuf[v].value};
          fillbuf := fillbuf[v := None];
        }
      }
    }

    /** `usage` is the usage agreed on when the flush is not forced. */
    method FlushOutputBuffer(force: bool, usage: nat, limit: nat)
      modifies this
      ensures State() == FlushedIf(old(State()), force, usage, limit)
    {
      if !force {
        calls := calls + [AllreduceUsage];
      }
      if force || usage >= limit {
        ResetRequests();
        WaitForAll();
        FreeBuffers();
      }
    }

    method WriteDarrayMultiPar(buf: Option<nat>, varids: seq<nat>, size: nat, llen: nat, count: nat, regions: nat)
      requires forall i :: 0 <= i < |varids| ==> varids[i] < |nreqs|
      modifies this`outstanding, this`nreqs, this`calls
      ensures State() == Put(old(State()), buf, varids, size, llen, count, regions)
    {
      WaitForAll();
      if regions > 0 {
        for nv := 0 to |varids|
          invariant outstanding == Puts(varids[..nv], buf, size, llen, count) && calls == old(calls) + [WaitAll]
          invariant nreqs == Counted(old(nreqs), varids, nv)
        {
          outstanding := outstanding + [Pending(varids[nv], buf, nv * size * llen, count * size)];
          nreqs := nreqs[varids[nv] := nreqs[varids[nv]] + 1];
        }
        assert varids[..|varids|] == varids;
      }
    }

    /** The assertion is the code's own. */
    method WriteData(w: Write, part: Part)
      requires Valid(State()) && LegalWrite(w, |fillbuf|, |w.parts|)
      modifies this
      ensures State() == DataWritten(old(State()), w, part) && |fillbuf| == old(|fillbuf|)
    {
      if iobuf.Some? {
        FlushOutputBuffer(true, 0, 0);
      }
      assert iobuf.None?;
      var rlen := 0;
      if part.llen > 0 {
        rlen := w.maxiobuflen * |w.varids|;
      }
      if rlen > 0 {
        var b := Malloc(w.size * rlen);
        iobuf := Some(b);
      } else {
        var b := Malloc(TOKEN_BYTES);
        iobuf := Some(b);
      }
      WriteDarrayMultiPar(iobuf, w.varids, w.size, part.llen, part.count, w.maxregions);
    }

    /** The assertion is the code's own. */
    method WriteFill(w: Write, rank: nat, part: Part)
      requires LegalWrite(w, |fillbuf|, |w.parts|) && |nreqs| == |fillbuf| && fillbuf[w.varids[0]] == None
      modifies this
      ensures State() == FillWritten(old(State()), w, rank, part)
    {
      if w.subset && w.needsfill {
        assert fillbuf[w.varids[0]].None?;
        if rank == 0 {
          var b := Malloc(w.maxholegridsize * w.size * |w.varids|);
          fillbuf := fillbuf[w.varids[0] := Some(b)];
        } else if part.holegridsize > 0 {
          var b := Malloc(part.holegridsize * w.size * |w.varids|);
          fillbuf := fillbuf[w.varids[0] := Some(b)];
        }
        WriteDarrayMultiPar(
          fillbuf[w.varids[0]], w.varids, w.size, part.holegridsize, part.fillcount, w.maxfillregions);
      }
    }

    method WriteDarrayMulti(w: Write, rank: nat, usage: nat)
      requires Valid(State()) && LegalWrite(w, |fillbuf|, |w.parts|) && rank < |w.parts|
      modifies this
      ensures State() == Written(old(State()), w, rank, usage) && Valid(State())
    {
      WrittenValid(State(), w, rank, usage);
      WriteData(w, w.parts[rank]);
      WriteFill(w, rank, w.parts[rank]);
      FlushOutputBuffer(w.flushtodisk, usage, w.limit);
    }
  }
}

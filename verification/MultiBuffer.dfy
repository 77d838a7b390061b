/**
 * The write multi-buffer of the compute tasks: writes are kept back, grouped by decomposition and by
 * whether the variable has a record dimension, and handed over together when a collective decision,
 * a sync or a close asks for it.
 */
module MultiBuffer {
  import opened Decomposition
  import opened Hyperslabs
  import opened Sequences

  const INT_MAX := 0x7FFF_FFFF
  const UNINITIALIZED: Value := 0

  /** What the buffer needs to know of a decomposition; `ndof` has one entry for each task. */
  datatype IoDesc = IoDesc(ndof: seq<nat>, maxiobuflen: nat, mpitypeSize: nat, needsfill: bool)

  datatype VarDesc = VarDesc(varid: int, recVar: int, record: int, useFill: bool, fillvalue: Value)

  /**
   * One collective call. Every task passes its own array; `given` is the fill value the caller passes, and
   * `oom` tells on which tasks the first attempt to grow the buffer fails.
   */
  datatype Write = Write(vdesc: VarDesc, ioid: int, arrays: seq<seq<Value>>, given: Option<Value>, oom: seq<bool>)

  /** One buffer: the arrays of `numArrays` variables, one after the other. */
  datatype Wmb = Wmb(
    ioid: int, recordvar: int, numArrays: nat, arraylen: nat, vid: seq<int>, data: seq<Value>,
    frame: Option<seq<int>>, fillvalue: Option<seq<Value>>, htid: int)

  /** The arguments of one `PIOc_write_darray_multi`, and the buffer they come from. */
  datatype Handed = Handed(
    ioid: int, recordvar: int, nvars: nat, arraylen: nat, vid: seq<int>, data: seq<Value>,
    frame: Option<seq<int>>, fillvalue: Option<seq<Value>>, toDisk: bool)

  /** One task: its buffers in the order they were added to the hash table, and the calls it has made. */
  datatype TaskFile = TaskFile(buffer: seq<Wmb>, handed: seq<Handed>)

  // One buffer.

  /** The part of a task's array that belongs to the decomposition; the rest is to be ignored. */
  function NdofOf(d: IoDesc, t: nat): nat {
    if t < |d.ndof| then d.ndof[t] else 0
  }

  function HashId(ioid: int, recVar: int): int {
    ioid * 10 + recVar
  }

  /** The hash key tells the pairs apart. */
  lemma HashIdInjective(ioid: int, recVar: int, ioid': int, recVar': int)
    requires 0 <= recVar < 10 && 0 <= recVar' < 10
    ensures HashId(ioid, recVar) == HashId(ioid', recVar') <==> ioid == ioid' && recVar == recVar'
  {
  }

  ghost predicate ValidWmb(b: Wmb) {
    |b.vid| == b.numArrays && b.htid == HashId(b.ioid, b.recordvar) && 0 <= b.recordvar < 10 &&
    (b.numArrays == 0 ==> b.data == [] && b.frame == None && b.fillvalue == None) &&
    (b.frame.Some? ==> |b.frame.value| == b.numArrays) &&
    (b.fillvalue.Some? ==> |b.fillvalue.value| == b.numArrays)
  }

  /**
   * A buffer of task `t` for the decomposition `d`: there is data for every array as the receiver counts it,
   * and there are fill values if the decomposition needs them.
   */
  ghost predicate Sound(b: Wmb, d: IoDesc, t: nat) {
    ValidWmb(b) && b.numArrays * NdofOf(d, t) <= |b.data| &&
    (b.numArrays > 0 ==> (b.fillvalue.Some? <==> d.needsfill))
  }

  function NewWmb(w: Write, arraylen: nat): Wmb {
    Wmb(w.ioid, w.vdesc.recVar, 0, arraylen, [], [], None, None, HashId(w.ioid, w.vdesc.recVar))
  }

  function Emptied(b: Wmb): Wmb {
    b.(numArrays := 0, vid := [], data := [], frame := None, fillvalue := None)
  }

  function OrEmpty<T>(o: Option<seq<T>>): seq<T> {
    if o.Some? then o.value else []
  }

  // What the code does to the memory of a buffer.

  function Resize<T>(s: seq<T>, n: nat, pad: T): (r: seq<T>)
    ensures |r| == n && forall i :: 0 <= i < n ==> r[i] == if i < |s| then s[i] else pad
  {
    seq(n, i requires 0 <= i < n => if i < |s| then s[i] else pad)
  }

  function CopyTo<T>(s: seq<T>, at: nat, src: seq<T>): (r: seq<T>)
    requires at + |src| <= |s|
    ensures |r| == |s|
  {
    s[..at] + src + s[at + |src|..]
  }

  lemma GrownSize(n: nat, arraylen: nat)
    ensures 0 <= n * arraylen && (1 + n) * arraylen == n * arraylen + arraylen
  {
  }

  /** The data after storing an array behind `n` others, at the stride of its own length. */
  function StoredData(data: seq<Value>, n: nat, arr: seq<Value>): (r: seq<Value>) {
    if arr == [] then data
    else
      GrownSize(n, |arr|);
      CopyTo(Resize(data, (1 + n) * |arr|, UNINITIALIZED), n * |arr|, arr)
  }

  /** The list of records grows for a variable that has one. */
  function GrownFrame(frame: Option<seq<int>>, n: nat, record: int): Option<seq<int>> {
    if record >= 0 then Some(Resize(OrEmpty(frame), 1 + n, UNINITIALIZED)) else frame
  }

  /** If there is a list of records, the variable's record is stored in it: this must be inside the list. */
  predicate FrameInBounds(b: Wmb, v: VarDesc) {
    var frame := GrownFrame(b.frame, b.numArrays, v.record);
    frame.Some? ==> b.numArrays < |frame.value|
  }

  function StoredFrame(b: Wmb, v: VarDesc): Option<seq<int>> {
    var frame := GrownFrame(b.frame, b.numArrays, v.record);
    if frame.Some? && b.numArrays < |frame.value| then Some(frame.value[b.numArrays := v.record]) else frame
  }

  function StoredFill(b: Wmb, v: VarDesc, needsfill: bool): Option<seq<Value>> {
    if needsfill then
      Some(Resize(OrEmpty(b.fillvalue), 1 + b.numArrays, UNINITIALIZED)[b.numArrays := v.fillvalue])
    else b.fillvalue
  }

  /** The buffer with one more array. */
  function Added(b: Wmb, v: VarDesc, needsfill: bool, arr: seq<Value>): Wmb {
    b.(numArrays := b.numArrays + 1, arraylen := |arr|, vid := b.vid + [v.varid],
       data := StoredData(b.data, b.numArrays, arr), frame := StoredFrame(b, v),
       fillvalue := StoredFill(b, v, needsfill))
  }

  /** The buffer after the attempt to make room for one more array. */
  function Grown(b: Wmb, arraylen: nat, oom: bool): Wmb {
    if arraylen > 0 && !oom then b.(data := Resize(b.data, (1 + b.numArrays) * arraylen, UNINITIALIZED)) else b
  }

  lemma StoredSize(data: seq<Value>, n: nat, arr: seq<Value>, ndof: nat)
    requires ndof <= |arr|
    ensures (1 + n) * ndof <= |StoredData(data, n, arr)|
  {
    GrownSize(n, |arr|);
    GrownSize(n, ndof);
    MulMonotone(n, ndof, |arr|);
  }

  lemma AddedSound(b: Wmb, v: VarDesc, d: IoDesc, t: nat, arr: seq<Value>)
    requires Sound(b, d, t) && FrameInBounds(b, v) && NdofOf(d, t) <= |arr|
    ensures Sound(Added(b, v, d.needsfill, arr), d, t)
  {
    StoredSize(b.data, b.numArrays, arr, NdofOf(d, t));
  }

  lemma GrownCovers(b: Wmb, d: IoDesc, t: nat, arraylen: nat, oom: bool)
    requires Sound(b, d, t) && NdofOf(d, t) <= arraylen
    ensures b.numArrays * NdofOf(d, t) <= |Grown(b, arraylen, oom).data|
  {
    GrownSize(b.numArrays, arraylen);
    MulMonotone(b.numArrays, NdofOf(d, t), arraylen);
  }

  // The buffers of one task.

  /** Index of the buffer with this key, or the number of buffers. */
  function Slot(buffer: seq<Wmb>, htid: int): (i: nat)
    ensures i <= |buffer| && forall j :: 0 <= j < i ==> buffer[j].htid != htid
    ensures i < |buffer| ==> buffer[i].htid == htid
  {
    if buffer == [] then 0
    else if buffer[0].htid == htid then 0
    else 1 + Slot(buffer[1..], htid)
  }

  function KeyOf(w: Write): int {
    HashId(w.ioid, w.vdesc.recVar)
  }

  function Opened(buffer: seq<Wmb>, w: Write, arraylen: nat): (r: seq<Wmb>)
    ensures |buffer| <= |r| && Slot(buffer, KeyOf(w)) < |r|
  {
    if Slot(buffer, KeyOf(w)) < |buffer| then buffer else buffer + [NewWmb(w, arraylen)]
  }

  /** What a task asks for: 1 if its memory did not suffice, 2 if the data on an IO task could get too large. */
  function Need(numArrays: nat, arraylen: nat, d: IoDesc, oom: bool): nat {
    if (1 + numArrays) * d.maxiobuflen * d.mpitypeSize > INT_MAX then 2 else if arraylen > 0 && oom then 1 else 0
  }

  /** The call of a flush; a buffer without arrays makes none. */
  function FlushCall(b: Wmb, toDisk: bool): seq<Handed> {
    if b.numArrays == 0 then []
    else [Handed(b.ioid, b.recordvar, b.numArrays, b.arraylen, b.vid, b.data, b.frame, b.fillvalue, toDisk)]
  }

  /** The buffers belong to known decompositions, and no two have the same key. */
  ghost predicate ValidBuffers(buffer: seq<Wmb>, iodescs: map<int, IoDesc>, t: nat) {
    (forall i :: 0 <= i < |buffer| ==>
      buffer[i].ioid in iodescs && Sound(buffer[i], iodescs[buffer[i].ioid], t)) &&
    forall i, j :: 0 <= i < j < |buffer| ==> buffer[i].htid != buffer[j].htid
  }

  /** The buffer that the new array is stored in: opened if need be, and emptied by a flush. */
  function Target(f: TaskFile, w: Write, arraylen: nat, need: nat): Wmb {
    var b := Opened(f.buffer, w, arraylen)[Slot(f.buffer, KeyOf(w))];
    if need > 0 then Emptied(b) else b
  }

  /** One task's part of a write, given the collective decision. */
  function TaskWrite(f: TaskFile, w: Write, d: IoDesc, arr: seq<Value>, oom: bool, need: nat): TaskFile {
    var found := Opened(f.buffer, w, |arr|);
    var i := Slot(f.buffer, KeyOf(w));
    TaskFile(
      found[i := Added(Target(f, w, |arr|, need), w.vdesc, d.needsfill, arr)],
      f.handed + if need > 0 then FlushCall(Grown(found[i], |arr|, oom), need == 2) else [])
  }

  /** The memory accesses of an accepted write stay inside the buffer. */
  ghost predicate Legal(f: TaskFile, w: Write, d: IoDesc, t: nat, arraylen: nat, need: nat) {
    0 <= w.vdesc.recVar < 10 && NdofOf(d, t) <= arraylen && FrameInBounds(Target(f, w, arraylen, need), w.vdesc)
  }

  lemma OpenedValid(f: TaskFile, w: Write, iodescs: map<int, IoDesc>, t: nat, arraylen: nat)
    requires ValidBuffers(f.buffer, iodescs, t) && w.ioid in iodescs && 0 <= w.vdesc.recVar < 10
    ensures ValidBuffers(Opened(f.buffer, w, arraylen), iodescs, t)
    ensures var b := Opened(f.buffer, w, arraylen)[Slot(f.buffer, KeyOf(w))];
      b.htid == KeyOf(w) && b.ioid == w.ioid && b.recordvar == w.vdesc.recVar && Sound(b, iodescs[w.ioid], t)
  {
    var b := Opened(f.buffer, w, arraylen)[Slot(f.buffer, KeyOf(w))];
    HashIdInjective(b.ioid, b.recordvar, w.ioid, w.vdesc.recVar);
  }

  lemma ReplacedValid(buffer: seq<Wmb>, i: nat, b: Wmb, iodescs: map<int, IoDesc>, t: nat)
    requires ValidBuffers(buffer, iodescs, t) && i < |buffer|
    requires b.htid == buffer[i].htid && b.ioid in iodescs && Sound(b, iodescs[b.ioid], t)
    ensures ValidBuffers(buffer[i := b], iodescs, t)
  {
  }

  lemma TaskWriteValid(
    f: TaskFile, w: Write, iodescs: map<int, IoDesc>, t: nat, arr: seq<Value>, oom: bool, need: nat)
    requires ValidBuffers(f.buffer, iodescs, t) && w.ioid in iodescs && Legal(f, w, iodescs[w.ioid], t, |arr|, need)
    ensures ValidBuffers(TaskWrite(f, w, iodescs[w.ioid], arr, oom, need).buffer, iodescs, t)
  {
    OpenedValid(f, w, iodescs, t, |arr|);
    var d := iodescs[w.ioid];
    var i := Slot(f.buffer, KeyOf(w));
    AddedSound(Target(f, w, |arr|, need), w.vdesc, d, t, arr);
    ReplacedValid(
      Opened(f.buffer, w, |arr|), i, Added(Target(f, w, |arr|, need), w.vdesc, d.needsfill, arr), iodescs, t);
  }

  // The same, as the code does it: grow the memory first, then decide together, then store.

  /** The task's state when it enters the collective decision. */
  function Prepared(f: TaskFile, w: Write, arraylen: nat, oom: bool): TaskFile {
    var found := Opened(f.buffer, w, arraylen);
    var i := Slot(f.buffer, KeyOf(w));
    TaskFile(found[i := Grown(found[i], arraylen, oom)], f.handed)
  }

  method PrepareTask(f: TaskFile, w: Write, d: IoDesc, arr: seq<Value>, oom: bool)
    returns (r: TaskFile, needsflush: nat)
    ensures r == Prepared(f, w, |arr|, oom)
    ensures needsflush ==
      Need(Opened(f.buffer, w, |arr|)[Slot(f.buffer, KeyOf(w))].numArrays, |arr|, d, oom)
  {
    r := f;
    needsflush := 0;
    var arraylen := |arr|;
    var i := Slot(r.buffer, KeyOf(w));
    if i == |r.buffer| {
      r := r.(buffer := r.buffer + [NewWmb(w, arraylen)]);
    }
    var wmb := r.buffer[i];
    if arraylen > 0 {
      if !oom {
        needsflush := 0;
        wmb := wmb.(data := Resize(wmb.data, (1 + wmb.numArrays) * arraylen, UNINITIALIZED));
      } else {
        needsflush := 1;
      }
    }
    if (1 + wmb.numArrays) * d.maxiobuflen * d.mpitypeSize > INT_MAX {
      needsflush := 2;
    }
    r := r.(buffer := r.buffer[i := wmb]);
  }

  /** `flush_buffer`. */
  method FlushBuffer(b: Wmb, flushtodisk: bool) returns (r: Wmb, calls: seq<Handed>)
    ensures calls == FlushCall(b, flushtodisk)
    ensures r == if b.numArrays > 0 then Emptied(b) else b
  {
    r, calls := b, [];
    if r.numArrays > 0 {
      calls :=
        [Handed(r.ioid, r.recordvar, r.numArrays, r.arraylen, r.vid, r.data, r.frame, r.fillvalue, flushtodisk)];
      r := r.(numArrays := 0);
      r := r.(vid := []);
      r := r.(data := []);
      r := r.(fillvalue := None);
      r := r.(frame := None);
    }
  }

  /** Room has been made before, or is made now after a flush. */
  method StoreData(data: seq<Value>, n: nat, arr: seq<Value>, again: bool) returns (r: seq<Value>)
    requires arr != [] && !again ==> |data| == (1 + n) * |arr|
    ensures r == StoredData(data, n, arr)
  {
    var arraylen := |arr|;
    GrownSize(n, arraylen);
    r := data;
    if arraylen > 0 && again {
      r := Resize(r, (1 + n) * arraylen, UNINITIALIZED);
    }
    assert arraylen > 0 ==> r == Resize(data, (1 + n) * arraylen, UNINITIALIZED);
    if arraylen > 0 {
      r := CopyTo(r, arraylen * n, arr);
    }
  }

  method StoreFrame(b: Wmb, v: VarDesc) returns (frame: Option<seq<int>>)
    requires FrameInBounds(b, v)
    ensures frame == StoredFrame(b, v)
  {
    frame := b.frame;
    if v.record >= 0 {
      frame := Some(Resize(OrEmpty(frame), 1 + b.numArrays, UNINITIALIZED));
    }
    if frame.Some? {
      frame := Some(frame.value[b.numArrays := v.record]);
    }
  }

  method StoreFill(b: Wmb, v: VarDesc, needsfill: bool) returns (fillvalue: Option<seq<Value>>)
    ensures fillvalue == StoredFill(b, v, needsfill)
  {
    fillvalue := b.fillvalue;
    if needsfill {
      var grown := Resize(OrEmpty(fillvalue), 1 + b.numArrays, UNINITIALIZED);
      fillvalue := Some(grown[b.numArrays := v.fillvalue]);
    }
  }

  /** Store one array at its stride, with its variable, record and fill value. */
  method StoreArray(b: Wmb, v: VarDesc, d: IoDesc, arr: seq<Value>, again: bool) returns (r: Wmb)
    requires |b.vid| == b.numArrays && FrameInBounds(b, v)
    requires arr != [] && !again ==> |b.data| == (1 + b.numArrays) * |arr|
    ensures r == Added(b, v, d.needsfill, arr)
  {
    var frame := StoreFrame(b, v);
    var fillvalue := StoreFill(b, v, d.needsfill);
    var data := StoreData(b.data, b.numArrays, arr, again);
    var vid := Resize(b.vid, 1 + b.numArrays, 0)[b.numArrays := v.varid];
    assert vid == b.vid + [v.varid];
    r := b.(vid := vid, frame := frame, fillvalue := fillvalue, arraylen := |arr|, data := data,
            numArrays := b.numArrays + 1);
  }

  lemma GrownStored(b: Wmb, v: VarDesc, needsfill: bool, arr: seq<Value>, oom: bool)
    ensures Added(Grown(b, |arr|, oom), v, needsfill, arr) == Added(b, v, needsfill, arr)
  {
    var size := (1 + b.numArrays) * |arr|;
    assert arr != [] ==>
      Resize(Resize(b.data, size, UNINITIALIZED), size, UNINITIALIZED) == Resize(b.data, size, UNINITIALIZED);
  }

  /** Nothing is left of what an empty buffer was grown to. */
  lemma EmptyStored(b: Wmb, v: VarDesc, needsfill: bool, arr: seq<Value>, oom: bool)
    requires ValidWmb(b)
    ensures b.numArrays == 0 ==>
      Added(Grown(b, |arr|, oom), v, needsfill, arr) == Added(Emptied(b), v, needsfill, arr)
    ensures Emptied(Grown(b, |arr|, oom)) == Emptied(b)
  {
    GrownStored(b, v, needsfill, arr, oom);
    if b.numArrays == 0 {
      assert b == Emptied(b);
    }
  }

  /** One buffer's part after the decision: flush, grow again, store. */
  method FinishBuffer(
    b: Wmb, v: VarDesc, d: IoDesc, arr: seq<Value>, needsflush: nat, ghost found: Wmb, ghost oom: bool)
    returns (r: Wmb, calls: seq<Handed>)
    requires ValidWmb(found) && b == Grown(found, |arr|, oom)
    requires FrameInBounds(if needsflush > 0 then Emptied(found) else found, v)
    requires oom && |arr| > 0 ==> needsflush > 0
    ensures calls == if needsflush > 0 then FlushCall(Grown(found, |arr|, oom), needsflush == 2) else []
    ensures r == Added(if needsflush > 0 then Emptied(found) else found, v, d.needsfill, arr)
  {
    GrownStored(found, v, d.needsfill, arr, oom);
    EmptyStored(found, v, d.needsfill, arr, oom);
    r, calls := b, [];
    if needsflush > 0 {
      r, calls := FlushBuffer(r, needsflush == 2);
    }
    r := StoreArray(r, v, d, arr, needsflush > 0);
  }

  lemma SlotOf(buffer: seq<Wmb>, i: nat)
    requires i < |buffer| && forall j :: 0 <= j < i ==> buffer[j].htid != buffer[i].htid
    ensures Slot(buffer, buffer[i].htid) == i
  {
  }

  method FinishTask(
    p: TaskFile, w: Write, d: IoDesc, arr: seq<Value>, needsflush: nat, ghost f: TaskFile, ghost oom: bool)
    returns (r: TaskFile)
    requires forall i :: 0 <= i < |f.buffer| ==> ValidWmb(f.buffer[i])
    requires 0 <= w.vdesc.recVar < 10 && FrameInBounds(Target(f, w, |arr|, needsflush), w.vdesc)
    requires p == Prepared(f, w, |arr|, oom) && (oom && |arr| > 0 ==> needsflush > 0)
    ensures r == TaskWrite(f, w, d, arr, oom, needsflush)
  {
    SlotOf(p.buffer, Slot(f.buffer, KeyOf(w)));
    r := p;
    var i := Slot(r.buffer, KeyOf(w));
    var wmb, calls := FinishBuffer(r.buffer[i], w.vdesc, d, arr, needsflush, Opened(f.buffer, w, |arr|)[i], oom);
    r := TaskFile(r.buffer[i := wmb], r.handed + calls);
    assert r.buffer == TaskWrite(f, w, d, arr, oom, needsflush).buffer;
  }

  // All compute tasks together.

  /** `Stuck`: some tasks have returned with an error, and the others wait for them in the collective decision. */
  datatype Result = NoErr | BadId | Perm | Inval | Stuck

  /** The array of task `t` is shorter than its part of the decomposition. */
  predicate TooShort(w: Write, d: IoDesc, t: nat) {
    t < |w.arrays| && |w.arrays[t]| < NdofOf(d, t)
  }

  predicate OtherFill(w: Write) {
    w.given.Some? && w.vdesc.useFill && w.given.value != w.vdesc.fillvalue
  }

  function Check(writable: bool, iodescs: map<int, IoDesc>, w: Write): Result {
    if !writable then Perm
    else if w.ioid !in iodescs then BadId
    else
      var d := iodescs[w.ioid];
      if OtherFill(w) && |w.arrays| > 0 then Inval
      else if forall t :: 0 <= t < |w.arrays| ==> !TooShort(w, d, t) then NoErr
      else if forall t :: 0 <= t < |w.arrays| ==> TooShort(w, d, t) then Inval
      else Stuck
  }

  /** What task `t` asks for. */
  function NeedOf(f: TaskFile, w: Write, d: IoDesc, arraylen: nat, oom: bool): nat {
    Need(Opened(f.buffer, w, arraylen)[Slot(f.buffer, KeyOf(w))].numArrays, arraylen, d, oom)
  }

  /** The collective decision. */
  function Decision(tasks: seq<TaskFile>, w: Write, d: IoDesc): nat
    requires |w.arrays| == |w.oom| == |tasks|
  {
    Max(seq(|tasks|, t requires 0 <= t < |tasks| => NeedOf(tasks[t], w, d, |w.arrays[t]|, w.oom[t])))
  }

  /** When a write gets which answer; the caller's fill value must be the variable's, if both are there. */
  lemma ResultExact(writable: bool, iodescs: map<int, IoDesc>, w: Write)
    ensures Check(writable, iodescs, w) == Perm <==> !writable
    ensures Check(writable, iodescs, w) == BadId <==> writable && w.ioid !in iodescs
    ensures writable && w.ioid in iodescs ==>
      var ndof := iodescs[w.ioid].ndof;
      var wrongFill := w.given.Some? && w.vdesc.useFill && w.given.value != w.vdesc.fillvalue && w.arrays != [];
      var allLong := forall t :: 0 <= t < |w.arrays| ==> |w.arrays[t]| >= if t < |ndof| then ndof[t] else 0;
      var allShort := forall t :: 0 <= t < |w.arrays| ==> |w.arrays[t]| < if t < |ndof| then ndof[t] else 0;
      (Check(writable, iodescs, w) == NoErr <==> !wrongFill && allLong) &&
      (Check(writable, iodescs, w) == Inval <==> wrongFill || (allShort && w.arrays != [])) &&
      (Check(writable, iodescs, w) == Stuck <==> !wrongFill && !allLong && !allShort)
  {
    if writable && w.ioid in iodescs {
      var d := iodescs[w.ioid];
      assert forall t :: 0 <= t < |w.arrays| ==>
        (TooShort(w, d, t) <==> |w.arrays[t]| < if t < |d.ndof| then d.ndof[t] else 0);
      if |w.arrays| > 0 {
        assert TooShort(w, d, 0) <==> |w.arrays[0]| < if 0 < |d.ndof| then d.ndof[0] else 0;
      }
    }
  }

  // What the collective decision comes down to.

  /** The number of arrays that wait for a decomposition and record kind. */
  function WaitingCount(buffer: seq<Wmb>, ioid: int, recVar: int): nat {
    if buffer == [] then 0
    else
      (if buffer[0].ioid == ioid && buffer[0].recordvar == recVar then buffer[0].numArrays else 0) +
      WaitingCount(buffer[1..], ioid, recVar)
  }

  /** Every buffer has its hash key, and no two have the same. */
  ghost predicate Keyed(buffer: seq<Wmb>) {
    (forall i :: 0 <= i < |buffer| ==>
      buffer[i].htid == HashId(buffer[i].ioid, buffer[i].recordvar) && 0 <= buffer[i].recordvar < 10) &&
    forall i, j :: 0 <= i < j < |buffer| ==> buffer[i].htid != buffer[j].htid
  }

  lemma {:induction false} NoneWaiting(buffer: seq<Wmb>, ioid: int, recVar: int)
    requires Keyed(buffer) && 0 <= recVar < 10
    requires forall i :: 0 <= i < |buffer| ==> buffer[i].htid != HashId(ioid, recVar)
    ensures WaitingCount(buffer, ioid, recVar) == 0
  {
    if buffer == [] {
    } else {
      NoneWaiting(buffer[1..], ioid, recVar);
    }
  }

  /** The buffer that the hash table leads to holds all of them. */
  lemma {:induction false} SlotCounts(buffer: seq<Wmb>, ioid: int, recVar: int)
    requires Keyed(buffer) && 0 <= recVar < 10
    ensures var i := Slot(buffer, HashId(ioid, recVar));
      WaitingCount(buffer, ioid, recVar) == if i < |buffer| then buffer[i].numArrays else 0
  {
    if buffer == [] {
    } else {
      HashIdInjective(buffer[0].ioid, buffer[0].recordvar, ioid, recVar);
      if buffer[0].htid == HashId(ioid, recVar) {
        NoneWaiting(buffer[1..], ioid, recVar);
      } else {
        SlotCounts(buffer[1..], ioid, recVar);
      }
    }
  }

  /** With one more array, the data that an IO task could get is more than it can take. */
  predicate TooLarge(buffer: seq<Wmb>, w: Write, d: IoDesc) {
    (1 + WaitingCount(buffer, w.ioid, w.vdesc.recVar)) * d.maxiobuflen * d.mpitypeSize > INT_MAX
  }

  lemma NeedExact(f: TaskFile, w: Write, d: IoDesc, arraylen: nat, oom: bool)
    requires Keyed(f.buffer) && 0 <= w.vdesc.recVar < 10
    ensures NeedOf(f, w, d, arraylen, oom) <= 2
    ensures NeedOf(f, w, d, arraylen, oom) == 2 <==> TooLarge(f.buffer, w, d)
    ensures NeedOf(f, w, d, arraylen, oom) > 0 <==> TooLarge(f.buffer, w, d) || (oom && arraylen > 0)
  {
    SlotCounts(f.buffer, w.ioid, w.vdesc.recVar);
  }

  ghost predicate AllKeyed(tasks: seq<TaskFile>) {
    forall t :: 0 <= t < |tasks| ==> Keyed(tasks[t].buffer)
  }

  /** On some task the data could get too large. */
  ghost predicate SomeTooLarge(tasks: seq<TaskFile>, w: Write, d: IoDesc) {
    exists t :: 0 <= t < |tasks| && TooLarge(tasks[t].buffer, w, d)
  }

  /** Some task could not make room for its array. */
  ghost predicate SomeWithoutRoom(w: Write) {
    exists t :: 0 <= t < |w.arrays| && t < |w.oom| && w.oom[t] && w.arrays[t] != []
  }

  /**
   * The tasks decide to flush to disk if on some task the data could get too large, and to flush at all if that is
   * so or some task could not make room for its array.
   */
  lemma DecisionExact(tasks: seq<TaskFile>, w: Write, d: IoDesc)
    requires |w.arrays| == |w.oom| == |tasks| && AllKeyed(tasks) && 0 <= w.vdesc.recVar < 10
    ensures Decision(tasks, w, d) == 2 <==> SomeTooLarge(tasks, w, d)
    ensures Decision(tasks, w, d) > 0 <==> SomeTooLarge(tasks, w, d) || SomeWithoutRoom(w)
  {
    var needs := seq(|tasks|, t requires 0 <= t < |tasks| => NeedOf(tasks[t], w, d, |w.arrays[t]|, w.oom[t]));
    forall t | 0 <= t < |tasks|
      ensures needs[t] <= 2 && (needs[t] == 2 <==> TooLarge(tasks[t].buffer, w, d))
      ensures needs[t] > 0 <==> TooLarge(tasks[t].buffer, w, d) || (w.oom[t] && w.arrays[t] != [])
    {
      NeedExact(tasks[t], w, d, |w.arrays[t]|, w.oom[t]);
    }
    if tasks != [] {
      var t :| 0 <= t < |needs| && needs[t] == Max(needs);
      assert needs[t] > 0 ==> TooLarge(tasks[t].buffer, w, d) || (w.oom[t] && w.arrays[t] != []);
    }
  }

  /** On every task the record is stored inside the list of records. */
  ghost predicate FramesInBounds(tasks: seq<TaskFile>, w: Write, d: IoDesc)
    requires |w.arrays| == |w.oom| == |tasks|
  {
    forall t :: 0 <= t < |tasks| ==>
      FrameInBounds(Target(tasks[t], w, |w.arrays[t]|, Decision(tasks, w, d)), w.vdesc)
  }

  ghost predicate AllLegal(tasks: seq<TaskFile>, w: Write, d: IoDesc)
    requires |w.arrays| == |w.oom| == |tasks|
  {
    forall t :: 0 <= t < |tasks| ==> Legal(tasks[t], w, d, t, |w.arrays[t]|, Decision(tasks, w, d))
  }

  ghost function AfterWrite(tasks: seq<TaskFile>, w: Write, d: IoDesc): (r: seq<TaskFile>)
    requires |w.arrays| == |w.oom| == |tasks|
    ensures |r| == |tasks|
  {
    seq(|tasks|, t requires 0 <= t < |tasks| =>
      TaskWrite(tasks[t], w, d, w.arrays[t], w.oom[t], Decision(tasks, w, d)))
  }

  /** The tasks whose arrays are long enough have prepared for the decision, the others have done nothing. */
  ghost function AfterStuck(tasks: seq<TaskFile>, w: Write, d: IoDesc): (r: seq<TaskFile>)
    requires |w.arrays| == |w.oom| == |tasks|
    ensures |r| == |tasks|
  {
    seq(|tasks|, t requires 0 <= t < |tasks| =>
      if TooShort(w, d, t) then tasks[t] else Prepared(tasks[t], w, |w.arrays[t]|, w.oom[t]))
  }

  function SyncCalls(buffer: seq<Wmb>): seq<Handed> {
    if buffer == [] then [] else SyncCalls(buffer[..|buffer| - 1]) + FlushCall(buffer[|buffer| - 1], true)
  }

  /** Buffers are handed over in table order. */
  lemma {:induction false} SyncInTableOrder(a: seq<Wmb>, b: seq<Wmb>)
    ensures SyncCalls(a + b) == SyncCalls(a) + SyncCalls(b)
  {
    if b == [] {
      assert a + b == a;
    } else {
      var n := |b| - 1;
      assert (a + b)[..|a| + n] == a + b[..n];
      SyncInTableOrder(a, b[..n]);
    }
  }

  function TaskSync(f: TaskFile): TaskFile {
    TaskFile([], f.handed + SyncCalls(f.buffer))
  }

  ghost predicate AllBuffersValid(tasks: seq<TaskFile>, iodescs: map<int, IoDesc>) {
    forall t :: 0 <= t < |tasks| ==> ValidBuffers(tasks[t].buffer, iodescs, t)
  }

  ghost function AfterSync(tasks: seq<TaskFile>): (r: seq<TaskFile>)
    ensures |r| == |tasks|
  {
    seq(|tasks|, t requires 0 <= t < |tasks| => TaskSync(tasks[t]))
  }

  ghost predicate AllPrepared(was: seq<TaskFile>, tasks: seq<TaskFile>, w: Write, n: nat)
    requires |w.arrays| == |w.oom| == |was| == |tasks| && n <= |was|
  {
    forall u :: 0 <= u < n ==> tasks[u] == Prepared(was[u], w, |w.arrays[u]|, w.oom[u])
  }

  /** Every task up to the collective decision, and the decision. */
  method PrepareAll(was: seq<TaskFile>, w: Write, d: IoDesc) returns (tasks: seq<TaskFile>, needsflush: nat)
    requires |w.arrays| == |w.oom| == |was|
    ensures |tasks| == |was| && AllPrepared(was, tasks, w, |was|) && needsflush == Decision(was, w, d)
  {
    tasks := was;
    var needs: seq<nat> := [];
    for t := 0 to |tasks|
      invariant |tasks| == |was| && |needs| == t && AllPrepared(was, tasks, w, t)
      invariant forall u :: t <= u < |was| ==> tasks[u] == was[u]
      invariant forall u :: 0 <= u < t ==> needs[u] == NeedOf(was[u], w, d, |w.arrays[u]|, w.oom[u])
    {
      var f, need := PrepareTask(tasks[t], w, d, w.arrays[t], w.oom[t]);
      tasks := tasks[t := f];
      needs := needs + [need];
    }
    assert needs == seq(|was|, t requires 0 <= t < |was| => NeedOf(was[t], w, d, |w.arrays[t]|, w.oom[t]));
    needsflush := Max(needs);
  }

  /** Every task up to the collective decision, if its array is long enough. */
  method PrepareSome(was: seq<TaskFile>, w: Write, d: IoDesc) returns (tasks: seq<TaskFile>)
    requires |w.arrays| == |w.oom| == |was|
    ensures tasks == AfterStuck(was, w, d)
  {
    tasks := was;
    for t := 0 to |tasks|
      invariant |tasks| == |was|
      invariant forall u :: 0 <= u < t ==> tasks[u] == AfterStuck(was, w, d)[u]
      invariant forall u :: t <= u < |was| ==> tasks[u] == was[u]
    {
      if |w.arrays[t]| >= NdofOf(d, t) {
        var f, _ := PrepareTask(tasks[t], w, d, w.arrays[t], w.oom[t]);
        tasks := tasks[t := f];
      }
    }
  }

  lemma DecisionCovers(was: seq<TaskFile>, w: Write, d: IoDesc, t: nat)
    requires |w.arrays| == |w.oom| == |was| && t < |was|
    ensures NeedOf(was[t], w, d, |w.arrays[t]|, w.oom[t]) <= Decision(was, w, d)
  {
    var needs := seq(|was|, t requires 0 <= t < |was| => NeedOf(was[t], w, d, |w.arrays[t]|, w.oom[t]));
    assert needs[t] <= Max(needs);
  }

  lemma LegalTurn(
    was: seq<TaskFile>, w: Write, d: IoDesc, iodescs: map<int, IoDesc>, t: nat, needsflush: nat)
    requires |w.arrays| == |w.oom| == |was| && AllBuffersValid(was, iodescs) && AllLegal(was, w, d)
    requires t < |was| && needsflush == Decision(was, w, d)
    ensures forall i :: 0 <= i < |was[t].buffer| ==> ValidWmb(was[t].buffer[i])
    ensures 0 <= w.vdesc.recVar < 10 && FrameInBounds(Target(was[t], w, |w.arrays[t]|, needsflush), w.vdesc)
    ensures w.oom[t] && |w.arrays[t]| > 0 ==> needsflush > 0
  {
    DecisionCovers(was, w, d, t);
    assert ValidBuffers(was[t].buffer, iodescs, t) && Legal(was[t], w, d, t, |w.arrays[t]|, needsflush);
  }

  /** Every task after the decision. */
  method FinishAll(
    prepared: seq<TaskFile>, w: Write, d: IoDesc, needsflush: nat, ghost was: seq<TaskFile>,
    ghost iodescs: map<int, IoDesc>)
    returns (tasks: seq<TaskFile>)
    requires |w.arrays| == |w.oom| == |was| == |prepared| && AllBuffersValid(was, iodescs) && AllLegal(was, w, d)
    requires AllPrepared(was, prepared, w, |was|) && needsflush == Decision(was, w, d)
    ensures tasks == AfterWrite(was, w, d)
  {
    tasks := prepared;
    for t := 0 to |tasks|
      invariant |tasks| == |was|
      invariant forall u :: 0 <= u < t ==> tasks[u] == TaskWrite(was[u], w, d, w.arrays[u], w.oom[u], needsflush)
      invariant forall u :: t <= u < |was| ==> tasks[u] == prepared[u]
    {
      LegalTurn(was, w, d, iodescs, t, needsflush);
      var f := FinishTask(tasks[t], w, d, w.arrays[t], needsflush, was[t], w.oom[t]);
      tasks := tasks[t := f];
    }
  }

  lemma AfterWriteValid(tasks: seq<TaskFile>, w: Write, iodescs: map<int, IoDesc>)
    requires |w.arrays| == |w.oom| == |tasks| && w.ioid in iodescs
    requires AllBuffersValid(tasks, iodescs) && AllLegal(tasks, w, iodescs[w.ioid])
    ensures AllBuffersValid(AfterWrite(tasks, w, iodescs[w.ioid]), iodescs)
  {
    var d := iodescs[w.ioid];
    forall t | 0 <= t < |tasks| ensures ValidBuffers(AfterWrite(tasks, w, d)[t].buffer, iodescs, t) {
      TaskWriteValid(tasks[t], w, iodescs, t, w.arrays[t], w.oom[t], Decision(tasks, w, d));
    }
  }

  lemma AcceptedIsLegal(tasks: seq<TaskFile>, w: Write, d: IoDesc)
    requires |w.arrays| == |w.oom| == |tasks| && 0 <= w.vdesc.recVar < 10 && FramesInBounds(tasks, w, d)
    requires forall t :: 0 <= t < |tasks| ==> !TooShort(w, d, t)
    ensures AllLegal(tasks, w, d)
  {
    forall t | 0 <= t < |tasks| ensures Legal(tasks[t], w, d, t, |w.arrays[t]|, Decision(tasks, w, d)) {
      assert !TooShort(w, d, t);
    }
  }

  /** An accepted write on all tasks. */
  method WriteAll(was: seq<TaskFile>, w: Write, d: IoDesc, ghost iodescs: map<int, IoDesc>)
    returns (tasks: seq<TaskFile>)
    requires |w.arrays| == |w.oom| == |was| && w.ioid in iodescs && d == iodescs[w.ioid]
    requires AllBuffersValid(was, iodescs) && AllLegal(was, w, d)
    ensures tasks == AfterWrite(was, w, d) && AllBuffersValid(tasks, iodescs)
  {
    var needsflush: nat;
    tasks, needsflush := PrepareAll(was, w, d);
    tasks := FinishAll(tasks, w, d, needsflush, was, iodescs);
    AfterWriteValid(was, w, iodescs);
  }

  /** One task of a sync: the hash table is emptied from the front. */
  method SyncTask(f: TaskFile) returns (r: TaskFile)
    ensures r == TaskSync(f)
  {
    r := f;
    for k := 0 to |f.buffer|
      invariant r.buffer == f.buffer[k..] && r.handed == f.handed + SyncCalls(f.buffer[..k])
    {
      var wmb := r.buffer[0];
      assert wmb == f.buffer[k] && f.buffer[..k + 1][..k] == f.buffer[..k];
      if wmb.numArrays > 0 {
        var calls: seq<Handed>;
        wmb, calls := FlushBuffer(wmb, true);
        r := r.(handed := r.handed + calls);
      }
      r := r.(buffer := r.buffer[1..]);
    }
    assert f.buffer[..|f.buffer|] == f.buffer;
  }

  /** The open file, as all compute tasks see it. */
  class File {
    const iodescs: map<int, IoDesc>
    const writable: bool
    var tasks: seq<TaskFile>
    var isOpen: bool

    ghost predicate Valid()
      reads this
    {
      isOpen && AllBuffersValid(tasks, iodescs)
    }

    method WriteDarray(w: Write) returns (ierr: Result)
      requires Valid() && |w.arrays| == |w.oom| == |tasks|
      requires Check(writable, iodescs, w) == NoErr ==>
        0 <= w.vdesc.recVar < 10 && FramesInBounds(tasks, w, iodescs[w.ioid])
      modifies this`tasks
      ensures ierr == Check(writable, iodescs, w)
      ensures ierr == NoErr ==> Valid() && tasks == AfterWrite(old(tasks), w, iodescs[w.ioid])
      ensures ierr == Stuck ==> tasks == AfterStuck(old(tasks), w, iodescs[w.ioid])
      ensures ierr != NoErr && ierr != Stuck ==> Valid() && tasks == old(tasks)
    {
      if !writable {
        return Perm;
      }
      if w.ioid !in iodescs {
        return BadId;
      }
      var d := iodescs[w.ioid];
      if |tasks| > 0 && (OtherFill(w) || forall t :: 0 <= t < |tasks| ==> TooShort(w, d, t)) {
        assert OtherFill(w) || TooShort(w, d, 0);
        return Inval;
      }
      if exists t :: 0 <= t < |tasks| && TooShort(w, d, t) {
        tasks := PrepareSome(tasks, w, d);
        return Stuck;
      }
      AcceptedIsLegal(tasks, w, d);
      tasks := WriteAll(tasks, w, d, iodescs);
      return NoErr;
    }

    /** Hand over what waits, on every task and for every buffer, and forget the buffers. */
    method Sync()
      requires Valid()
      modifies this`tasks
      ensures Valid() && tasks == if writable then AfterSync(old(tasks)) else old(tasks)
    {
      if writable {
        ghost var was := tasks;
        for t := 0 to |tasks|
          invariant |tasks| == |was|
          invariant forall u :: 0 <= u < t ==> tasks[u] == TaskSync(was[u])
          invariant forall u :: t <= u < |was| ==> tasks[u] == was[u]
        {
          var f := SyncTask(tasks[t]);
          tasks := tasks[t := f];
        }
      }
    }

    method Closefile()
      requires Valid()
      modifies this
      ensures !isOpen && tasks == if writable then AfterSync(old(tasks)) else old(tasks)
    {
      if writable {
        Sync();
      }
      isOpen := false;
    }
  }
}

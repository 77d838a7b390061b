/**
 * What the multi-buffer promises over whole runs: it only delays writes, never loses, repeats or
 * reorders them; all tasks act alike; and no hand-over is larger than the IO tasks can take.
 */
module WriteBehind {
  import opened Decomposition
  import opened Hyperslabs
  import opened MultiBuffer
  import opened Sequences

  /** One array as its writer meant it: variable, record (if any), fill value (if any) and data. */
  datatype Entry = Entry(varid: int, record: Option<int>, fill: Option<Value>, data: seq<Value>)

  function Offset(i: nat, stride: nat): nat {
    i * stride
  }

  function Piece(data: seq<Value>, at: nat, n: nat): seq<Value> {
    if at + n <= |data| then data[at..at + n] else []
  }

  function At<T>(o: Option<seq<T>>, i: nat): Option<T> {
    if o.Some? && i < |o.value| then Some(o.value[i]) else None
  }

  /** Only the first `ndof` elements of an array are meant; the rest is to be ignored. */
  function EntryOf(v: VarDesc, needsfill: bool, arr: seq<Value>, ndof: nat): Entry {
    Entry(v.varid, if v.record >= 0 then Some(v.record) else None, if needsfill then Some(v.fillvalue) else None,
          Piece(arr, 0, ndof))
  }

  /**
   * The arrays of a call, as the receiver takes them apart: the rearranger looks for the data of variable `i`
   * at `i * ndof`, whatever the length of the arrays.
   */
  function Unpack(
    vid: seq<int>, data: seq<Value>, frame: Option<seq<int>>, fillvalue: Option<seq<Value>>, ndof: nat)
    : (r: seq<Entry>)
    ensures |r| == |vid|
  {
    seq(|vid|, i requires 0 <= i < |vid| =>
      Entry(vid[i], At(frame, i), At(fillvalue, i), Piece(data, Offset(i, ndof), ndof)))
  }

  /** What the receiver would find if the buffer were handed over now. */
  function Waiting(b: Wmb, ndof: nat): seq<Entry> {
    Unpack(b.vid, b.data, b.frame, b.fillvalue, ndof)
  }

  function Delivered(h: Handed, ndof: nat): seq<Entry> {
    Unpack(h.vid, h.data, h.frame, h.fillvalue, ndof)
  }

  /** The lists have an entry for every variable of the call, and the receiver reads inside the data. */
  ghost predicate SoundCall(h: Handed, d: IoDesc, t: nat) {
    |h.vid| == h.nvars && h.nvars * NdofOf(d, t) <= |h.data| &&
    (h.frame.Some? ==> |h.frame.value| == h.nvars) &&
    (if d.needsfill then h.fillvalue.Some? && |h.fillvalue.value| == h.nvars else h.fillvalue.None?)
  }

  // When an array may join the ones waiting.

  /** The variable has a record if those waiting have, and the array is as long as the decomposition says. */
  predicate Joins(b: Wmb, v: VarDesc, arraylen: nat, ndof: nat) {
    b.numArrays == 0 || ((b.frame.Some? <==> v.record >= 0) && (arraylen == ndof || ndof == 0))
  }

  /** Of `n` arrays and one stored behind them, the receiver finds each. */
  ghost predicate Found(data: seq<Value>, n: nat, arr: seq<Value>, ndof: nat) {
    (forall i :: 0 <= i < n ==>
      Piece(StoredData(data, n, arr), Offset(i, ndof), ndof) == Piece(data, Offset(i, ndof), ndof)) &&
    Piece(StoredData(data, n, arr), Offset(n, ndof), ndof) == Piece(arr, 0, ndof)
  }

  ghost predicate AlwaysFound(n: nat, arraylen: nat, ndof: nat) {
    forall data: seq<Value>, arr: seq<Value> ::
      n * ndof <= |data| && |arr| == arraylen ==> Found(data, n, arr, ndof)
  }

  lemma StoredAt(data: seq<Value>, n: nat, arr: seq<Value>, p: nat)
    requires arr != [] && p < (1 + n) * |arr|
    ensures p < |StoredData(data, n, arr)|
    ensures StoredData(data, n, arr)[p] ==
      if p < n * |arr| then if p < |data| then data[p] else UNINITIALIZED else arr[p - n * |arr|]
  {
    GrownSize(n, |arr|);
  }

  lemma StoredBefore(data: seq<Value>, n: nat, arr: seq<Value>, ndof: nat, i: nat)
    requires n * ndof <= |data| && ndof <= |arr| && i < n
    ensures Piece(StoredData(data, n, arr), Offset(i, ndof), ndof) == Piece(data, Offset(i, ndof), ndof)
  {
    if arr != [] {
      RowBounds(i, n, ndof);
      MulMonotone(n, ndof, |arr|);
      GrownSize(n, |arr|);
      var at := Offset(i, ndof);
      forall p | at <= p < at + ndof ensures StoredData(data, n, arr)[p] == data[p] {
        StoredAt(data, n, arr, p);
      }
    }
  }

  lemma StoredTail(data: seq<Value>, n: nat, arr: seq<Value>, at: nat)
    requires at == n * |arr| && arr != []
    ensures at + |arr| <= |StoredData(data, n, arr)| && StoredData(data, n, arr)[at..at + |arr|] == arr
  {
    GrownSize(n, |arr|);
  }

  lemma StoredLast(data: seq<Value>, n: nat, arr: seq<Value>, ndof: nat)
    requires ndof <= |arr| && (n == 0 || |arr| == ndof || ndof == 0)
    ensures Piece(StoredData(data, n, arr), Offset(n, ndof), ndof) == Piece(arr, 0, ndof)
  {
    if ndof > 0 {
      var at := n * |arr|;
      StoredTail(data, n, arr, at);
      assert at == Offset(n, ndof);
      SliceOfSlice(StoredData(data, n, arr), at, at + |arr|, 0, ndof);
    }
  }

  lemma StoredFound(data: seq<Value>, n: nat, arr: seq<Value>, ndof: nat)
    requires n * ndof <= |data| && ndof <= |arr| && (n == 0 || |arr| == ndof || ndof == 0)
    ensures Found(data, n, arr, ndof)
  {
    forall i | 0 <= i < n
      ensures Piece(StoredData(data, n, arr), Offset(i, ndof), ndof) == Piece(data, Offset(i, ndof), ndof)
    {
      StoredBefore(data, n, arr, ndof, i);
    }
    StoredLast(data, n, arr, ndof);
  }

  /** The receiver looks for the new array in front of it, where the buffer has grown. */
  lemma LooksInFront(data: seq<Value>, n: nat, arr: seq<Value>, ndof: nat)
    requires n > 0 && 0 < ndof < |arr| && |data| == n * ndof
    ensures |Piece(StoredData(data, n, arr), Offset(n, ndof), ndof)| == ndof
    ensures Piece(StoredData(data, n, arr), Offset(n, ndof), ndof)[0] == UNINITIALIZED
  {
    var at := Offset(n, ndof);
    GrownSize(n, |arr|);
    GrownSize(n, ndof);
    StoredSize(data, n, arr, ndof);
    MulMonotone(n, ndof + 1, |arr|);
    assert n * (ndof + 1) == n * ndof + n;
    StoredAt(data, n, arr, at);
  }

  /** Contents for which the receiver looks in front of the new array. */
  lemma LongerArrayLost(n: nat, arraylen: nat, ndof: nat) returns (data: seq<Value>, arr: seq<Value>)
    requires n > 0 && 0 < ndof < arraylen
    ensures |data| == n * ndof && |arr| == arraylen && !Found(data, n, arr, ndof)
  {
    MulMonotone(n, 0, ndof);
    data := seq(n * ndof, _ => UNINITIALIZED);
    arr := seq(arraylen, _ => UNINITIALIZED + 1);
    LooksInFront(data, n, arr, ndof);
    assert Piece(arr, 0, ndof)[0] == UNINITIALIZED + 1;
  }

  /**
   * The buffer strides by the length of the latest array, the receiver by the length of the decomposition. So an
   * array is found together with all earlier ones, for all contents, exactly when it is the first or has no
   * excess elements.
   */
  lemma StrideExact(n: nat, arraylen: nat, ndof: nat)
    requires ndof <= arraylen
    ensures AlwaysFound(n, arraylen, ndof) <==> n == 0 || arraylen == ndof || ndof == 0
  {
    if n == 0 || arraylen == ndof || ndof == 0 {
      forall data: seq<Value>, arr: seq<Value> | n * ndof <= |data| && |arr| == arraylen
        ensures Found(data, n, arr, ndof)
      {
        StoredFound(data, n, arr, ndof);
      }
    } else {
      var data, arr := LongerArrayLost(n, arraylen, ndof);
    }
  }

  /** Every waiting array keeps its record, and the new one has its own. */
  ghost predicate RecordsRight(b: Wmb, v: VarDesc) {
    (forall i :: 0 <= i < b.numArrays ==> At(StoredFrame(b, v), i) == At(b.frame, i)) &&
    At(StoredFrame(b, v), b.numArrays) == if v.record >= 0 then Some(v.record) else None
  }

  /**
   * The list of records grows for a variable with a record only, but is written whenever it is there. So the
   * store stays in bounds and all records are right exactly when the waiting variables all have records if and
   * only if the new one has.
   */
  lemma FrameExact(b: Wmb, v: VarDesc)
    requires ValidWmb(b)
    ensures FrameInBounds(b, v) && RecordsRight(b, v) <==>
      b.numArrays == 0 || (b.frame.Some? <==> v.record >= 0)
  {
    if b.numArrays > 0 && b.frame.None? && v.record >= 0 {
      assert At(StoredFrame(b, v), 0) != At(b.frame, 0);
    }
  }

  /** Record 3 of one variable, then another of the same kind whose record has not been set: out of bounds. */
  lemma RecordThenNone(d: IoDesc, fillvalue: Value)
    ensures var a := Write(VarDesc(0, 1, 3, false, fillvalue), 512, [[7]], None, [false]);
      var b := Write(VarDesc(1, 1, -1, false, fillvalue), 512, [[8]], None, [false]);
      KeyOf(a) == KeyOf(b) &&
      !FrameInBounds(Target(TaskWrite(TaskFile([], []), a, d, [7], false, 0), b, 1, 0), b.vdesc)
  {
  }

  /** The other way round: the first variable gets a record that nobody has set. */
  lemma NoneThenRecord(d: IoDesc, fillvalue: Value)
    ensures var a := Write(VarDesc(0, 1, 3, false, fillvalue), 512, [[7]], None, [false]);
      var b := Write(VarDesc(1, 1, -1, false, fillvalue), 512, [[8]], None, [false]);
      var waiting := Target(TaskWrite(TaskFile([], []), b, d, [8], false, 0), a, 1, 0);
      FrameInBounds(waiting, a.vdesc) && waiting.vid == [1] && At(waiting.frame, 0) == None &&
      At(StoredFrame(waiting, a.vdesc), 0) == Some(UNINITIALIZED)
  {
    var b := Write(VarDesc(1, 1, -1, false, fillvalue), 512, [[8]], None, [false]);
    var f := TaskWrite(TaskFile([], []), b, d, [8], false, 0);
    assert f.buffer[0].vid == [1];
  }

  /** The receiver of the buffer with the new array finds what it would have found before, and the new array. */
  ghost predicate Received(b: Wmb, v: VarDesc, needsfill: bool, arr: seq<Value>, ndof: nat) {
    FrameInBounds(b, v) &&
    Waiting(Added(b, v, needsfill, arr), ndof) == Waiting(b, ndof) + [EntryOf(v, needsfill, arr, ndof)]
  }

  lemma ReceivedHasParts(b: Wmb, v: VarDesc, d: IoDesc, t: nat, arr: seq<Value>)
    requires Sound(b, d, t) && Received(b, v, d.needsfill, arr, NdofOf(d, t))
    ensures RecordsRight(b, v) && Found(b.data, b.numArrays, arr, NdofOf(d, t))
  {
    var n, ndof := b.numArrays, NdofOf(d, t);
    var before, after := Waiting(b, ndof), Waiting(Added(b, v, d.needsfill, arr), ndof);
    forall i | 0 <= i < n
      ensures At(StoredFrame(b, v), i) == At(b.frame, i)
      ensures Piece(StoredData(b.data, n, arr), Offset(i, ndof), ndof) == Piece(b.data, Offset(i, ndof), ndof)
    {
      assert after[i] == before[i];
    }
    assert after[n] == EntryOf(v, d.needsfill, arr, ndof);
  }

  lemma PartsAreReceived(b: Wmb, v: VarDesc, d: IoDesc, t: nat, arr: seq<Value>)
    requires Sound(b, d, t) && FrameInBounds(b, v) && RecordsRight(b, v)
    requires Found(b.data, b.numArrays, arr, NdofOf(d, t))
    ensures Received(b, v, d.needsfill, arr, NdofOf(d, t))
  {
    var n, ndof := b.numArrays, NdofOf(d, t);
    var before, after := Waiting(b, ndof), Waiting(Added(b, v, d.needsfill, arr), ndof);
    forall i | 0 <= i < n ensures after[i] == before[i] {
      assert At(StoredFill(b, v, d.needsfill), i) == At(b.fillvalue, i);
    }
    assert after[n] == EntryOf(v, d.needsfill, arr, ndof);
    assert after == before + [EntryOf(v, d.needsfill, arr, ndof)];
  }

  lemma AddedEntries(b: Wmb, v: VarDesc, d: IoDesc, t: nat, arr: seq<Value>)
    requires Sound(b, d, t) && NdofOf(d, t) <= |arr| && Joins(b, v, |arr|, NdofOf(d, t))
    ensures Sound(Added(b, v, d.needsfill, arr), d, t) && FrameInBounds(b, v)
    ensures Waiting(Added(b, v, d.needsfill, arr), NdofOf(d, t)) ==
      Waiting(b, NdofOf(d, t)) + [EntryOf(v, d.needsfill, arr, NdofOf(d, t))]
  {
    FrameExact(b, v);
    AddedSound(b, v, d, t, arr);
    StoredFound(b.data, b.numArrays, arr, NdofOf(d, t));
    PartsAreReceived(b, v, d, t, arr);
  }

  ghost predicate AlwaysReceived(b: Wmb, v: VarDesc, d: IoDesc, t: nat, arraylen: nat) {
    forall data: seq<Value>, arr: seq<Value> :: Sound(b.(data := data), d, t) && |arr| == arraylen ==>
      Received(b.(data := data), v, d.needsfill, arr, NdofOf(d, t))
  }

  lemma NotReceived(b: Wmb, v: VarDesc, d: IoDesc, t: nat, data: seq<Value>, arr: seq<Value>)
    requires Sound(b, d, t) && b.numArrays > 0 && b.numArrays * NdofOf(d, t) <= |data|
    requires (b.frame.Some? <==> v.record >= 0) ==> !Found(data, b.numArrays, arr, NdofOf(d, t))
    ensures Sound(b.(data := data), d, t)
    ensures !Received(b.(data := data), v, d.needsfill, arr, NdofOf(d, t))
  {
    var c := b.(data := data);
    FrameExact(c, v);
    if Received(c, v, d.needsfill, arr, NdofOf(d, t)) {
      ReceivedHasParts(c, v, d, t, arr);
      assert false;
    }
  }

  /** An array is received together with all that wait, for all contents, exactly when it joins them. */
  lemma JoinsExact(b: Wmb, v: VarDesc, d: IoDesc, t: nat, arraylen: nat)
    requires Sound(b, d, t) && NdofOf(d, t) <= arraylen
    ensures AlwaysReceived(b, v, d, t, arraylen) <==> Joins(b, v, arraylen, NdofOf(d, t))
  {
    var n, ndof := b.numArrays, NdofOf(d, t);
    if Joins(b, v, arraylen, ndof) {
      forall data: seq<Value>, arr: seq<Value> | Sound(b.(data := data), d, t) && |arr| == arraylen
        ensures Received(b.(data := data), v, d.needsfill, arr, ndof)
      {
        AddedEntries(b.(data := data), v, d, t, arr);
      }
    } else {
      var data, arr := b.data, seq(arraylen, _ => UNINITIALIZED);
      if arraylen != ndof && ndof != 0 {
        data, arr := LongerArrayLost(n, arraylen, ndof);
      }
      NotReceived(b, v, d, t, data, arr);
    }
  }

  // Accounts for one decomposition and record kind.

  ghost predicate ValidCalls(handed: seq<Handed>, iodescs: map<int, IoDesc>, t: nat) {
    forall i :: 0 <= i < |handed| ==>
      handed[i].ioid in iodescs && SoundCall(handed[i], iodescs[handed[i].ioid], t)
  }

  ghost predicate ValidTask(f: TaskFile, iodescs: map<int, IoDesc>, t: nat) {
    ValidBuffers(f.buffer, iodescs, t) && ValidCalls(f.handed, iodescs, t)
  }

  function HandedFor(handed: seq<Handed>, ioid: int, recVar: int, ndof: nat): seq<Entry> {
    if handed == [] then []
    else
      var h := handed[|handed| - 1];
      HandedFor(handed[..|handed| - 1], ioid, recVar, ndof) +
      if h.ioid == ioid && h.recordvar == recVar then Delivered(h, ndof) else []
  }

  function PendingFor(buffer: seq<Wmb>, ioid: int, recVar: int, ndof: nat): seq<Entry> {
    var i := Slot(buffer, HashId(ioid, recVar));
    if i < |buffer| then Waiting(buffer[i], ndof) else []
  }

  /** Everything handed over for the key, followed by everything that waits under it. */
  function Balance(f: TaskFile, ioid: int, recVar: int, ndof: nat): seq<Entry> {
    HandedFor(f.handed, ioid, recVar, ndof) + PendingFor(f.buffer, ioid, recVar, ndof)
  }

  lemma HandedForSnoc(handed: seq<Handed>, h: Handed, ioid: int, recVar: int, ndof: nat)
    ensures HandedFor(handed + [h], ioid, recVar, ndof) ==
      HandedFor(handed, ioid, recVar, ndof) +
      if h.ioid == ioid && h.recordvar == recVar then Delivered(h, ndof) else []
  {
    assert (handed + [h])[..|handed|] == handed;
  }

  /** A flush moves what waits in the buffer to the calls of the buffer's key. */
  lemma FlushMoves(handed: seq<Handed>, b: Wmb, toDisk: bool, ioid: int, recVar: int, ndof: nat)
    requires |b.vid| == b.numArrays && b.htid == HashId(b.ioid, b.recordvar)
    requires 0 <= b.recordvar < 10 && 0 <= recVar < 10
    ensures HandedFor(handed + FlushCall(b, toDisk), ioid, recVar, ndof) ==
      HandedFor(handed, ioid, recVar, ndof) + if b.htid == HashId(ioid, recVar) then Waiting(b, ndof) else []
  {
    HashIdInjective(b.ioid, b.recordvar, ioid, recVar);
    if b.numArrays > 0 {
      HandedForSnoc(handed, FlushCall(b, toDisk)[0], ioid, recVar, ndof);
    } else {
      assert handed + FlushCall(b, toDisk) == handed;
      assert Waiting(b, ndof) == [];
    }
  }

  /** Making room changes nothing that the receiver looks at. */
  lemma GrownWaiting(b: Wmb, d: IoDesc, t: nat, arraylen: nat, oom: bool)
    requires Sound(b, d, t) && NdofOf(d, t) <= arraylen
    ensures Waiting(Grown(b, arraylen, oom), NdofOf(d, t)) == Waiting(b, NdofOf(d, t))
  {
    var ndof := NdofOf(d, t);
    var g := Grown(b, arraylen, oom);
    GrownCovers(b, d, t, arraylen, oom);
    forall i | 0 <= i < b.numArrays
      ensures Piece(g.data, Offset(i, ndof), ndof) == Piece(b.data, Offset(i, ndof), ndof)
    {
      RowBounds(i, b.numArrays, ndof);
    }
  }

  lemma SlotIs(buffer: seq<Wmb>, htid: int, i: nat)
    requires i <= |buffer| && forall j :: 0 <= j < i ==> buffer[j].htid != htid
    requires i < |buffer| ==> buffer[i].htid == htid
    ensures Slot(buffer, htid) == i
  {
  }

  /** Opening a buffer changes no account. */
  lemma OpenedPending(f: TaskFile, w: Write, arraylen: nat, ioid: int, recVar: int, ndof: nat)
    ensures PendingFor(Opened(f.buffer, w, arraylen), ioid, recVar, ndof) ==
      PendingFor(f.buffer, ioid, recVar, ndof)
  {
    var found := Opened(f.buffer, w, arraylen);
    var k := HashId(ioid, recVar);
    if found != f.buffer {
      if Slot(f.buffer, k) < |f.buffer| {
        SlotIs(found, k, Slot(f.buffer, k));
      } else if k == KeyOf(w) {
        SlotIs(found, k, |f.buffer|);
      } else {
        SlotIs(found, k, |found|);
      }
    }
  }

  /** Replacing a buffer by one of the same key changes the account of that key only. */
  lemma ReplacedPending(
    buffer: seq<Wmb>, i: nat, b: Wmb, iodescs: map<int, IoDesc>, t: nat, ioid: int, recVar: int, ndof: nat)
    requires ValidBuffers(buffer, iodescs, t) && i < |buffer| && b.htid == buffer[i].htid
    ensures b.htid == HashId(ioid, recVar) ==>
      PendingFor(buffer, ioid, recVar, ndof) == Waiting(buffer[i], ndof) &&
      PendingFor(buffer[i := b], ioid, recVar, ndof) == Waiting(b, ndof)
    ensures b.htid != HashId(ioid, recVar) ==>
      PendingFor(buffer[i := b], ioid, recVar, ndof) == PendingFor(buffer, ioid, recVar, ndof)
  {
    var k := HashId(ioid, recVar);
    if b.htid == k {
      SlotIs(buffer, k, i);
      SlotIs(buffer[i := b], k, i);
    } else {
      SlotIs(buffer[i := b], k, Slot(buffer, k));
    }
  }

  /** The calls of a write. */
  function WriteCalls(b: Wmb, arraylen: nat, oom: bool, need: nat): seq<Handed> {
    if need > 0 then FlushCall(Grown(b, arraylen, oom), need == 2) else []
  }

  /** A write moves entries from its buffer to the calls of its key if it flushes, and otherwise none. */
  lemma FlushAccount(
    handed: seq<Handed>, b: Wmb, d: IoDesc, t: nat, arraylen: nat, oom: bool, need: nat, ioid: int, recVar: int,
    ndof: nat)
    requires Sound(b, d, t) && NdofOf(d, t) <= arraylen && 0 <= recVar < 10
    ensures b.htid == HashId(ioid, recVar) && ndof == NdofOf(d, t) ==>
      HandedFor(handed + WriteCalls(b, arraylen, oom, need), ioid, recVar, ndof) +
      Waiting(if need > 0 then Emptied(b) else b, ndof) ==
      HandedFor(handed, ioid, recVar, ndof) + Waiting(b, ndof)
    ensures b.htid != HashId(ioid, recVar) ==>
      HandedFor(handed + WriteCalls(b, arraylen, oom, need), ioid, recVar, ndof) ==
      HandedFor(handed, ioid, recVar, ndof)
  {
    if need > 0 {
      FlushMoves(handed, Grown(b, arraylen, oom), need == 2, ioid, recVar, ndof);
      GrownWaiting(b, d, t, arraylen, oom);
      assert Waiting(Emptied(b), ndof) == [];
    } else {
      assert handed + WriteCalls(b, arraylen, oom, need) == handed;
    }
  }

  lemma WriteCallsSound(b: Wmb, iodescs: map<int, IoDesc>, t: nat, arraylen: nat, oom: bool, need: nat)
    requires b.ioid in iodescs && Sound(b, iodescs[b.ioid], t) && NdofOf(iodescs[b.ioid], t) <= arraylen
    ensures ValidCalls(WriteCalls(b, arraylen, oom, need), iodescs, t)
  {
    GrownCovers(b, iodescs[b.ioid], t, arraylen, oom);
  }

  /** What the account of a key gets from a write. */
  function WriteEntry(w: Write, d: IoDesc, arr: seq<Value>, ioid: int, recVar: int, ndof: nat): seq<Entry> {
    if w.ioid == ioid && w.vdesc.recVar == recVar then [EntryOf(w.vdesc, d.needsfill, arr, ndof)] else []
  }

  ghost predicate Allowed(f: TaskFile, w: Write, d: IoDesc, t: nat, arraylen: nat, need: nat) {
    0 <= w.vdesc.recVar < 10 && NdofOf(d, t) <= arraylen &&
    Joins(Target(f, w, arraylen, need), w.vdesc, arraylen, NdofOf(d, t))
  }

  /** The same for a buffer that is open: `i` is its place. */
  lemma StoreBalance(
    handed: seq<Handed>, found: seq<Wmb>, i: nat, v: VarDesc, iodescs: map<int, IoDesc>, t: nat, arr: seq<Value>,
    oom: bool, need: nat, ioid: int, recVar: int, ndof: nat)
    requires ValidBuffers(found, iodescs, t) && i < |found| && 0 <= recVar < 10
    requires var d := iodescs[found[i].ioid];
      NdofOf(d, t) <= |arr| && Joins(if need > 0 then Emptied(found[i]) else found[i], v, |arr|, NdofOf(d, t)) &&
      (found[i].ioid == ioid ==> ndof == NdofOf(d, t))
    ensures var d, target := iodescs[found[i].ioid], if need > 0 then Emptied(found[i]) else found[i];
      HandedFor(handed + WriteCalls(found[i], |arr|, oom, need), ioid, recVar, ndof) +
      PendingFor(found[i := Added(target, v, d.needsfill, arr)], ioid, recVar, ndof) ==
      HandedFor(handed, ioid, recVar, ndof) + PendingFor(found, ioid, recVar, ndof) +
      if found[i].htid == HashId(ioid, recVar) then [EntryOf(v, d.needsfill, arr, ndof)] else []
  {
    var d := iodescs[found[i].ioid];
    var target := if need > 0 then Emptied(found[i]) else found[i];
    HashIdInjective(found[i].ioid, found[i].recordvar, ioid, recVar);
    AddedEntries(target, v, d, t, arr);
    ReplacedPending(found, i, Added(target, v, d.needsfill, arr), iodescs, t, ioid, recVar, ndof);
    FlushAccount(handed, found[i], d, t, |arr|, oom, need, ioid, recVar, ndof);
    if found[i].htid == HashId(ioid, recVar) {
      AppendAssociative(HandedFor(handed + WriteCalls(found[i], |arr|, oom, need), ioid, recVar, ndof),
                        Waiting(target, ndof), [EntryOf(v, d.needsfill, arr, ndof)]);
    }
  }

  /** A write adds its own entry to the account of its key, and nothing to any other. */
  lemma WriteBalance(
    f: TaskFile, w: Write, iodescs: map<int, IoDesc>, t: nat, arr: seq<Value>, oom: bool, need: nat, ioid: int,
    recVar: int, ndof: nat)
    requires ValidTask(f, iodescs, t) && w.ioid in iodescs && Allowed(f, w, iodescs[w.ioid], t, |arr|, need)
    requires 0 <= recVar < 10 && (w.ioid == ioid ==> ndof == NdofOf(iodescs[w.ioid], t))
    ensures Balance(TaskWrite(f, w, iodescs[w.ioid], arr, oom, need), ioid, recVar, ndof) ==
      Balance(f, ioid, recVar, ndof) + WriteEntry(w, iodescs[w.ioid], arr, ioid, recVar, ndof)
  {
    OpenedValid(f, w, iodescs, t, |arr|);
    OpenedPending(f, w, |arr|, ioid, recVar, ndof);
    HashIdInjective(w.ioid, w.vdesc.recVar, ioid, recVar);
    StoreBalance(f.handed, Opened(f.buffer, w, |arr|), Slot(f.buffer, KeyOf(w)), w.vdesc, iodescs, t, arr, oom, need,
                 ioid, recVar, ndof);
  }

  lemma WriteValid(
    f: TaskFile, w: Write, iodescs: map<int, IoDesc>, t: nat, arr: seq<Value>, oom: bool, need: nat)
    requires ValidTask(f, iodescs, t) && w.ioid in iodescs && Legal(f, w, iodescs[w.ioid], t, |arr|, need)
    ensures ValidTask(TaskWrite(f, w, iodescs[w.ioid], arr, oom, need), iodescs, t)
  {
    OpenedValid(f, w, iodescs, t, |arr|);
    TaskWriteValid(f, w, iodescs, t, arr, oom, need);
    WriteCallsSound(Opened(f.buffer, w, |arr|)[Slot(f.buffer, KeyOf(w))], iodescs, t, |arr|, oom, need);
  }

  /** Making room before the collective decision changes no account. */
  lemma PreparedKeepsAccount(
    f: TaskFile, w: Write, iodescs: map<int, IoDesc>, t: nat, arraylen: nat, oom: bool, ioid: int, recVar: int,
    ndof: nat)
    requires ValidBuffers(f.buffer, iodescs, t) && w.ioid in iodescs && NdofOf(iodescs[w.ioid], t) <= arraylen
    requires 0 <= w.vdesc.recVar < 10 && 0 <= recVar < 10 && (w.ioid == ioid ==> ndof == NdofOf(iodescs[w.ioid], t))
    ensures Balance(Prepared(f, w, arraylen, oom), ioid, recVar, ndof) == Balance(f, ioid, recVar, ndof)
  {
    var found, i := Opened(f.buffer, w, arraylen), Slot(f.buffer, KeyOf(w));
    OpenedValid(f, w, iodescs, t, arraylen);
    OpenedPending(f, w, arraylen, ioid, recVar, ndof);
    HashIdInjective(w.ioid, w.vdesc.recVar, ioid, recVar);
    ReplacedPending(found, i, Grown(found[i], arraylen, oom), iodescs, t, ioid, recVar, ndof);
    GrownWaiting(found[i], iodescs[w.ioid], t, arraylen, oom);
  }

  /** If some tasks refuse a write and the others wait for them, no task has lost or gained anything. */
  lemma StuckKeepsAccounts(
    tasks: seq<TaskFile>, w: Write, iodescs: map<int, IoDesc>, t: nat, ioid: int, recVar: int, ndof: nat)
    requires |w.arrays| == |w.oom| == |tasks| && t < |tasks| && AllBuffersValid(tasks, iodescs) && w.ioid in iodescs
    requires 0 <= w.vdesc.recVar < 10 && 0 <= recVar < 10 && (w.ioid == ioid ==> ndof == NdofOf(iodescs[w.ioid], t))
    ensures Balance(AfterStuck(tasks, w, iodescs[w.ioid])[t], ioid, recVar, ndof) ==
      Balance(tasks[t], ioid, recVar, ndof)
  {
    if !TooShort(w, iodescs[w.ioid], t) {
      PreparedKeepsAccount(tasks[t], w, iodescs, t, |w.arrays[t]|, w.oom[t], ioid, recVar, ndof);
    }
  }

  lemma PendingSnoc(buffer: seq<Wmb>, iodescs: map<int, IoDesc>, t: nat, ioid: int, recVar: int, ndof: nat)
    requires ValidBuffers(buffer, iodescs, t) && buffer != []
    ensures PendingFor(buffer, ioid, recVar, ndof) ==
      PendingFor(buffer[..|buffer| - 1], ioid, recVar, ndof) +
      if buffer[|buffer| - 1].htid == HashId(ioid, recVar) then Waiting(buffer[|buffer| - 1], ndof) else []
  {
    var n := |buffer| - 1;
    var k := HashId(ioid, recVar);
    if Slot(buffer[..n], k) < n {
      SlotIs(buffer, k, Slot(buffer[..n], k));
    } else if buffer[n].htid == k {
      SlotIs(buffer, k, n);
    } else {
      SlotIs(buffer, k, |buffer|);
    }
  }

  lemma SyncCallsSnoc(handed: seq<Handed>, buffer: seq<Wmb>)
    requires buffer != []
    ensures handed + SyncCalls(buffer) ==
      (handed + SyncCalls(buffer[..|buffer| - 1])) + FlushCall(buffer[|buffer| - 1], true)
  {
    AppendAssociative(handed, SyncCalls(buffer[..|buffer| - 1]), FlushCall(buffer[|buffer| - 1], true));
  }

  lemma PrefixValid(buffer: seq<Wmb>, iodescs: map<int, IoDesc>, t: nat)
    requires ValidBuffers(buffer, iodescs, t) && buffer != []
    ensures ValidBuffers(buffer[..|buffer| - 1], iodescs, t) && ValidWmb(buffer[|buffer| - 1])
  {
  }

  /** One more buffer of a sync; `before` is what the key's account held at the start. */
  lemma SyncOne(
    moved: seq<Handed>, b: Wmb, before: seq<Entry>, pending: seq<Entry>, ioid: int, recVar: int, ndof: nat)
    requires ValidWmb(b) && 0 <= recVar < 10
    requires HandedFor(moved, ioid, recVar, ndof) == before + pending
    ensures HandedFor(moved + FlushCall(b, true), ioid, recVar, ndof) ==
      before + (pending + if b.htid == HashId(ioid, recVar) then Waiting(b, ndof) else [])
  {
    FlushMoves(moved, b, true, ioid, recVar, ndof);
  }

  /** A sync hands over exactly what waits. */
  lemma {:induction false} SyncMoves(
    handed: seq<Handed>, buffer: seq<Wmb>, iodescs: map<int, IoDesc>, t: nat, ioid: int, recVar: int, ndof: nat)
    requires ValidBuffers(buffer, iodescs, t) && 0 <= recVar < 10
    ensures HandedFor(handed + SyncCalls(buffer), ioid, recVar, ndof) ==
      HandedFor(handed, ioid, recVar, ndof) + PendingFor(buffer, ioid, recVar, ndof)
    decreases |buffer|
  {
    if buffer == [] {
      assert handed + SyncCalls(buffer) == handed;
    } else {
      var n := |buffer| - 1;
      var moved := handed + SyncCalls(buffer[..n]);
      PrefixValid(buffer, iodescs, t);
      SyncMoves(handed, buffer[..n], iodescs, t, ioid, recVar, ndof);
      SyncOne(moved, buffer[n], HandedFor(handed, ioid, recVar, ndof),
              PendingFor(buffer[..n], ioid, recVar, ndof), ioid, recVar, ndof);
      PendingSnoc(buffer, iodescs, t, ioid, recVar, ndof);
      SyncCallsSnoc(handed, buffer);
    }
  }

  lemma {:induction false} SyncCallsSound(buffer: seq<Wmb>, iodescs: map<int, IoDesc>, t: nat)
    requires ValidBuffers(buffer, iodescs, t)
    ensures ValidCalls(SyncCalls(buffer), iodescs, t)
  {
    if buffer == [] {
    } else {
      SyncCallsSound(buffer[..|buffer| - 1], iodescs, t);
    }
  }

  // Runs.

  datatype Op = WriteOp(w: Write) | SyncOp

  datatype Config = Config(iodescs: map<int, IoDesc>, writable: bool)

  /** A write that all tasks accept: the fill value given, if any, is the variable's, and no array is too short. */
  ghost predicate Accepts(c: Config, op: Op) {
    op.WriteOp? && c.writable && op.w.ioid in c.iodescs &&
    (op.w.given.Some? && op.w.vdesc.useFill && op.w.arrays != [] ==> op.w.given.value == op.w.vdesc.fillvalue) &&
    forall t :: 0 <= t < |op.w.arrays| ==> |op.w.arrays[t]| >= NdofOf(c.iodescs[op.w.ioid], t)
  }

  lemma AcceptsIsNoErr(c: Config, op: Op)
    requires op.WriteOp?
    ensures Accepts(c, op) <==> Check(c.writable, c.iodescs, op.w) == NoErr
  {
    ResultExact(c.writable, c.iodescs, op.w);
  }

  /** What memory safety demands of an operation, if it is a write that gets accepted. */
  ghost predicate SafeOp(c: Config, tasks: seq<TaskFile>, op: Op) {
    op.WriteOp? ==>
      |op.w.arrays| == |op.w.oom| == |tasks| && Check(c.writable, c.iodescs, op.w) != Stuck &&
      (Accepts(c, op) ==> 0 <= op.w.vdesc.recVar < 10 && FramesInBounds(tasks, op.w, c.iodescs[op.w.ioid]))
  }

  /** The arrays of a write join those that wait for them, on every task. */
  ghost predicate JoiningOp(c: Config, tasks: seq<TaskFile>, op: Op)
    requires SafeOp(c, tasks, op)
  {
    Accepts(c, op) ==>
      var d := c.iodescs[op.w.ioid];
      forall t :: 0 <= t < |tasks| ==>
        Joins(Target(tasks[t], op.w, |op.w.arrays[t]|, Decision(tasks, op.w, d)), op.w.vdesc, |op.w.arrays[t]|,
              NdofOf(d, t))
  }

  ghost function StepOp(c: Config, tasks: seq<TaskFile>, op: Op): (r: seq<TaskFile>)
    requires SafeOp(c, tasks, op)
    ensures |r| == |tasks|
  {
    if Accepts(c, op) then AfterWrite(tasks, op.w, c.iodescs[op.w.ioid])
    else if op.SyncOp? && c.writable then AfterSync(tasks)
    else tasks
  }

  /** `states[i]` is the state before operation `i`; at first no task has a buffer. */
  ghost predicate IsRun(c: Config, ops: seq<Op>, states: seq<seq<TaskFile>>) {
    |states| == |ops| + 1 &&
    (forall t :: 0 <= t < |states[0]| ==> states[0][t] == TaskFile([], [])) &&
    forall i {:trigger SafeOp(c, states[i], ops[i])} :: 0 <= i < |ops| ==>
      SafeOp(c, states[i], ops[i]) && states[i + 1] == StepOp(c, states[i], ops[i])
  }

  /** The first `n` operations of a run join what waits for them. */
  ghost predicate Joining(c: Config, ops: seq<Op>, states: seq<seq<TaskFile>>, n: nat)
    requires IsRun(c, ops, states) && n <= |ops|
  {
    forall i :: 0 <= i < n ==> JoiningOp(c, states[i], ops[i])
  }

  /** The length of task `t`'s part of a decomposition. */
  function PartOf(c: Config, ioid: int, t: nat): nat {
    if ioid in c.iodescs then NdofOf(c.iodescs[ioid], t) else 0
  }

  ghost function AcceptedOne(c: Config, op: Op, t: nat, ioid: int, recVar: int): seq<Entry> {
    if Accepts(c, op) && t < |op.w.arrays| then
      WriteEntry(op.w, c.iodescs[op.w.ioid], op.w.arrays[t], ioid, recVar, PartOf(c, ioid, t))
    else []
  }

  /** The writes of a key that the first `n` operations got accepted, as task `t` made them. */
  ghost function Accepted(c: Config, ops: seq<Op>, n: nat, t: nat, ioid: int, recVar: int): seq<Entry>
    requires n <= |ops|
  {
    if n == 0 then [] else Accepted(c, ops, n - 1, t, ioid, recVar) + AcceptedOne(c, ops[n - 1], t, ioid, recVar)
  }

  lemma LongEnough(c: Config, op: Op, t: nat)
    requires Accepts(c, op) && t < |op.w.arrays|
    ensures NdofOf(c.iodescs[op.w.ioid], t) <= |op.w.arrays[t]|
  {
  }

  lemma StepBalance(c: Config, tasks: seq<TaskFile>, op: Op, t: nat, ioid: int, recVar: int)
    requires SafeOp(c, tasks, op) && JoiningOp(c, tasks, op)
    requires t < |tasks| && ValidTask(tasks[t], c.iodescs, t) && 0 <= recVar < 10
    ensures Balance(StepOp(c, tasks, op)[t], ioid, recVar, PartOf(c, ioid, t)) ==
      Balance(tasks[t], ioid, recVar, PartOf(c, ioid, t)) + AcceptedOne(c, op, t, ioid, recVar)
  {
    var ndof := PartOf(c, ioid, t);
    if Accepts(c, op) {
      LongEnough(c, op, t);
      var need := Decision(tasks, op.w, c.iodescs[op.w.ioid]);
      WriteBalance(tasks[t], op.w, c.iodescs, t, op.w.arrays[t], op.w.oom[t], need, ioid, recVar, ndof);
    } else if op.SyncOp? && c.writable {
      SyncMoves(tasks[t].handed, tasks[t].buffer, c.iodescs, t, ioid, recVar, ndof);
    }
  }

  lemma StepValid(c: Config, tasks: seq<TaskFile>, op: Op, t: nat)
    requires SafeOp(c, tasks, op) && t < |tasks| && ValidTask(tasks[t], c.iodescs, t)
    ensures ValidTask(StepOp(c, tasks, op)[t], c.iodescs, t)
  {
    if Accepts(c, op) {
      LongEnough(c, op, t);
      var need := Decision(tasks, op.w, c.iodescs[op.w.ioid]);
      WriteValid(tasks[t], op.w, c.iodescs, t, op.w.arrays[t], op.w.oom[t], need);
    } else if op.SyncOp? && c.writable {
      SyncCallsSound(tasks[t].buffer, c.iodescs, t);
    }
  }

  /**
   * In every reachable state the lists of every buffer and of every call are complete, and the receiver reads
   * inside the data of every call.
   */
  lemma {:induction false} StatesStayValid(c: Config, ops: seq<Op>, states: seq<seq<TaskFile>>, n: nat, t: nat)
    requires IsRun(c, ops, states) && n <= |ops| && t < |states[0]|
    ensures |states[n]| == |states[0]| && ValidTask(states[n][t], c.iodescs, t)
    decreases n
  {
    if n == 0 {
    } else {
      StatesStayValid(c, ops, states, n - 1, t);
      StepValid(c, states[n - 1], ops[n - 1], t);
    }
  }

  /**
   * Write-behind only delays: as long as the arrays written join those waiting, for every key and task what the
   * receiver has been given followed by what still waits is exactly what was accepted, in order and once each.
   */
  lemma {:induction false} NothingLostOrRepeated(
    c: Config, ops: seq<Op>, states: seq<seq<TaskFile>>, n: nat, t: nat, ioid: int, recVar: int)
    requires IsRun(c, ops, states) && n <= |ops| && Joining(c, ops, states, n)
    requires t < |states[0]| && 0 <= recVar < 10
    ensures |states[n]| == |states[0]|
    ensures Balance(states[n][t], ioid, recVar, PartOf(c, ioid, t)) == Accepted(c, ops, n, t, ioid, recVar)
    decreases n
  {
    if n == 0 {
    } else {
      NothingLostOrRepeated(c, ops, states, n - 1, t, ioid, recVar);
      StatesStayValid(c, ops, states, n - 1, t);
      StepBalance(c, states[n - 1], ops[n - 1], t, ioid, recVar);
    }
  }

  /** After a sync, hence after a close, nothing waits and everything accepted has been handed over. */
  lemma NothingWaitsAfterSync(
    c: Config, ops: seq<Op>, states: seq<seq<TaskFile>>, n: nat, t: nat, ioid: int, recVar: int)
    requires IsRun(c, ops, states) && 0 < n <= |ops| && t < |states[0]| && 0 <= recVar < 10
    requires ops[n - 1].SyncOp? && c.writable
    ensures |states[n]| == |states[0]| && states[n][t].buffer == []
    ensures Joining(c, ops, states, n) ==>
      HandedFor(states[n][t].handed, ioid, recVar, PartOf(c, ioid, t)) == Accepted(c, ops, n, t, ioid, recVar)
  {
    StatesStayValid(c, ops, states, n, t);
    assert SafeOp(c, states[n - 1], ops[n - 1]) && states[n] == StepOp(c, states[n - 1], ops[n - 1]);
    if Joining(c, ops, states, n) {
      NothingLostOrRepeated(c, ops, states, n, t, ioid, recVar);
    }
  }

  // What the calls carry beside the entries: the length of the latest array, and whether to go to disk.

  /** The length of the latest array that the first `n` operations got accepted for a key, on task `t`. */
  ghost function LatestLength(c: Config, ops: seq<Op>, n: nat, t: nat, ioid: int, recVar: int): nat
    requires n <= |ops|
  {
    if n == 0 then 0
    else
      var op := ops[n - 1];
      if Accepts(c, op) && op.w.ioid == ioid && op.w.vdesc.recVar == recVar && t < |op.w.arrays|
      then |op.w.arrays[t]|
      else LatestLength(c, ops, n - 1, t, ioid, recVar)
  }

  ghost predicate LengthRight(c: Config, ops: seq<Op>, n: nat, t: nat, b: Wmb)
    requires n <= |ops|
  {
    b.numArrays > 0 ==> b.arraylen == LatestLength(c, ops, n, t, b.ioid, b.recordvar)
  }

  ghost predicate LengthsRight(c: Config, ops: seq<Op>, n: nat, t: nat, buffer: seq<Wmb>)
    requires n <= |ops|
  {
    forall i :: 0 <= i < |buffer| ==> LengthRight(c, ops, n, t, buffer[i])
  }

  lemma ValidIsKeyed(buffer: seq<Wmb>, iodescs: map<int, IoDesc>, t: nat)
    requires ValidBuffers(buffer, iodescs, t)
    ensures Keyed(buffer)
  {
    forall i | 0 <= i < |buffer|
      ensures buffer[i].htid == HashId(buffer[i].ioid, buffer[i].recordvar) && 0 <= buffer[i].recordvar < 10
    {
      assert Sound(buffer[i], iodescs[buffer[i].ioid], t);
    }
  }

  /** Any other key keeps its latest length. */
  lemma OtherLength(c: Config, ops: seq<Op>, n: nat, t: nat, b: Wmb)
    requires 0 < n <= |ops| && LengthRight(c, ops, n - 1, t, b)
    requires Accepts(c, ops[n - 1]) ==> b.ioid != ops[n - 1].w.ioid || b.recordvar != ops[n - 1].w.vdesc.recVar
    ensures LengthRight(c, ops, n, t, b)
  {
  }

  lemma WriteLengths(c: Config, ops: seq<Op>, n: nat, f: TaskFile, t: nat, need: nat)
    requires 0 < n <= |ops| && Accepts(c, ops[n - 1]) && t < |ops[n - 1].w.arrays| == |ops[n - 1].w.oom|
    requires ValidBuffers(f.buffer, c.iodescs, t) && 0 <= ops[n - 1].w.vdesc.recVar < 10
    requires LengthsRight(c, ops, n - 1, t, f.buffer)
    ensures var w := ops[n - 1].w;
      LengthsRight(c, ops, n, t, TaskWrite(f, w, c.iodescs[w.ioid], w.arrays[t], w.oom[t], need).buffer)
  {
    var w := ops[n - 1].w;
    OpenedValid(f, w, c.iodescs, t, |w.arrays[t]|);
    var found, i := Opened(f.buffer, w, |w.arrays[t]|), Slot(f.buffer, KeyOf(w));
    ValidIsKeyed(found, c.iodescs, t);
    forall j | 0 <= j < |found| && j != i ensures LengthRight(c, ops, n, t, found[j]) {
      assert found[j].htid != found[i].htid;
      HashIdInjective(found[j].ioid, found[j].recordvar, w.ioid, w.vdesc.recVar);
      OtherLength(c, ops, n, t, found[j]);
    }
  }

  lemma StepLengths(c: Config, ops: seq<Op>, states: seq<seq<TaskFile>>, n: nat, t: nat)
    requires IsRun(c, ops, states) && 0 < n <= |ops| && t < |states[n - 1]|
    requires ValidBuffers(states[n - 1][t].buffer, c.iodescs, t)
    requires LengthsRight(c, ops, n - 1, t, states[n - 1][t].buffer)
    ensures t < |states[n]| && LengthsRight(c, ops, n, t, states[n][t].buffer)
  {
    var op, tasks := ops[n - 1], states[n - 1];
    assert SafeOp(c, tasks, op) && states[n] == StepOp(c, tasks, op);
    if Accepts(c, op) {
      WriteLengths(c, ops, n, tasks[t], t, Decision(tasks, op.w, c.iodescs[op.w.ioid]));
    } else if op.SyncOp? && c.writable {
    } else {
      forall i | 0 <= i < |tasks[t].buffer| ensures LengthRight(c, ops, n, t, tasks[t].buffer[i]) {
        OtherLength(c, ops, n, t, tasks[t].buffer[i]);
      }
    }
  }

  /** In every reachable state a buffer with arrays has the length of the latest one accepted for its key. */
  lemma {:induction false} BuffersHaveLatestLength(
    c: Config, ops: seq<Op>, states: seq<seq<TaskFile>>, n: nat, t: nat)
    requires IsRun(c, ops, states) && n <= |ops| && t < |states[0]|
    ensures |states[n]| == |states[0]| && LengthsRight(c, ops, n, t, states[n][t].buffer)
    decreases n
  {
    if n == 0 {
    } else {
      BuffersHaveLatestLength(c, ops, states, n - 1, t);
      StatesStayValid(c, ops, states, n - 1, t);
      StatesStayValid(c, ops, states, n, t);
      StepLengths(c, ops, states, n, t);
    }
  }

  /** The call hands over buffer `b`: its key, its number of arrays and their length. */
  ghost predicate Hands(h: Handed, b: Wmb, toDisk: bool) {
    b.numArrays > 0 && h.ioid == b.ioid && h.recordvar == b.recordvar && h.nvars == b.numArrays &&
    h.arraylen == b.arraylen && h.toDisk == toDisk
  }

  /** The call of a write, if it flushes and something waits. */
  lemma WriteCall(f: TaskFile, w: Write, iodescs: map<int, IoDesc>, t: nat, arr: seq<Value>, oom: bool, need: nat)
    returns (i: nat)
    requires ValidBuffers(f.buffer, iodescs, t) && w.ioid in iodescs && 0 <= w.vdesc.recVar < 10
    ensures var r, waiting := TaskWrite(f, w, iodescs[w.ioid], arr, oom, need),
        WaitingCount(f.buffer, w.ioid, w.vdesc.recVar);
      f.handed <= r.handed && |r.handed| == |f.handed| + (if need > 0 && waiting > 0 then 1 else 0) &&
      (need > 0 && waiting > 0 ==>
        i < |f.buffer| && f.buffer[i].ioid == w.ioid && f.buffer[i].recordvar == w.vdesc.recVar &&
        f.buffer[i].numArrays == waiting && Hands(r.handed[|f.handed|], f.buffer[i], need == 2))
  {
    i := Slot(f.buffer, KeyOf(w));
    OpenedValid(f, w, iodescs, t, |arr|);
    ValidIsKeyed(f.buffer, iodescs, t);
    SlotCounts(f.buffer, w.ioid, w.vdesc.recVar);
  }

  /** Every call of a sync hands over some buffer, to disk. */
  lemma {:induction false} SyncCall(buffer: seq<Wmb>, k: nat) returns (i: nat)
    requires k < |SyncCalls(buffer)|
    ensures i < |buffer| && Hands(SyncCalls(buffer)[k], buffer[i], true)
  {
    var n := |buffer| - 1;
    if k < |SyncCalls(buffer[..n])| {
      i := SyncCall(buffer[..n], k);
    } else {
      i := n;
    }
  }

  lemma TasksKeyed(c: Config, ops: seq<Op>, states: seq<seq<TaskFile>>, n: nat)
    requires IsRun(c, ops, states) && n <= |ops| && |states[n]| == |states[0]|
    ensures AllKeyed(states[n])
  {
    forall t | 0 <= t < |states[n]| ensures Keyed(states[n][t].buffer) {
      StatesStayValid(c, ops, states, n, t);
      ValidIsKeyed(states[n][t].buffer, c.iodescs, t);
    }
  }

  /** The calls of a task after a write, compared with those before it. */
  ghost predicate MakesCall(
    before: seq<Handed>, after: seq<Handed>, flush: bool, ioid: int, recVar: int, waiting: nat, length: nat,
    toDisk: bool)
  {
    if flush && waiting > 0 then
      |after| == |before| + 1 && after[..|before|] == before &&
      var h := after[|before|];
      h.ioid == ioid && h.recordvar == recVar && h.nvars == waiting && h.arraylen == length && h.toDisk == toDisk
    else after == before
  }

  /** What waits for the key came last with an array of this length. */
  ghost predicate KeyLength(buffer: seq<Wmb>, ioid: int, recVar: int, length: nat) {
    forall i :: 0 <= i < |buffer| ==>
      (buffer[i].ioid == ioid && buffer[i].recordvar == recVar && buffer[i].numArrays > 0 ==>
        buffer[i].arraylen == length)
  }

  /** In every reachable state this is the latest array that was accepted for the key. */
  lemma WaitingHasLatestLength(
    c: Config, ops: seq<Op>, states: seq<seq<TaskFile>>, n: nat, t: nat, ioid: int, recVar: int)
    requires IsRun(c, ops, states) && n <= |ops| && t < |states[0]|
    ensures |states[n]| == |states[0]|
    ensures KeyLength(states[n][t].buffer, ioid, recVar, LatestLength(c, ops, n, t, ioid, recVar))
  {
    BuffersHaveLatestLength(c, ops, states, n, t);
    forall i | 0 <= i < |states[n][t].buffer| ensures LengthRight(c, ops, n, t, states[n][t].buffer[i]) {
    }
  }

  lemma WriteMakesCall(c: Config, tasks: seq<TaskFile>, op: Op, t: nat, length: nat, next: TaskFile)
    requires SafeOp(c, tasks, op) && Accepts(c, op) && t < |tasks| && AllKeyed(tasks)
    requires ValidBuffers(tasks[t].buffer, c.iodescs, t) && next == StepOp(c, tasks, op)[t]
    requires KeyLength(tasks[t].buffer, op.w.ioid, op.w.vdesc.recVar, length)
    ensures var w, d := op.w, c.iodescs[op.w.ioid];
      MakesCall(tasks[t].handed, next.handed, SomeTooLarge(tasks, w, d) || SomeWithoutRoom(w),
                w.ioid, w.vdesc.recVar, WaitingCount(tasks[t].buffer, w.ioid, w.vdesc.recVar), length,
                SomeTooLarge(tasks, w, d))
  {
    var d := c.iodescs[op.w.ioid];
    DecisionExact(tasks, op.w, d);
    var i := WriteCall(tasks[t], op.w, c.iodescs, t, op.w.arrays[t], op.w.oom[t], Decision(tasks, op.w, d));
  }

  /**
   * An accepted write makes a call exactly if something waits for its key, and on some task the data with one more
   * array would be too large or there was no room for the array. The call is for that key, hands over all that
   * waits, carries the length of the latest array accepted for the key, and goes to disk exactly if the data would
   * be too large on some task.
   */
  lemma FlushesExact(c: Config, ops: seq<Op>, states: seq<seq<TaskFile>>, n: nat, t: nat)
    requires IsRun(c, ops, states) && 0 < n <= |ops| && t < |states[0]| && Accepts(c, ops[n - 1])
    ensures |states[n - 1]| == |states[n]| == |states[0]|
    ensures var w, tasks := ops[n - 1].w, states[n - 1];
      var large := SomeTooLarge(tasks, w, c.iodescs[w.ioid]);
      MakesCall(tasks[t].handed, states[n][t].handed, large || SomeWithoutRoom(w), w.ioid, w.vdesc.recVar,
                WaitingCount(tasks[t].buffer, w.ioid, w.vdesc.recVar),
                LatestLength(c, ops, n - 1, t, w.ioid, w.vdesc.recVar), large)
  {
    var op, tasks := ops[n - 1], states[n - 1];
    StatesStayValid(c, ops, states, n - 1, t);
    WaitingHasLatestLength(c, ops, states, n - 1, t, op.w.ioid, op.w.vdesc.recVar);
    assert SafeOp(c, tasks, op) && states[n] == StepOp(c, tasks, op);
    TasksKeyed(c, ops, states, n - 1);
    WriteMakesCall(c, tasks, op, t, LatestLength(c, ops, n - 1, t, op.w.ioid, op.w.vdesc.recVar), states[n][t]);
  }

  /** Every call of a sync goes to disk and carries the length of the latest array accepted for its key. */
  lemma SyncCallsExact(c: Config, ops: seq<Op>, states: seq<seq<TaskFile>>, n: nat, t: nat, k: nat)
    requires IsRun(c, ops, states) && 0 < n <= |ops| && t < |states[0]| && ops[n - 1].SyncOp? && c.writable
    requires |states[n - 1]| == |states[n]| == |states[0]|
    requires |states[n - 1][t].handed| <= k < |states[n][t].handed|
    ensures var h := states[n][t].handed[k];
      h.toDisk && h.arraylen == LatestLength(c, ops, n - 1, t, h.ioid, h.recordvar)
  {
    var tasks := states[n - 1];
    BuffersHaveLatestLength(c, ops, states, n - 1, t);
    assert SafeOp(c, tasks, ops[n - 1]) && states[n] == StepOp(c, tasks, ops[n - 1]);
    var i := SyncCall(tasks[t].buffer, k - |tasks[t].handed|);
    assert LengthRight(c, ops, n - 1, t, tasks[t].buffer[i]);
  }

  // Lockstep.

  /** Two tasks' buffers agree on everything but the local data. */
  ghost predicate SameShape(a: Wmb, b: Wmb) {
    a.(arraylen := 0, data := []) == b.(arraylen := 0, data := [])
  }

  ghost predicate SameCall(a: Handed, b: Handed) {
    a.(arraylen := 0, data := []) == b.(arraylen := 0, data := [])
  }

  ghost predicate SameCalls(a: seq<Handed>, b: seq<Handed>) {
    |a| == |b| && forall i :: 0 <= i < |a| ==> SameCall(a[i], b[i])
  }

  ghost predicate SameBuffers(a: seq<Wmb>, b: seq<Wmb>) {
    |a| == |b| && forall i :: 0 <= i < |a| ==> SameShape(a[i], b[i])
  }

  /** Two tasks have the same buffers and have made the same calls, up to the local data. */
  ghost predicate InStep(f: TaskFile, g: TaskFile) {
    SameBuffers(f.buffer, g.buffer) && SameCalls(f.handed, g.handed)
  }

  lemma SlotInStep(a: seq<Wmb>, b: seq<Wmb>, htid: int)
    requires SameBuffers(a, b)
    ensures Slot(a, htid) == Slot(b, htid)
  {
    var i := Slot(a, htid);
    assert forall j :: 0 <= j < |a| ==> SameShape(a[j], b[j]) && a[j].htid == b[j].htid;
    SlotIs(b, htid, i);
  }

  lemma OpenedInStep(f: TaskFile, g: TaskFile, w: Write, m: nat, n: nat)
    requires InStep(f, g)
    ensures SameBuffers(Opened(f.buffer, w, m), Opened(g.buffer, w, n))
    ensures Slot(f.buffer, KeyOf(w)) == Slot(g.buffer, KeyOf(w))
  {
    SlotInStep(f.buffer, g.buffer, KeyOf(w));
  }

  lemma FlushInStep(a: Wmb, b: Wmb, toDisk: bool)
    requires SameShape(a, b)
    ensures SameCalls(FlushCall(a, toDisk), FlushCall(b, toDisk))
  {
  }

  lemma AddedInStep(a: Wmb, b: Wmb, v: VarDesc, needsfill: bool, arr: seq<Value>, arr': seq<Value>)
    requires SameShape(a, b)
    ensures SameShape(Added(a, v, needsfill, arr), Added(b, v, needsfill, arr'))
    ensures SameShape(Added(Emptied(a), v, needsfill, arr), Added(Emptied(b), v, needsfill, arr'))
  {
  }

  lemma ReplacedInStep(a: seq<Wmb>, b: seq<Wmb>, i: nat, x: Wmb, y: Wmb)
    requires SameBuffers(a, b) && i < |a| && SameShape(x, y)
    ensures SameBuffers(a[i := x], b[i := y])
  {
  }

  lemma MoreCallsInStep(a: seq<Handed>, b: seq<Handed>, x: seq<Handed>, y: seq<Handed>)
    requires SameCalls(a, b) && SameCalls(x, y)
    ensures SameCalls(a + x, b + y)
  {
  }

  /** One buffer's part of a write. */
  lemma StoreInStep(
    a: Wmb, b: Wmb, v: VarDesc, needsfill: bool, arr: seq<Value>, arr': seq<Value>, oom: bool, oom': bool, need: nat)
    requires SameShape(a, b)
    ensures SameShape(Added(if need > 0 then Emptied(a) else a, v, needsfill, arr),
                      Added(if need > 0 then Emptied(b) else b, v, needsfill, arr'))
    ensures SameCalls(WriteCalls(a, |arr|, oom, need), WriteCalls(b, |arr'|, oom', need))
  {
    AddedInStep(a, b, v, needsfill, arr, arr');
    FlushInStep(Grown(a, |arr|, oom), Grown(b, |arr'|, oom'), need == 2);
  }

  lemma WriteInStep(
    f: TaskFile, g: TaskFile, w: Write, d: IoDesc, arr: seq<Value>, arr': seq<Value>, oom: bool, oom': bool, need: nat)
    requires InStep(f, g)
    ensures InStep(TaskWrite(f, w, d, arr, oom, need), TaskWrite(g, w, d, arr', oom', need))
  {
    OpenedInStep(f, g, w, |arr|, |arr'|);
    var i := Slot(f.buffer, KeyOf(w));
    var found, found' := Opened(f.buffer, w, |arr|), Opened(g.buffer, w, |arr'|);
    StoreInStep(found[i], found'[i], w.vdesc, d.needsfill, arr, arr', oom, oom', need);
    ReplacedInStep(found, found', i, Added(Target(f, w, |arr|, need), w.vdesc, d.needsfill, arr),
                   Added(Target(g, w, |arr'|, need), w.vdesc, d.needsfill, arr'));
    MoreCallsInStep(
      f.handed, g.handed, WriteCalls(found[i], |arr|, oom, need), WriteCalls(found'[i], |arr'|, oom', need));
  }

  lemma {:induction false} SyncInStep(a: seq<Wmb>, b: seq<Wmb>)
    requires SameBuffers(a, b)
    ensures SameCalls(SyncCalls(a), SyncCalls(b))
  {
    if a == [] {
    } else {
      var n := |a| - 1;
      SyncInStep(a[..n], b[..n]);
      FlushInStep(a[n], b[n], true);
    }
  }

  lemma StepInStep(c: Config, tasks: seq<TaskFile>, op: Op, t: nat, u: nat)
    requires SafeOp(c, tasks, op) && t < |tasks| && u < |tasks| && InStep(tasks[t], tasks[u])
    ensures InStep(StepOp(c, tasks, op)[t], StepOp(c, tasks, op)[u])
  {
    if Accepts(c, op) {
      var d := c.iodescs[op.w.ioid];
      WriteInStep(tasks[t], tasks[u], op.w, d, op.w.arrays[t], op.w.arrays[u], op.w.oom[t], op.w.oom[u],
                  Decision(tasks, op.w, d));
    } else if op.SyncOp? && c.writable {
      SyncInStep(tasks[t].buffer, tasks[u].buffer);
    }
  }

  /**
   * In every reachable state all tasks have the same buffers, holding the same variables and records, and
   * have flushed at the same points, also when memory ran out on some tasks only.
   */
  lemma {:induction false} TasksStayInStep(
    c: Config, ops: seq<Op>, states: seq<seq<TaskFile>>, n: nat, t: nat, u: nat)
    requires IsRun(c, ops, states) && n <= |ops| && t < |states[0]| && u < |states[0]|
    ensures |states[n]| == |states[0]| && InStep(states[n][t], states[n][u])
    decreases n
  {
    if n == 0 {
    } else {
      TasksStayInStep(c, ops, states, n - 1, t, u);
      StepInStep(c, states[n - 1], ops[n - 1], t, u);
    }
  }

  // The size of a hand-over.

  ghost predicate Fits(c: Config, ioid: int, n: nat) {
    ioid in c.iodescs && n * c.iodescs[ioid].maxiobuflen * c.iodescs[ioid].mpitypeSize <= INT_MAX
  }

  /** One array of any decomposition fits. */
  ghost predicate ArraysFit(c: Config) {
    forall ioid :: ioid in c.iodescs ==> Fits(c, ioid, 1)
  }

  ghost predicate BuffersFit(c: Config, buffer: seq<Wmb>) {
    forall i :: 0 <= i < |buffer| ==> Fits(c, buffer[i].ioid, buffer[i].numArrays)
  }

  ghost predicate CallsFit(c: Config, handed: seq<Handed>) {
    forall i :: 0 <= i < |handed| ==> Fits(c, handed[i].ioid, handed[i].nvars)
  }

  ghost predicate Bounded(c: Config, f: TaskFile) {
    BuffersFit(c, f.buffer) && CallsFit(c, f.handed)
  }

  lemma FlushBounded(c: Config, b: Wmb, toDisk: bool)
    requires Fits(c, b.ioid, b.numArrays)
    ensures CallsFit(c, FlushCall(b, toDisk))
  {
  }

  lemma FitsAfterNeed(c: Config, ioid: int, n: nat, arraylen: nat, oom: bool, need: nat)
    requires ArraysFit(c) && ioid in c.iodescs && need >= Need(n, arraylen, c.iodescs[ioid], oom)
    ensures Fits(c, ioid, 0) && Fits(c, ioid, 1) && (need == 0 ==> Fits(c, ioid, n + 1))
  {
  }

  lemma OpenedBounded(c: Config, buffer: seq<Wmb>, w: Write, arraylen: nat)
    requires BuffersFit(c, buffer) && Fits(c, w.ioid, 0)
    ensures BuffersFit(c, Opened(buffer, w, arraylen))
  {
  }

  lemma ReplacedBounded(c: Config, buffer: seq<Wmb>, i: nat, b: Wmb)
    requires BuffersFit(c, buffer) && i < |buffer| && Fits(c, b.ioid, b.numArrays)
    ensures BuffersFit(c, buffer[i := b])
  {
  }

  lemma WriteBounded(c: Config, f: TaskFile, w: Write, t: nat, arr: seq<Value>, oom: bool, need: nat)
    requires ArraysFit(c) && Bounded(c, f) && w.ioid in c.iodescs
    requires ValidBuffers(f.buffer, c.iodescs, t) && 0 <= w.vdesc.recVar < 10
    requires need >= NeedOf(f, w, c.iodescs[w.ioid], |arr|, oom)
    ensures Bounded(c, TaskWrite(f, w, c.iodescs[w.ioid], arr, oom, need))
  {
    OpenedValid(f, w, c.iodescs, t, |arr|);
    var found, i := Opened(f.buffer, w, |arr|), Slot(f.buffer, KeyOf(w));
    FitsAfterNeed(c, w.ioid, found[i].numArrays, |arr|, oom, need);
    OpenedBounded(c, f.buffer, w, |arr|);
    ReplacedBounded(c, found, i, Added(Target(f, w, |arr|, need), w.vdesc, c.iodescs[w.ioid].needsfill, arr));
    FlushBounded(c, Grown(found[i], |arr|, oom), need == 2);
  }

  lemma {:induction false} SyncBounded(c: Config, buffer: seq<Wmb>)
    requires BuffersFit(c, buffer)
    ensures CallsFit(c, SyncCalls(buffer))
  {
    if buffer == [] {
    } else {
      SyncBounded(c, buffer[..|buffer| - 1]);
      FlushBounded(c, buffer[|buffer| - 1], true);
    }
  }

  lemma StepBounded(c: Config, tasks: seq<TaskFile>, op: Op, t: nat)
    requires ArraysFit(c) && SafeOp(c, tasks, op) && t < |tasks| && Bounded(c, tasks[t])
    requires ValidBuffers(tasks[t].buffer, c.iodescs, t)
    ensures Bounded(c, StepOp(c, tasks, op)[t])
  {
    if Accepts(c, op) {
      var d := c.iodescs[op.w.ioid];
      DecisionCovers(tasks, op.w, d, t);
      WriteBounded(c, tasks[t], op.w, t, op.w.arrays[t], op.w.oom[t], Decision(tasks, op.w, d));
    } else if op.SyncOp? && c.writable {
      SyncBounded(c, tasks[t].buffer);
    }
  }

  /** No buffer and no hand-over of any run gets larger than an IO task can take. */
  lemma {:induction false} HandOversStayBounded(c: Config, ops: seq<Op>, states: seq<seq<TaskFile>>, n: nat, t: nat)
    requires ArraysFit(c) && IsRun(c, ops, states) && n <= |ops| && t < |states[0]|
    ensures |states[n]| == |states[0]| && Bounded(c, states[n][t])
    decreases n
  {
    if n == 0 {
    } else {
      HandOversStayBounded(c, ops, states, n - 1, t);
      StatesStayValid(c, ops, states, n - 1, t);
      StepBounded(c, states[n - 1], ops[n - 1], t);
    }
  }
}

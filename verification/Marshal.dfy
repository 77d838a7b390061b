/**
 * How a call travels from the computation tasks to the IO tasks: the stub broadcasts the parameters one
 * by one, and the handler of the message has to receive them in the same order with the same types
 * and lengths, optional ones only when their flag says so.
 *
 * A packet is one broadcast. A handler can only receive a packet whose type and length it expects.
 */
module Marshal {
  import opened Decomposition
  import Hyperslabs

  type Byte = int

  datatype Kind = MpiInt | MpiOffset | MpiChar | MpiByte

  datatype Packet = Packet(kind: Kind, data: seq<int>)

  const NC_MAX_NAME := 256

  /** The calls that are sent; types, sizes and dimensions are what the stub has inquired. */
  datatype Call =
    | PutVars(ncid: int, varid: int, ndims: nat, start: Option<seq<int>>, count: Option<seq<int>>,
              stride: Option<seq<int>>, xtype: int, typelen: nat, buf: seq<Byte>)
    | GetVars(ncid: int, varid: int, ndims: nat, start: Option<seq<int>>, count: Option<seq<int>>,
              stride: Option<seq<int>>, xtype: int, typelen: nat)
    | PutAtt(ncid: int, varid: int, name: seq<int>, atttype: int, len: nat, atttypeLen: nat, memtype: int,
             memtypeLen: nat, op: seq<Byte>)
    | GetAtt(ncid: int, varid: int, name: seq<int>, iotype: int, atttype: int, len: nat, atttypeLen: nat,
             memtype: int, memtypeLen: nat)
    | WriteDarrayMulti(ncid: int, varids: seq<int>, ioid: int, arraylen: nat, data: seq<Byte>,
                       frame: Option<seq<int>>, fillvalue: Option<seq<Byte>>, flushtodisk: bool)
    | ReadDarray(ncid: int, varid: int, ioid: int, arraylen: nat)

  function ProductOf(s: seq<int>): int {
    if s == [] then 1 else ProductOf(s[..|s| - 1]) * s[|s| - 1]
  }

  /** The number of elements; without counts it is a scalar. */
  function NumElem(count: Option<seq<int>>): int {
    if count.Some? then ProductOf(count.value) else 1
  }

  lemma {:induction false} ProductOfAppend(a: seq<int>, b: seq<int>)
    ensures ProductOf(a + b) == ProductOf(a) * ProductOf(b)
  {
    if b == [] {
      assert a + b == a;
    } else {
      var n := |b| - 1;
      ProductOfAppend(a, b[..n]);
      assert (a + b)[..|a + b| - 1] == a + b[..n];
      assert ProductOf(a) * ProductOf(b[..n]) * b[n] == ProductOf(a) * (ProductOf(b[..n]) * b[n]);
    }
  }

  lemma ProductOfOne(x: int)
    ensures ProductOf([x]) == x
  {
    assert [x][..0] == [];
  }

  lemma {:induction false} ProductOfCounts(count: seq<nat>)
    ensures ProductOf(count) == Hyperslabs.Product(count)
  {
    if count == [] {
    } else {
      ProductOfCounts(count[1..]);
      ProductOfOne(count[0]);
      ProductOfAppend([count[0]], count[1..]);
      assert count == [count[0]] + count[1..];
    }
  }

  /** The number of elements is the number of indices in the box of start and count; a scalar has one. */
  lemma NumElemIsBox(start: seq<int>, count: seq<nat>)
    requires |start| == |count|
    ensures NumElem(Some(count)) == |Hyperslabs.Indices(start, count)| && NumElem(None) == 1
  {
    ProductOfCounts(count);
    Hyperslabs.IndicesLength(start, count);
  }

  ghost predicate Has<T>(o: Option<seq<T>>, n: nat) {
    o.Some? ==> |o.value| == n
  }

  /** A C string: no NUL inside. */
  ghost predicate IsName(name: seq<int>) {
    |name| <= NC_MAX_NAME && 0 !in name
  }

  /** What the stubs check or know before they send; `sizes` gives the element size of every decomposition. */
  ghost predicate Legal(sizes: map<int, nat>, c: Call) {
    match c
    case PutVars(_, _, ndims, start, count, stride, _, typelen, buf) =>
      Has(start, ndims) && Has(count, ndims) && Has(stride, ndims) && |buf| == NumElem(count) * typelen
    case GetVars(_, _, ndims, start, count, stride, _, _) =>
      Has(start, ndims) && Has(count, ndims) && Has(stride, ndims) && (ndims == 0 || (start.Some? && count.Some?))
    case PutAtt(_, _, name, _, len, _, _, memtypeLen, op) => IsName(name) && |op| == len * memtypeLen
    case GetAtt(_, _, name, _, _, _, _, _, _) => IsName(name)
    case WriteDarrayMulti(_, varids, ioid, arraylen, data, frame, fillvalue, _) =>
      |varids| > 0 && ioid in sizes && |data| == |varids| * (arraylen * sizes[ioid]) &&
      arraylen * sizes[ioid] <= |data| && Has(frame, |varids|) && Has(fillvalue, |varids| * sizes[ioid])
    case ReadDarray(_, _, _, _) => true
  }

  // The streams. `rest` is what follows the call.

  function Int(x: int): seq<Packet> { [Packet(MpiInt, [x])] }

  function Offset(x: int): seq<Packet> { [Packet(MpiOffset, [x])] }

  function Flag(b: bool): seq<Packet> { [Packet(MpiChar, [if b then 1 else 0])] }

  function Optional(kind: Kind, o: Option<seq<int>>, rest: seq<Packet>): seq<Packet> {
    if o.Some? then Flag(true) + ([Packet(kind, o.value)] + rest) else Flag(false) + rest
  }

  function Encode(sizes: map<int, nat>, c: Call, rest: seq<Packet>): seq<Packet>
    requires c.WriteDarrayMulti? ==> c.ioid in sizes && c.arraylen * sizes[c.ioid] <= |c.data|
  {
    match c
    case PutVars(ncid, varid, ndims, start, count, stride, xtype, typelen, buf) =>
      Int(ncid) + (Int(varid) + (Int(ndims) +
      Optional(MpiOffset, start, Optional(MpiOffset, count, Optional(MpiOffset, stride,
      Int(xtype) + (Offset(NumElem(count)) + (Offset(typelen) + ([Packet(MpiByte, buf)] + rest))))))))
    case GetVars(ncid, varid, ndims, start, count, stride, xtype, typelen) =>
      Int(ncid) + (Int(varid) + (Int(ndims) +
      Optional(MpiOffset, start, Optional(MpiOffset, count, Optional(MpiOffset, stride,
      Int(xtype) + (Offset(NumElem(count)) + (Offset(typelen) + rest)))))))
    case PutAtt(ncid, varid, name, atttype, len, atttypeLen, memtype, memtypeLen, op) =>
      Int(ncid) + (Int(varid) + (Int(|name|) + ([Packet(MpiChar, name + [0])] + (Int(atttype) +
      (Offset(len) + (Offset(atttypeLen) + (Int(memtype) + (Offset(memtypeLen) + ([Packet(MpiByte, op)] + rest)))))))))
    case GetAtt(ncid, varid, name, iotype, atttype, len, atttypeLen, memtype, memtypeLen) =>
      Int(ncid) + (Int(varid) + (Int(|name|) + ([Packet(MpiChar, name + [0])] + (Int(iotype) + (Int(atttype) +
      (Offset(len) + (Offset(atttypeLen) + (Int(memtype) + (Offset(memtypeLen) + rest)))))))))
    case WriteDarrayMulti(ncid, varids, ioid, arraylen, data, frame, fillvalue, flushtodisk) =>
      Int(ncid) + (Int(|varids|) + ([Packet(MpiInt, varids)] + (Int(ioid) + (Offset(arraylen) +
      ([Packet(MpiChar, data[..arraylen * sizes[ioid]])] +
      Optional(MpiInt, frame, Optional(MpiChar, fillvalue, Int(if flushtodisk then 1 else 0) + rest)))))))
    case ReadDarray(ncid, varid, ioid, arraylen) =>
      Int(ncid) + (Int(varid) + (Int(ioid) + (Offset(arraylen) + rest)))
  }

  /** A put of 3 by 4 one-byte elements, without strides: the packets in full. */
  lemma PutVarsOnWire(buf: seq<Byte>)
    requires |buf| == 12
    ensures var c := PutVars(1, 2, 2, Some([5, 6]), Some([3, 4]), None, 4, 1, buf);
      Legal(map[], c) && Encode(map[], c, []) == [
        Packet(MpiInt, [1]), Packet(MpiInt, [2]), Packet(MpiInt, [2]),
        Packet(MpiChar, [1]), Packet(MpiOffset, [5, 6]), Packet(MpiChar, [1]), Packet(MpiOffset, [3, 4]),
        Packet(MpiChar, [0]), Packet(MpiInt, [4]), Packet(MpiOffset, [12]), Packet(MpiOffset, [1]),
        Packet(MpiByte, buf)]
  {
    ProductOfAppend([3], [4]);
    ProductOfOne(3);
    ProductOfOne(4);
    assert [3] + [4] == [3, 4];
    assert NumElem(Some([3, 4])) == 12;
    var tail := Int(4) + (Offset(12) + (Offset(1) + ([Packet(MpiByte, buf)] + [])));
    assert tail == [Packet(MpiInt, [4]), Packet(MpiOffset, [12]), Packet(MpiOffset, [1]), Packet(MpiByte, buf)];
    var counts := Optional(MpiOffset, Some([3, 4]), Optional(MpiOffset, None, tail));
    assert counts == [Packet(MpiChar, [1]), Packet(MpiOffset, [3, 4]), Packet(MpiChar, [0])] + tail;
  }

  /** A get of a scalar with all optional arrays absent. */
  lemma GetVarsOnWire()
    ensures var c := GetVars(1, 2, 0, None, None, None, 4, 8);
      Legal(map[], c) && Encode(map[], c, []) == [
        Packet(MpiInt, [1]), Packet(MpiInt, [2]), Packet(MpiInt, [0]),
        Packet(MpiChar, [0]), Packet(MpiChar, [0]), Packet(MpiChar, [0]),
        Packet(MpiInt, [4]), Packet(MpiOffset, [1]), Packet(MpiOffset, [8])]
  {
  }

  /** An attribute of 3 elements, 4 bytes each in the file and 8 in memory: the data are 24 bytes. */
  lemma PutAttOnWire(op: seq<Byte>)
    requires |op| == 24
    ensures var c := PutAtt(1, 2, [65, 66], 5, 3, 4, 6, 8, op);
      Legal(map[], c) && Encode(map[], c, []) == [
        Packet(MpiInt, [1]), Packet(MpiInt, [2]), Packet(MpiInt, [2]), Packet(MpiChar, [65, 66, 0]),
        Packet(MpiInt, [5]), Packet(MpiOffset, [3]), Packet(MpiOffset, [4]), Packet(MpiInt, [6]),
        Packet(MpiOffset, [8]), Packet(MpiByte, op)]
  {
    assert [65, 66] + [0] == [65, 66, 0];
  }

  lemma GetAttOnWire()
    ensures var c := GetAtt(1, 2, [65, 66], 3, 5, 7, 4, 6, 8);
      Legal(map[], c) && Encode(map[], c, []) == [
        Packet(MpiInt, [1]), Packet(MpiInt, [2]), Packet(MpiInt, [2]), Packet(MpiChar, [65, 66, 0]),
        Packet(MpiInt, [3]), Packet(MpiInt, [5]), Packet(MpiOffset, [7]), Packet(MpiOffset, [4]),
        Packet(MpiInt, [6]), Packet(MpiOffset, [8])]
  {
    assert [65, 66] + [0] == [65, 66, 0];
  }

  /** Two variables of 2 four-byte elements, with records: of the 16 bytes of data the first 8 travel. */
  lemma WriteDarrayMultiOnWire(data: seq<Byte>)
    requires |data| == 16
    ensures var c := WriteDarrayMulti(1, [7, 8], 9, 2, data, Some([0, 3]), None, true);
      Legal(map[9 := 4], c) && Encode(map[9 := 4], c, []) == [
        Packet(MpiInt, [1]), Packet(MpiInt, [2]), Packet(MpiInt, [7, 8]), Packet(MpiInt, [9]),
        Packet(MpiOffset, [2]), Packet(MpiChar, data[..8]), Packet(MpiChar, [1]), Packet(MpiInt, [0, 3]),
        Packet(MpiChar, [0]), Packet(MpiInt, [1])]
  {
  }

  lemma ReadDarrayOnWire()
    ensures Encode(map[], ReadDarray(1, 2, 3, 4), []) ==
      [Packet(MpiInt, [1]), Packet(MpiInt, [2]), Packet(MpiInt, [3]), Packet(MpiOffset, [4])]
  {
  }

  /** What arrives: of the data of `PIOc_write_darray_multi`, the array of the first variable only. */
  function Received(sizes: map<int, nat>, c: Call): Call
    requires c.WriteDarrayMulti? ==> c.ioid in sizes && c.arraylen * sizes[c.ioid] <= |c.data|
  {
    if c.WriteDarrayMulti? then c.(data := c.data[..c.arraylen * sizes[c.ioid]]) else c
  }

  /** The data of a write arrives whole exactly when there is one variable, or no data. */
  lemma WholeDataReceived(sizes: map<int, nat>, c: Call)
    requires Legal(sizes, c) && c.WriteDarrayMulti?
    ensures Received(sizes, c) == c <==> |c.varids| == 1 || c.arraylen * sizes[c.ioid] == 0
  {
    var n := c.arraylen * sizes[c.ioid];
    if |c.varids| == 1 || n == 0 {
      assert c.data[..n] == c.data;
    } else {
      assert |c.varids| * n == n + (|c.varids| - 1) * n && (|c.varids| - 1) * n == n + (|c.varids| - 2) * n;
      assert |c.data[..n]| < |c.data|;
    }
  }

  // The handlers receive packet by packet. The ghost parameters say what is known to come next.

  method Recv(s: seq<Packet>, kind: Kind, n: nat, ghost expected: seq<int>, ghost rest: seq<Packet>)
    returns (data: seq<int>, r: seq<Packet>)
    requires s == [Packet(kind, expected)] + rest && |expected| == n
    ensures data == expected && r == rest
  {
    data, r := s[0].data, s[1..];
  }

  method RecvInt(s: seq<Packet>, kind: Kind, ghost expected: int, ghost rest: seq<Packet>)
    returns (x: int, r: seq<Packet>)
    requires s == [Packet(kind, [expected])] + rest
    ensures x == expected && r == rest
  {
    var data;
    data, r := Recv(s, kind, 1, [expected], rest);
    x := data[0];
  }

  method RecvOptional(s: seq<Packet>, kind: Kind, n: nat, ghost expected: Option<seq<int>>, ghost rest: seq<Packet>)
    returns (o: Option<seq<int>>, r: seq<Packet>)
    requires s == Optional(kind, expected, rest) && Has(expected, n)
    ensures o == expected && r == rest
  {
    var present;
    o := None;
    present, r := RecvInt(s, MpiChar, if expected.Some? then 1 else 0,
      if expected.Some? then [Packet(kind, expected.value)] + rest else rest);
    if present != 0 {
      var data;
      data, r := Recv(r, kind, n, expected.value, rest);
      o := Some(data);
    }
  }

  ghost predicate Arrives(sizes: map<int, nat>, c: Call, s: seq<Packet>, rest: seq<Packet>) {
    Legal(sizes, c) && s == Encode(sizes, c, rest)
  }

  /** `c` is the call whose packets come next; the handler does not see it. */
  method PutVarsHandler(sizes: map<int, nat>, s: seq<Packet>, ghost c: Call, ghost rest: seq<Packet>)
    returns (d: Call, r: seq<Packet>)
    requires c.PutVars? && Arrives(sizes, c, s, rest)
    ensures d == Received(sizes, c) && r == rest
  {
    ghost var tail :=
      Int(c.xtype) + (Offset(NumElem(c.count)) + (Offset(c.typelen) + ([Packet(MpiByte, c.buf)] + rest)));
    ghost var t1 := Optional(MpiOffset, c.stride, tail);
    ghost var t2 := Optional(MpiOffset, c.count, t1);
    ghost var t3 := Optional(MpiOffset, c.start, t2);
    var ncid, varid, ndims, startp, countp, stridep, xtype, numElem, typelen, buf;
    ncid, r := RecvInt(s, MpiInt, c.ncid, Int(c.varid) + (Int(c.ndims) + t3));
    varid, r := RecvInt(r, MpiInt, c.varid, Int(c.ndims) + t3);
    ndims, r := RecvInt(r, MpiInt, c.ndims, t3);
    startp, r := RecvOptional(r, MpiOffset, ndims, c.start, t2);
    countp, r := RecvOptional(r, MpiOffset, ndims, c.count, t1);
    stridep, r := RecvOptional(r, MpiOffset, ndims, c.stride, tail);
    xtype, r := RecvInt(r, MpiInt, c.xtype,
      Offset(NumElem(c.count)) + (Offset(c.typelen) + ([Packet(MpiByte, c.buf)] + rest)));
    numElem, r := RecvInt(r, MpiOffset, NumElem(c.count), Offset(c.typelen) + ([Packet(MpiByte, c.buf)] + rest));
    typelen, r := RecvInt(r, MpiOffset, c.typelen, [Packet(MpiByte, c.buf)] + rest);
    buf, r := Recv(r, MpiByte, numElem * typelen, c.buf, rest);
    d := PutVars(ncid, varid, ndims, startp, countp, stridep, xtype, typelen, buf);
  }

  method GetVarsHandler(sizes: map<int, nat>, s: seq<Packet>, ghost c: Call, ghost rest: seq<Packet>)
    returns (d: Call, r: seq<Packet>)
    requires c.GetVars? && Arrives(sizes, c, s, rest)
    ensures d == Received(sizes, c) && r == rest
  {
    ghost var tail := Int(c.xtype) + (Offset(NumElem(c.count)) + (Offset(c.typelen) + rest));
    ghost var t1 := Optional(MpiOffset, c.stride, tail);
    ghost var t2 := Optional(MpiOffset, c.count, t1);
    ghost var t3 := Optional(MpiOffset, c.start, t2);
    var ncid, varid, ndims, startp, countp, stridep, xtype, numElem, typelen;
    ncid, r := RecvInt(s, MpiInt, c.ncid, Int(c.varid) + (Int(c.ndims) + t3));
    varid, r := RecvInt(r, MpiInt, c.varid, Int(c.ndims) + t3);
    ndims, r := RecvInt(r, MpiInt, c.ndims, t3);
    startp, r := RecvOptional(r, MpiOffset, ndims, c.start, t2);
    countp, r := RecvOptional(r, MpiOffset, ndims, c.count, t1);
    stridep, r := RecvOptional(r, MpiOffset, ndims, c.stride, tail);
    xtype, r := RecvInt(r, MpiInt, c.xtype, Offset(NumElem(c.count)) + (Offset(c.typelen) + rest));
    numElem, r := RecvInt(r, MpiOffset, NumElem(c.count), Offset(c.typelen) + rest);
    typelen, r := RecvInt(r, MpiOffset, c.typelen, rest);
    d := GetVars(ncid, varid, ndims, startp, countp, stridep, xtype, typelen);
  }

  /** The characters before the first NUL. */
  function CString(s: seq<int>): seq<int> {
    if s == [] || s[0] == 0 then [] else [s[0]] + CString(s[1..])
  }

  lemma {:induction false} StringRead(name: seq<int>)
    requires 0 !in name
    ensures CString(name + [0]) == name
  {
    if name == [] {
    } else {
      assert (name + [0])[1..] == name[1..] + [0];
      StringRead(name[1..]);
    }
  }

  method AttPutHandler(sizes: map<int, nat>, s: seq<Packet>, ghost c: Call, ghost rest: seq<Packet>)
    returns (d: Call, r: seq<Packet>)
    requires c.PutAtt? && Arrives(sizes, c, s, rest)
    ensures d == Received(sizes, c) && r == rest
  {
    ghost var t1 := [Packet(MpiByte, c.op)] + rest;
    ghost var t2 := Int(c.memtype) + (Offset(c.memtypeLen) + t1);
    ghost var t3 := Int(c.atttype) + (Offset(c.len) + (Offset(c.atttypeLen) + t2));
    ghost var t4 := [Packet(MpiChar, c.name + [0])] + t3;
    var ncid, varid, namelen, name, atttype, attlen, atttypeLen, memtype, memtypeLen, op;
    ncid, r := RecvInt(s, MpiInt, c.ncid, Int(c.varid) + (Int(|c.name|) + t4));
    varid, r := RecvInt(r, MpiInt, c.varid, Int(|c.name|) + t4);
    namelen, r := RecvInt(r, MpiInt, |c.name|, t4);
    name, r := Recv(r, MpiChar, namelen + 1, c.name + [0], t3);
    atttype, r := RecvInt(r, MpiInt, c.atttype, Offset(c.len) + (Offset(c.atttypeLen) + t2));
    attlen, r := RecvInt(r, MpiOffset, c.len, Offset(c.atttypeLen) + t2);
    atttypeLen, r := RecvInt(r, MpiOffset, c.atttypeLen, t2);
    memtype, r := RecvInt(r, MpiInt, c.memtype, Offset(c.memtypeLen) + t1);
    memtypeLen, r := RecvInt(r, MpiOffset, c.memtypeLen, t1);
    op, r := Recv(r, MpiByte, attlen * memtypeLen, c.op, rest);
    StringRead(c.name);
    d := PutAtt(ncid, varid, CString(name), atttype, attlen, atttypeLen, memtype, memtypeLen, op);
  }

  method AttGetHandler(sizes: map<int, nat>, s: seq<Packet>, ghost c: Call, ghost rest: seq<Packet>)
    returns (d: Call, r: seq<Packet>)
    requires c.GetAtt? && Arrives(sizes, c, s, rest)
    ensures d == Received(sizes, c) && r == rest
  {
    ghost var t2 := Int(c.memtype) + (Offset(c.memtypeLen) + rest);
    ghost var t3 := Int(c.iotype) + (Int(c.atttype) + (Offset(c.len) + (Offset(c.atttypeLen) + t2)));
    ghost var t4 := [Packet(MpiChar, c.name + [0])] + t3;
    var ncid, varid, namelen, name, iotype, atttype, attlen, atttypeLen, memtype, memtypeLen;
    ncid, r := RecvInt(s, MpiInt, c.ncid, Int(c.varid) + (Int(|c.name|) + t4));
    varid, r := RecvInt(r, MpiInt, c.varid, Int(|c.name|) + t4);
    namelen, r := RecvInt(r, MpiInt, |c.name|, t4);
    name, r := Recv(r, MpiChar, namelen + 1, c.name + [0], t3);
    iotype, r := RecvInt(r, MpiInt, c.iotype, Int(c.atttype) + (Offset(c.len) + (Offset(c.atttypeLen) + t2)));
    atttype, r := RecvInt(r, MpiInt, c.atttype, Offset(c.len) + (Offset(c.atttypeLen) + t2));
    attlen, r := RecvInt(r, MpiOffset, c.len, Offset(c.atttypeLen) + t2);
    atttypeLen, r := RecvInt(r, MpiOffset, c.atttypeLen, t2);
    memtype, r := RecvInt(r, MpiInt, c.memtype, Offset(c.memtypeLen) + rest);
    memtypeLen, r := RecvInt(r, MpiOffset, c.memtypeLen, rest);
    StringRead(c.name);
    d := GetAtt(ncid, varid, CString(name), iotype, atttype, attlen, atttypeLen, memtype, memtypeLen);
  }

  method WriteDarrayMultiHandler(sizes: map<int, nat>, s: seq<Packet>, ghost c: Call, ghost rest: seq<Packet>)
    returns (d: Call, r: seq<Packet>)
    requires c.WriteDarrayMulti? && Arrives(sizes, c, s, rest)
    ensures d == Received(sizes, c) && r == rest
  {
    ghost var sent := c.data[..c.arraylen * sizes[c.ioid]];
    ghost var t1 := Int(if c.flushtodisk then 1 else 0) + rest;
    ghost var t2 := Optional(MpiChar, c.fillvalue, t1);
    ghost var t3 := Optional(MpiInt, c.frame, t2);
    ghost var t4 := Int(c.ioid) + (Offset(c.arraylen) + ([Packet(MpiChar, sent)] + t3));
    var ncid, nvars, varids, ioid, arraylen, data, framep, fillvaluep, flushtodisk;
    ncid, r := RecvInt(s, MpiInt, c.ncid, Int(|c.varids|) + ([Packet(MpiInt, c.varids)] + t4));
    nvars, r := RecvInt(r, MpiInt, |c.varids|, [Packet(MpiInt, c.varids)] + t4);
    varids, r := Recv(r, MpiInt, nvars, c.varids, t4);
    ioid, r := RecvInt(r, MpiInt, c.ioid, Offset(c.arraylen) + ([Packet(MpiChar, sent)] + t3));
    arraylen, r := RecvInt(r, MpiOffset, c.arraylen, [Packet(MpiChar, sent)] + t3);
    data, r := Recv(r, MpiChar, arraylen * sizes[ioid], sent, t3);
    framep, r := RecvOptional(r, MpiInt, nvars, c.frame, t2);
    fillvaluep, r := RecvOptional(r, MpiChar, nvars * sizes[ioid], c.fillvalue, t1);
    flushtodisk, r := RecvInt(r, MpiInt, if c.flushtodisk then 1 else 0, rest);
    d := WriteDarrayMulti(ncid, varids, ioid, arraylen, data, framep, fillvaluep, flushtodisk != 0);
  }

  method ReadDarrayHandler(sizes: map<int, nat>, s: seq<Packet>, ghost c: Call, ghost rest: seq<Packet>)
    returns (d: Call, r: seq<Packet>)
    requires c.ReadDarray? && Arrives(sizes, c, s, rest)
    ensures d == Received(sizes, c) && r == rest
  {
    var ncid, varid, ioid, arraylen;
    ncid, r := RecvInt(s, MpiInt, c.ncid, Int(c.varid) + (Int(c.ioid) + (Offset(c.arraylen) + rest)));
    varid, r := RecvInt(r, MpiInt, c.varid, Int(c.ioid) + (Offset(c.arraylen) + rest));
    ioid, r := RecvInt(r, MpiInt, c.ioid, Offset(c.arraylen) + rest);
    arraylen, r := RecvInt(r, MpiOffset, c.arraylen, rest);
    d := ReadDarray(ncid, varid, ioid, arraylen);
  }

  // The stubs send packet by packet. `todo` is what the call still has to send, and `rest` what is left after.

  method Bcast(sent: seq<Packet>, kind: Kind, data: seq<int>, ghost todo: seq<Packet>, ghost rest: seq<Packet>)
    returns (r: seq<Packet>)
    requires todo == [Packet(kind, data)] + rest
    ensures r + rest == sent + todo
  {
    r := sent + [Packet(kind, data)];
    assert r + rest == sent + ([Packet(kind, data)] + rest);
  }

  method BcastOptional(
    sent: seq<Packet>, kind: Kind, data: Option<seq<int>>, ghost todo: seq<Packet>, ghost rest: seq<Packet>)
    returns (r: seq<Packet>)
    requires todo == Optional(kind, data, rest)
    ensures r + rest == sent + todo
  {
    var present := if data.Some? then 1 else 0;
    ghost var next := if data.Some? then [Packet(kind, data.value)] + rest else rest;
    r := Bcast(sent, MpiChar, [present], todo, next);
    if present != 0 {
      r := Bcast(r, kind, data.value, next, rest);
    }
  }

  /** The number of elements is multiplied up dimension by dimension. */
  method CountElements(count: Option<seq<int>>) returns (numElem: int)
    ensures numElem == NumElem(count)
  {
    numElem := 1;
    if count.Some? {
      for vd := 0 to |count.value|
        invariant numElem == ProductOf(count.value[..vd])
      {
        assert count.value[..vd + 1][..vd] == count.value[..vd];
        numElem := numElem * count.value[vd];
      }
      assert count.value[..|count.value|] == count.value;
    }
  }

  method SendVars(sizes: map<int, nat>, c: Call, sent: seq<Packet>, ghost rest: seq<Packet>) returns (r: seq<Packet>)
    requires (c.PutVars? || c.GetVars?) && Legal(sizes, c)
    ensures r + rest == sent + Encode(sizes, c, rest)
  {
    var numElem := CountElements(c.count);
    ghost var t1 := if c.PutVars? then [Packet(MpiByte, c.buf)] + rest else rest;
    ghost var t2 := Int(c.xtype) + (Offset(numElem) + (Offset(c.typelen) + t1));
    ghost var t3 := Optional(MpiOffset, c.stride, t2);
    ghost var t4 := Optional(MpiOffset, c.count, t3);
    ghost var t5 := Optional(MpiOffset, c.start, t4);
    r := Bcast(sent, MpiInt, [c.ncid], Encode(sizes, c, rest), Int(c.varid) + (Int(c.ndims) + t5));
    r := Bcast(r, MpiInt, [c.varid], Int(c.varid) + (Int(c.ndims) + t5), Int(c.ndims) + t5);
    r := Bcast(r, MpiInt, [c.ndims], Int(c.ndims) + t5, t5);
    r := BcastOptional(r, MpiOffset, c.start, t5, t4);
    r := BcastOptional(r, MpiOffset, c.count, t4, t3);
    r := BcastOptional(r, MpiOffset, c.stride, t3, t2);
    r := Bcast(r, MpiInt, [c.xtype], t2, Offset(numElem) + (Offset(c.typelen) + t1));
    r := Bcast(r, MpiOffset, [numElem], Offset(numElem) + (Offset(c.typelen) + t1), Offset(c.typelen) + t1);
    r := Bcast(r, MpiOffset, [c.typelen], Offset(c.typelen) + t1, t1);
    if c.PutVars? {
      assert c.buf[..numElem * c.typelen] == c.buf;
      r := Bcast(r, MpiByte, c.buf[..numElem * c.typelen], t1, rest);
    }
  }

  method SendPutAtt(sizes: map<int, nat>, c: Call, sent: seq<Packet>, ghost rest: seq<Packet>) returns (r: seq<Packet>)
    requires c.PutAtt? && Legal(sizes, c)
    ensures r + rest == sent + Encode(sizes, c, rest)
  {
    ghost var t1 := [Packet(MpiByte, c.op)] + rest;
    ghost var t2 := Int(c.memtype) + (Offset(c.memtypeLen) + t1);
    ghost var t3 := Int(c.atttype) + (Offset(c.len) + (Offset(c.atttypeLen) + t2));
    ghost var t4 := [Packet(MpiChar, c.name + [0])] + t3;
    ghost var t5 := Int(c.varid) + (Int(|c.name|) + t4);
    r := Bcast(sent, MpiInt, [c.ncid], Encode(sizes, c, rest), t5);
    r := Bcast(r, MpiInt, [c.varid], t5, Int(|c.name|) + t4);
    var namelen := |c.name|;
    r := Bcast(r, MpiInt, [namelen], Int(|c.name|) + t4, t4);
    r := Bcast(r, MpiChar, c.name + [0], t4, t3);
    r := Bcast(r, MpiInt, [c.atttype], t3, Offset(c.len) + (Offset(c.atttypeLen) + t2));
    r := Bcast(r, MpiOffset, [c.len], Offset(c.len) + (Offset(c.atttypeLen) + t2), Offset(c.atttypeLen) + t2);
    r := Bcast(r, MpiOffset, [c.atttypeLen], Offset(c.atttypeLen) + t2, t2);
    r := Bcast(r, MpiInt, [c.memtype], t2, Offset(c.memtypeLen) + t1);
    r := Bcast(r, MpiOffset, [c.memtypeLen], Offset(c.memtypeLen) + t1, t1);
    r := Bcast(r, MpiByte, c.op, t1, rest);
  }

  method SendGetAtt(sizes: map<int, nat>, c: Call, sent: seq<Packet>, ghost rest: seq<Packet>) returns (r: seq<Packet>)
    requires c.GetAtt? && Legal(sizes, c)
    ensures r + rest == sent + Encode(sizes, c, rest)
  {
    ghost var t2 := Int(c.memtype) + (Offset(c.memtypeLen) + rest);
    ghost var t3 := Int(c.atttype) + (Offset(c.len) + (Offset(c.atttypeLen) + t2));
    ghost var t4 := [Packet(MpiChar, c.name + [0])] + (Int(c.iotype) + t3);
    ghost var t5 := Int(c.varid) + (Int(|c.name|) + t4);
    r := Bcast(sent, MpiInt, [c.ncid], Encode(sizes, c, rest), t5);
    r := Bcast(r, MpiInt, [c.varid], t5, Int(|c.name|) + t4);
    var namelen := |c.name|;
    r := Bcast(r, MpiInt, [namelen], Int(|c.name|) + t4, t4);
    r := Bcast(r, MpiChar, c.name + [0], t4, Int(c.iotype) + t3);
    r := Bcast(r, MpiInt, [c.iotype], Int(c.iotype) + t3, t3);
    r := Bcast(r, MpiInt, [c.atttype], t3, Offset(c.len) + (Offset(c.atttypeLen) + t2));
    r := Bcast(r, MpiOffset, [c.len], Offset(c.len) + (Offset(c.atttypeLen) + t2), Offset(c.atttypeLen) + t2);
    r := Bcast(r, MpiOffset, [c.atttypeLen], Offset(c.atttypeLen) + t2, t2);
    r := Bcast(r, MpiInt, [c.memtype], t2, Offset(c.memtypeLen) + rest);
    r := Bcast(r, MpiOffset, [c.memtypeLen], Offset(c.memtypeLen) + rest, rest);
  }

  method SendWriteDarrayMulti(sizes: map<int, nat>, c: Call, sent: seq<Packet>, ghost rest: seq<Packet>)
    returns (r: seq<Packet>)
    requires c.WriteDarrayMulti? && Legal(sizes, c)
    ensures r + rest == sent + Encode(sizes, c, rest)
  {
    var flushtodisk := if c.flushtodisk then 1 else 0;
    var part := c.data[..c.arraylen * sizes[c.ioid]];
    ghost var t1 := Int(flushtodisk) + rest;
    ghost var t2 := Optional(MpiChar, c.fillvalue, t1);
    ghost var t3 := Optional(MpiInt, c.frame, t2);
    ghost var t4 := Int(c.ioid) + (Offset(c.arraylen) + ([Packet(MpiChar, part)] + t3));
    ghost var t5 := Int(|c.varids|) + ([Packet(MpiInt, c.varids)] + t4);
    r := Bcast(sent, MpiInt, [c.ncid], Encode(sizes, c, rest), t5);
    r := Bcast(r, MpiInt, [|c.varids|], t5, [Packet(MpiInt, c.varids)] + t4);
    r := Bcast(r, MpiInt, c.varids, [Packet(MpiInt, c.varids)] + t4, t4);
    r := Bcast(r, MpiInt, [c.ioid], t4, Offset(c.arraylen) + ([Packet(MpiChar, part)] + t3));
    r := Bcast(r, MpiOffset, [c.arraylen], Offset(c.arraylen) + ([Packet(MpiChar, part)] + t3),
               [Packet(MpiChar, part)] + t3);
    r := Bcast(r, MpiChar, part, [Packet(MpiChar, part)] + t3, t3);
    r := BcastOptional(r, MpiInt, c.frame, t3, t2);
    r := BcastOptional(r, MpiChar, c.fillvalue, t2, t1);
    r := Bcast(r, MpiInt, [flushtodisk], t1, rest);
  }

  method SendReadDarray(sizes: map<int, nat>, c: Call, sent: seq<Packet>, ghost rest: seq<Packet>)
    returns (r: seq<Packet>)
    requires c.ReadDarray?
    ensures r + rest == sent + Encode(sizes, c, rest)
  {
    ghost var t1 := Int(c.ioid) + (Offset(c.arraylen) + rest);
    r := Bcast(sent, MpiInt, [c.ncid], Encode(sizes, c, rest), Int(c.varid) + t1);
    r := Bcast(r, MpiInt, [c.varid], Int(c.varid) + t1, t1);
    r := Bcast(r, MpiInt, [c.ioid], t1, Offset(c.arraylen) + rest);
    r := Bcast(r, MpiOffset, [c.arraylen], Offset(c.arraylen) + rest, rest);
  }

  // Any number of calls.

  datatype Code = MsgPutVars | MsgGetVars | MsgPutAtt | MsgGetAtt | MsgWriteDarrayMulti | MsgReadDarray

  function CodeOf(c: Call): Code {
    match c
    case PutVars(_, _, _, _, _, _, _, _, _) => MsgPutVars
    case GetVars(_, _, _, _, _, _, _, _) => MsgGetVars
    case PutAtt(_, _, _, _, _, _, _, _, _) => MsgPutAtt
    case GetAtt(_, _, _, _, _, _, _, _, _) => MsgGetAtt
    case WriteDarrayMulti(_, _, _, _, _, _, _, _) => MsgWriteDarrayMulti
    case ReadDarray(_, _, _, _) => MsgReadDarray
  }

  ghost predicate AllLegal(sizes: map<int, nat>, calls: seq<Call>) {
    forall i :: 0 <= i < |calls| ==> Legal(sizes, calls[i])
  }

  ghost function EncodeAll(sizes: map<int, nat>, calls: seq<Call>): seq<Packet>
    requires AllLegal(sizes, calls)
  {
    if calls == [] then [] else Encode(sizes, calls[0], EncodeAll(sizes, calls[1..]))
  }

  lemma EncodeNext(sizes: map<int, nat>, calls: seq<Call>, k: nat)
    requires AllLegal(sizes, calls) && k < |calls|
    ensures EncodeAll(sizes, calls[k..]) == Encode(sizes, calls[k], EncodeAll(sizes, calls[k + 1..]))
  {
    assert calls[k..][1..] == calls[k + 1..] && calls[k..][0] == calls[k];
  }

  ghost predicate CodesOf(calls: seq<Call>, codes: seq<Code>, n: nat)
    requires n <= |calls|
  {
    |codes| == n && forall i :: 0 <= i < n ==> codes[i] == CodeOf(calls[i])
  }

  /** The call selects the stub. */
  method SendOne(sizes: map<int, nat>, c: Call, sent: seq<Packet>, ghost rest: seq<Packet>) returns (r: seq<Packet>)
    requires Legal(sizes, c)
    ensures r + rest == sent + Encode(sizes, c, rest)
  {
    match c
    case PutVars(_, _, _, _, _, _, _, _, _) => r := SendVars(sizes, c, sent, rest);
    case GetVars(_, _, _, _, _, _, _, _) => r := SendVars(sizes, c, sent, rest);
    case PutAtt(_, _, _, _, _, _, _, _, _) => r := SendPutAtt(sizes, c, sent, rest);
    case GetAtt(_, _, _, _, _, _, _, _, _) => r := SendGetAtt(sizes, c, sent, rest);
    case WriteDarrayMulti(_, _, _, _, _, _, _, _) => r := SendWriteDarrayMulti(sizes, c, sent, rest);
    case ReadDarray(_, _, _, _) => r := SendReadDarray(sizes, c, sent, rest);
  }

  /** What is left to send from call `k` on. */
  ghost predicate LeftToSend(sizes: map<int, nat>, calls: seq<Call>, k: nat, todo: seq<Packet>)
    requires AllLegal(sizes, calls) && k <= |calls|
  {
    todo == EncodeAll(sizes, calls[k..])
  }

  method SendNext(sizes: map<int, nat>, calls: seq<Call>, k: nat, sent: seq<Packet>, ghost todo: seq<Packet>)
    returns (r: seq<Packet>, ghost todo': seq<Packet>)
    requires AllLegal(sizes, calls) && k < |calls| && LeftToSend(sizes, calls, k, todo)
    ensures LeftToSend(sizes, calls, k + 1, todo') && r + todo' == sent + todo
  {
    EncodeNext(sizes, calls, k);
    todo' := EncodeAll(sizes, calls[k + 1..]);
    r := SendOne(sizes, calls[k], sent, todo');
  }

  lemma WhatIsLeft(sizes: map<int, nat>, calls: seq<Call>)
    requires AllLegal(sizes, calls)
    ensures LeftToSend(sizes, calls, 0, EncodeAll(sizes, calls))
    ensures forall todo :: LeftToSend(sizes, calls, |calls|, todo) ==> todo == []
  {
    assert calls[0..] == calls;
  }

  /** The client: for every call its message code and its packets. */
  method SendAll(sizes: map<int, nat>, calls: seq<Call>) returns (codes: seq<Code>, packets: seq<Packet>)
    requires AllLegal(sizes, calls)
    ensures packets == EncodeAll(sizes, calls) && CodesOf(calls, codes, |calls|)
  {
    WhatIsLeft(sizes, calls);
    codes, packets := [], [];
    ghost var todo := EncodeAll(sizes, calls);
    for k := 0 to |calls|
      invariant LeftToSend(sizes, calls, k, todo) && packets + todo == EncodeAll(sizes, calls)
      invariant CodesOf(calls, codes, k)
    {
      codes := codes + [CodeOf(calls[k])];
      packets, todo := SendNext(sizes, calls, k, packets, todo);
    }
  }

  /** The message code selects the handler. */
  method Dispatch(sizes: map<int, nat>, code: Code, s: seq<Packet>, ghost c: Call, ghost rest: seq<Packet>)
    returns (d: Call, r: seq<Packet>)
    requires code == CodeOf(c) && Arrives(sizes, c, s, rest)
    ensures d == Received(sizes, c) && r == rest
  {
    match code
    case MsgPutVars => d, r := PutVarsHandler(sizes, s, c, rest);
    case MsgGetVars => d, r := GetVarsHandler(sizes, s, c, rest);
    case MsgPutAtt => d, r := AttPutHandler(sizes, s, c, rest);
    case MsgGetAtt => d, r := AttGetHandler(sizes, s, c, rest);
    case MsgWriteDarrayMulti => d, r := WriteDarrayMultiHandler(sizes, s, c, rest);
    case MsgReadDarray => d, r := ReadDarrayHandler(sizes, s, c, rest);
  }

  lemma NextArrives(sizes: map<int, nat>, calls: seq<Call>, k: nat)
    requires AllLegal(sizes, calls) && k < |calls|
    ensures Arrives(sizes, calls[k], EncodeAll(sizes, calls[k..]), EncodeAll(sizes, calls[k + 1..]))
  {
    EncodeNext(sizes, calls, k);
  }

  ghost predicate AllReceived(sizes: map<int, nat>, calls: seq<Call>, handled: seq<Call>, n: nat)
    requires AllLegal(sizes, calls) && n <= |calls|
  {
    |handled| == n && forall i :: 0 <= i < n ==> handled[i] == Received(sizes, calls[i])
  }

  /** The server: every handler finds its parameters, and nothing is left over. */
  method HandleAll(sizes: map<int, nat>, codes: seq<Code>, packets: seq<Packet>, ghost calls: seq<Call>)
    returns (handled: seq<Call>, left: seq<Packet>)
    requires AllLegal(sizes, calls) && packets == EncodeAll(sizes, calls)
    requires CodesOf(calls, codes, |calls|)
    ensures AllReceived(sizes, calls, handled, |calls|) && left == []
  {
    handled, left := [], packets;
    for k := 0 to |codes|
      invariant AllReceived(sizes, calls, handled, k)
      invariant left == EncodeAll(sizes, calls[k..])
    {
      NextArrives(sizes, calls, k);
      var d;
      d, left := Dispatch(sizes, codes[k], left, calls[k], EncodeAll(sizes, calls[k + 1..]));
      handled := handled + [d];
    }
  }
}

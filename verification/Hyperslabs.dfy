/**
 * N-dimensional boxes given by start and count, in row-major order, and the file as a
 * map from (variable, index) to value. The element type plays no role; it is `int` here.
 */
module Hyperslabs {
  type Value = int
  type Index = seq<int>
  type Key = (int, Index)
  type FileData = map<Key, Value>

  function Product(s: seq<nat>): nat {
    if s == [] then 1 else s[0] * Product(s[1..])
  }

  ghost predicate InBox(idx: Index, start: seq<int>, count: seq<nat>) {
    |idx| == |start| == |count| &&
    forall d :: 0 <= d < |idx| ==> start[d] <= idx[d] < start[d] + count[d]
  }

  function Prefixed(x: int, rest: seq<Index>): (r: seq<Index>)
    ensures |r| == |rest|
  {
    seq(|rest|, i requires 0 <= i < |rest| => [x] + rest[i])
  }

  /** `n` copies of `rest`, prefixed by `first`, `first + 1`, and so on. */
  function Slabs(first: int, n: nat, rest: seq<Index>): seq<Index>
    decreases n
  {
    if n == 0 then [] else Prefixed(first, rest) + Slabs(first + 1, n - 1, rest)
  }

  /** The indices of a box in row-major order: the last dimension varies fastest. */
  function Indices(start: seq<int>, count: seq<nat>): seq<Index>
    requires |start| == |count|
  {
    if count == [] then [[]] else Slabs(start[0], count[0], Indices(start[1..], count[1..]))
  }

  lemma {:induction false} SlabsLength(first: int, n: nat, rest: seq<Index>)
    ensures |Slabs(first, n, rest)| == n * |rest|
    decreases n
  {
    if n == 0 {
    } else {
      SlabsLength(first + 1, n - 1, rest);
      assert n * |rest| == |rest| + (n - 1) * |rest|;
    }
  }

  lemma {:induction false} IndicesLength(start: seq<int>, count: seq<nat>)
    requires |start| == |count|
    ensures |Indices(start, count)| == Product(count)
  {
    if count == [] {
    } else {
      IndicesLength(start[1..], count[1..]);
      SlabsLength(start[0], count[0], Indices(start[1..], count[1..]));
    }
  }

  lemma SlabPosition(j: nat, n: nat, width: nat, k: nat)
    requires j < n && k < width
    ensures 0 <= j * width + k < n * width
  {
    assert n * width == j * width + width + (n - j - 1) * width;
  }

  /** Slab `j` holds `rest`, prefixed by `first + j`. */
  lemma {:induction false} SlabsAt(first: int, n: nat, rest: seq<Index>, j: nat, k: nat)
    requires j < n && k < |rest|
    ensures 0 <= j * |rest| + k < n * |rest|
    ensures |Slabs(first, n, rest)| == n * |rest|
    ensures Slabs(first, n, rest)[j * |rest| + k] == [first + j] + rest[k]
    decreases n
  {
    SlabsLength(first, n, rest);
    SlabPosition(j, n, |rest|, k);
    if j == 0 {
    } else {
      SlabsAt(first + 1, n - 1, rest, j - 1, k);
      SlabsLength(first + 1, n - 1, rest);
      assert j * |rest| + k == |rest| + ((j - 1) * |rest| + k);
    }
  }

  /** Every position lies in some slab. */
  lemma {:induction false} SlabsSource(first: int, n: nat, rest: seq<Index>, p: nat) returns (j: nat, k: nat)
    requires p < |Slabs(first, n, rest)|
    ensures j < n && k < |rest| && p == j * |rest| + k
    ensures Slabs(first, n, rest)[p] == [first + j] + rest[k]
    decreases n
  {
    if p < |rest| {
      j, k := 0, p;
    } else {
      j, k := SlabsSource(first + 1, n - 1, rest, p - |rest|);
      j := j + 1;
      assert j * |rest| + k == |rest| + ((j - 1) * |rest| + k);
    }
  }

  lemma BoxTail(idx: Index, start: seq<int>, count: seq<nat>)
    requires |idx| == |start| == |count| > 0
    ensures InBox(idx, start, count) <==>
      start[0] <= idx[0] < start[0] + count[0] && InBox(idx[1..], start[1..], count[1..])
  {
    if InBox(idx[1..], start[1..], count[1..]) {
      assert forall d :: 1 <= d < |idx| ==> idx[d] == idx[1..][d - 1];
    }
  }

  /** The enumeration of a box lists exactly the indices inside the box. */
  lemma {:induction false} IndicesAreBox(start: seq<int>, count: seq<nat>, idx: Index)
    requires |start| == |count|
    ensures idx in Indices(start, count) <==> InBox(idx, start, count)
    decreases |count|, 1
  {
    if count == [] {
      assert Indices(start, count) == [[]];
    } else {
      if idx in Indices(start, count) {
        ListedInBox(start, count, idx);
      }
      if InBox(idx, start, count) {
        BoxListed(start, count, idx);
      }
    }
  }

  lemma {:induction false} ListedInBox(start: seq<int>, count: seq<nat>, idx: Index)
    requires |start| == |count| > 0 && idx in Indices(start, count)
    ensures InBox(idx, start, count)
    decreases |count|, 0
  {
    var rest := Indices(start[1..], count[1..]);
    var p :| 0 <= p < |Indices(start, count)| && Indices(start, count)[p] == idx;
    var j, k := SlabsSource(start[0], count[0], rest, p);
    assert idx[1..] == rest[k];
    IndicesAreBox(start[1..], count[1..], idx[1..]);
    BoxTail(idx, start, count);
  }

  lemma {:induction false} BoxListed(start: seq<int>, count: seq<nat>, idx: Index)
    requires |start| == |count| > 0 && InBox(idx, start, count)
    ensures idx in Indices(start, count)
    decreases |count|, 0
  {
    var rest := Indices(start[1..], count[1..]);
    BoxTail(idx, start, count);
    IndicesAreBox(start[1..], count[1..], idx[1..]);
    var k :| 0 <= k < |rest| && rest[k] == idx[1..];
    SlabsAt(start[0], count[0], rest, idx[0] - start[0], k);
    assert idx == [idx[0]] + idx[1..];
  }

  ghost predicate Distinct<T>(s: seq<T>) {
    forall i, j :: 0 <= i < j < |s| ==> s[i] != s[j]
  }

  lemma {:induction false} IndicesDistinct(start: seq<int>, count: seq<nat>)
    requires |start| == |count|
    ensures Distinct(Indices(start, count))
  {
    if count == [] {
    } else {
      var rest := Indices(start[1..], count[1..]);
      IndicesDistinct(start[1..], count[1..]);
      var all := Indices(start, count);
      forall p, q | 0 <= p < q < |all| ensures all[p] != all[q] {
        var j, k := SlabsSource(start[0], count[0], rest, p);
        var j', k' := SlabsSource(start[0], count[0], rest, q);
        assert all[p][1..] == rest[k] && all[q][1..] == rest[k'];
        if j == j' {
          assert rest[k] != rest[k'];
        } else {
          assert all[p][0] != all[q][0];
        }
      }
    }
  }

  /** Row-major position of an index in a box. */
  function Rank(idx: Index, start: seq<int>, count: seq<nat>): int
    requires |idx| == |start| == |count|
  {
    if idx == [] then 0 else (idx[0] - start[0]) * Product(count[1..]) + Rank(idx[1..], start[1..], count[1..])
  }

  /** The enumeration of a box is in row-major order. */
  lemma {:induction false} IndicesRowMajor(start: seq<int>, count: seq<nat>, p: nat)
    requires |start| == |count| && p < Product(count)
    ensures p < |Indices(start, count)| && |Indices(start, count)[p]| == |start|
    ensures Rank(Indices(start, count)[p], start, count) == p
  {
    IndicesLength(start, count);
    if count == [] {
    } else {
      var rest := Indices(start[1..], count[1..]);
      IndicesLength(start[1..], count[1..]);
      var j, k := SlabsSource(start[0], count[0], rest, p);
      IndicesRowMajor(start[1..], count[1..], k);
      var idx := Indices(start, count)[p];
      assert idx[0] == start[0] + j && idx[1..] == rest[k];
    }
  }

  /** A box with one more dimension of length 1 in front. */
  lemma IndicesInFront(x: int, start: seq<int>, count: seq<nat>, p: nat)
    requires |start| == |count| && p < |Indices(start, count)|
    ensures |Indices([x] + start, [1] + count)| == |Indices(start, count)|
    ensures Indices([x] + start, [1] + count)[p] == [x] + Indices(start, count)[p]
  {
    var rest := Indices(start, count);
    assert ([x] + start)[1..] == start && ([1] + count)[1..] == count;
    SlabsAt(x, 1, rest, 0, p);
  }

  /** A box moved along its first dimension. */
  lemma IndicesMoved(start: seq<int>, count: seq<nat>, d: int, p: nat)
    requires |start| == |count| > 0 && p < |Indices(start, count)|
    ensures |Indices(start[0 := start[0] + d], count)| == |Indices(start, count)| && |Indices(start, count)[p]| > 0
    ensures Indices(start[0 := start[0] + d], count)[p] ==
      Indices(start, count)[p][0 := Indices(start, count)[p][0] + d]
  {
    var rest := Indices(start[1..], count[1..]);
    assert start[0 := start[0] + d][1..] == start[1..];
    var j, k := SlabsSource(start[0], count[0], rest, p);
    SlabsAt(start[0] + d, count[0], rest, j, k);
    SlabsLength(start[0], count[0], rest);
  }

  /** One `nc_put_vara`: `data` is written to the box in row-major order. */
  datatype Put = Put(varid: int, start: seq<int>, count: seq<nat>, data: seq<Value>)

  predicate ValidPut(p: Put) {
    |p.start| == |p.count| && |p.data| == Product(p.count)
  }

  function Assign(varid: int, idxs: seq<Index>, data: seq<Value>): (r: FileData)
    requires Distinct(idxs) && |idxs| == |data|
    ensures forall i :: 0 <= i < |idxs| ==> (varid, idxs[i]) in r && r[(varid, idxs[i])] == data[i]
    ensures forall k :: k in r ==> k.0 == varid && k.1 in idxs
  {
    map i | 0 <= i < |idxs| :: (varid, idxs[i]) := data[i]
  }

  /** The values that a put gives to the keys of its box. */
  function Patch(p: Put): FileData
    requires ValidPut(p)
  {
    IndicesLength(p.start, p.count);
    IndicesDistinct(p.start, p.count);
    Assign(p.varid, Indices(p.start, p.count), p.data)
  }

  lemma PatchKeys(p: Put, k: Key)
    requires ValidPut(p)
    ensures k in Patch(p) <==> k.0 == p.varid && InBox(k.1, p.start, p.count)
  {
    IndicesAreBox(p.start, p.count, k.1);
    IndicesLength(p.start, p.count);
  }

  /** The file after a sequence of puts, in order. */
  ghost function ApplyAll(file: FileData, puts: seq<Put>): FileData
    requires forall p :: p in puts ==> ValidPut(p)
  {
    if puts == [] then file
    else ApplyAll(file, puts[..|puts| - 1]) + Patch(puts[|puts| - 1])
  }

  /** What `nc_get_vara` delivers; an index never written yields the fill value. */
  function Get(file: FileData, fill: Value, varid: int, start: seq<int>, count: seq<nat>): (r: seq<Value>)
    requires |start| == |count|
    ensures |r| == Product(count)
  {
    IndicesLength(start, count);
    var idxs := Indices(start, count);
    seq(|idxs|, i requires 0 <= i < |idxs| =>
      if (varid, idxs[i]) in file then file[(varid, idxs[i])] else fill)
  }

  ghost predicate DisjointPuts(p: Put, q: Put) {
    p.varid != q.varid || forall idx :: InBox(idx, p.start, p.count) ==> !InBox(idx, q.start, q.count)
  }

  /** No two puts of the sequence touch the same key, unless they are the same put. */
  ghost predicate Consistent(puts: seq<Put>) {
    (forall p :: p in puts ==> ValidPut(p)) &&
    forall p, q :: p in puts && q in puts && p != q ==> DisjointPuts(p, q)
  }

  /** A key covered by some put of a consistent sequence has that put's value in the end. */
  lemma {:induction false} ApplyAllCovered(file: FileData, puts: seq<Put>, p: Put, k: Key)
    requires Consistent(puts) && p in puts && k in Patch(p)
    ensures k in ApplyAll(file, puts) && ApplyAll(file, puts)[k] == Patch(p)[k]
  {
    var last := puts[|puts| - 1];
    PatchKeys(p, k);
    PatchKeys(last, k);
    if p == last {
    } else {
      assert p in puts[..|puts| - 1];
      ApplyAllCovered(file, puts[..|puts| - 1], p, k);
      assert DisjointPuts(p, last);
    }
  }

  lemma {:induction false} ApplyAllUncovered(file: FileData, puts: seq<Put>, k: Key)
    requires Consistent(puts)
    requires forall p :: p in puts ==> k !in Patch(p)
    ensures k in ApplyAll(file, puts) <==> k in file
    ensures k in file ==> ApplyAll(file, puts)[k] == file[k]
  {
    if puts == [] {
    } else {
      ApplyAllUncovered(file, puts[..|puts| - 1], k);
      assert puts[|puts| - 1] in puts;
    }
  }

  /** Puts to no index at all. */
  ghost predicate EmptyPut(p: Put) {
    Product(p.count) == 0
  }

  lemma EmptyPatch(p: Put)
    requires ValidPut(p)
    ensures Patch(p) == map[] <==> EmptyPut(p)
  {
    IndicesLength(p.start, p.count);
    var idxs := Indices(p.start, p.count);
    if Product(p.count) > 0 {
      assert (p.varid, idxs[0]) in Patch(p);
    }
  }

  /** Two sequences that issue the same non-empty puts, each in any order. */
  ghost predicate SamePuts(a: seq<Put>, b: seq<Put>) {
    (forall p :: p in a && !EmptyPut(p) ==> p in b) && (forall p :: p in b && !EmptyPut(p) ==> p in a)
  }

  /** The order in which disjoint puts reach the file does not matter. */
  lemma OrderIrrelevant(file: FileData, a: seq<Put>, b: seq<Put>)
    requires Consistent(a) && Consistent(b) && SamePuts(a, b)
    ensures ApplyAll(file, a) == ApplyAll(file, b)
  {
    forall k
      ensures k in ApplyAll(file, a) <==> k in ApplyAll(file, b)
      ensures k in ApplyAll(file, a) ==> ApplyAll(file, a)[k] == ApplyAll(file, b)[k]
    {
      if p :| p in a && k in Patch(p) {
        EmptyPatch(p);
        ApplyAllCovered(file, a, p, k);
        ApplyAllCovered(file, b, p, k);
      } else {
        forall q | q in b ensures k !in Patch(q) {
          EmptyPatch(q);
        }
        ApplyAllUncovered(file, a, k);
        ApplyAllUncovered(file, b, k);
      }
    }
  }

  lemma PatchAt(p: Put, i: nat)
    requires ValidPut(p) && i < Product(p.count)
    ensures i < |Indices(p.start, p.count)|
    ensures (p.varid, Indices(p.start, p.count)[i]) in Patch(p)
    ensures Patch(p)[(p.varid, Indices(p.start, p.count)[i])] == p.data[i]
  {
    IndicesLength(p.start, p.count);
  }

  lemma ApplyAllSnoc(file: FileData, puts: seq<Put>, p: Put)
    requires (forall q :: q in puts ==> ValidPut(q)) && ValidPut(p)
    ensures ApplyAll(file, puts + [p]) == ApplyAll(file, puts) + Patch(p)
  {
    assert (puts + [p])[..|puts|] == puts;
  }

  lemma {:induction false} ApplyAllAppend(file: FileData, a: seq<Put>, b: seq<Put>)
    requires forall q :: q in a || q in b ==> ValidPut(q)
    ensures ApplyAll(file, a + b) == ApplyAll(ApplyAll(file, a), b)
  {
    if b == [] {
      assert a + b == a;
    } else {
      var k := |b| - 1;
      ApplyAllAppend(file, a, b[..k]);
      ApplyAllSnoc(file, a + b[..k], b[k]);
      assert a + b == (a + b[..k]) + [b[k]];
    }
  }

  /** A netCDF file open for writing. */
  class NcFile {
    var data: FileData

    method PutVara(varid: int, start: seq<int>, count: seq<nat>, buf: seq<Value>)
      requires ValidPut(Put(varid, start, count, buf))
      modifies this
      ensures data == old(data) + Patch(Put(varid, start, count, buf))
    {
      data := data + Patch(Put(varid, start, count, buf));
    }
  }
}

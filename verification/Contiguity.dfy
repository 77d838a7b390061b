/**
 * The contiguity test of the "vard" code: whether the elements of a subarray are consecutive in
 * the row-major order of the whole array, and if so where the run starts and how long it is.
 */
module Contiguity {
  import opened Hyperslabs
  import opened Sequences

  /** A subarray of an array with dimensions `gdims`. */
  datatype Request = Request(start: seq<int>, count: seq<nat>)

  /** The subarray is not empty and lies inside the array. */
  ghost predicate InBounds(q: Request, gdims: seq<nat>) {
    |q.start| == |q.count| == |gdims| &&
    forall d :: 0 <= d < |gdims| ==> 0 <= q.start[d] && 0 < q.count[d] && q.start[d] + q.count[d] <= gdims[d]
  }

  /** Row-major position of an index. */
  function Flat(idx: Index, gdims: seq<nat>): int
    requires |idx| == |gdims|
  {
    if idx == [] then 0 else idx[0] * Product(gdims[1..]) + Flat(idx[1..], gdims[1..])
  }

  lemma {:induction false} IndexLength(start: seq<int>, count: seq<nat>, i: nat)
    requires |start| == |count| && i < |Indices(start, count)|
    ensures |Indices(start, count)[i]| == |start|
  {
    if count == [] {
    } else {
      var j, k := SlabsSource(start[0], count[0], Indices(start[1..], count[1..]), i);
      IndexLength(start[1..], count[1..], k);
    }
  }

  /** The positions of the subarray's elements, in the order of the subarray. */
  ghost function Offsets(q: Request, gdims: seq<nat>): (r: seq<int>)
    requires |q.start| == |q.count| == |gdims|
    ensures |r| == Product(q.count)
  {
    IndicesLength(q.start, q.count);
    assert forall i :: 0 <= i < |Indices(q.start, q.count)| ==> |Indices(q.start, q.count)[i]| == |gdims| by {
      forall i | 0 <= i < |Indices(q.start, q.count)| ensures |Indices(q.start, q.count)[i]| == |gdims| {
        IndexLength(q.start, q.count, i);
      }
    }
    seq(Product(q.count), i requires 0 <= i < Product(q.count) => Flat(Indices(q.start, q.count)[i], gdims))
  }

  /** Element `k` of a subarray: its index in the box, and the row-major position of that. */
  lemma OffsetAt(q: Request, gdims: seq<nat>, k: nat)
    requires |q.start| == |q.count| == |gdims| && k < Product(q.count)
    ensures k < |Indices(q.start, q.count)| && |Indices(q.start, q.count)[k]| == |gdims|
    ensures Offsets(q, gdims)[k] == Flat(Indices(q.start, q.count)[k], gdims)
  {
    IndicesLength(q.start, q.count);
    IndexLength(q.start, q.count, k);
  }

  ghost function Run(first: int, n: nat): (r: seq<int>)
    ensures |r| == n
  {
    seq(n, k => first + k)
  }

  /** The request without its slowest dimension. */
  function Inner(q: Request): Request
    requires |q.start| == |q.count| > 0
  {
    Request(q.start[1..], q.count[1..])
  }

  lemma FlatCons(x: int, rest: Index, gdims: seq<nat>)
    requires |rest| + 1 == |gdims|
    ensures Flat([x] + rest, gdims) == x * Product(gdims[1..]) + Flat(rest, gdims[1..])
  {
    assert ([x] + rest)[1..] == rest;
  }

  lemma IndexAt(q: Request, j: nat, k: nat)
    requires |q.start| == |q.count| > 0 && j < q.count[0] && k < Product(q.count[1..])
    ensures |Indices(q.start[1..], q.count[1..])| == Product(q.count[1..])
    ensures |Indices(q.start, q.count)| == Product(q.count)
    ensures 0 <= j * Product(q.count[1..]) + k < Product(q.count)
    ensures Indices(q.start, q.count)[j * Product(q.count[1..]) + k] ==
      [q.start[0] + j] + Indices(q.start[1..], q.count[1..])[k]
  {
    var rest := Indices(q.start[1..], q.count[1..]);
    IndicesLength(q.start[1..], q.count[1..]);
    IndicesLength(q.start, q.count);
    SlabsAt(q.start[0], q.count[0], rest, j, k);
  }

  /** Slab `j` of a subarray: the inner subarray, moved by whole slabs. */
  lemma OffsetsAt(q: Request, gdims: seq<nat>, j: nat, k: nat)
    requires |q.start| == |q.count| == |gdims| > 0
    requires j < q.count[0] && k < Product(q.count[1..])
    ensures 0 <= j * Product(q.count[1..]) + k < Product(q.count)
    ensures Offsets(q, gdims)[j * Product(q.count[1..]) + k] ==
      (q.start[0] + j) * Product(gdims[1..]) + Offsets(Inner(q), gdims[1..])[k]
  {
    var rest := Indices(q.start[1..], q.count[1..]);
    IndicesLength(q.start[1..], q.count[1..]);
    IndexAt(q, j, k);
    IndexLength(q.start[1..], q.count[1..], k);
    FlatCons(q.start[0] + j, rest[k], gdims);
  }

  /** The first slab. */
  lemma OffsetsFirst(q: Request, gdims: seq<nat>, k: nat)
    requires |q.start| == |q.count| == |gdims| > 0 && q.count[0] > 0 && k < Product(q.count[1..])
    ensures k < Product(q.count)
    ensures Offsets(q, gdims)[k] == q.start[0] * Product(gdims[1..]) + Offsets(Inner(q), gdims[1..])[k]
  {
    assert 0 * Product(q.count[1..]) + k == k;
    OffsetsAt(q, gdims, 0, k);
    assert (q.start[0] + 0) * Product(gdims[1..]) == q.start[0] * Product(gdims[1..]);
  }

  lemma OffsetsSource(q: Request, gdims: seq<nat>, p: nat) returns (j: nat, k: nat)
    requires |q.start| == |q.count| == |gdims| > 0 && p < Product(q.count)
    ensures j < q.count[0] && k < Product(q.count[1..]) && p == j * Product(q.count[1..]) + k
    ensures Offsets(q, gdims)[p] == (q.start[0] + j) * Product(gdims[1..]) + Offsets(Inner(q), gdims[1..])[k]
  {
    var rest := Indices(q.start[1..], q.count[1..]);
    IndicesLength(q.start, q.count);
    IndicesLength(q.start[1..], q.count[1..]);
    j, k := SlabsSource(q.start[0], q.count[0], rest, p);
    OffsetsAt(q, gdims, j, k);
  }

  lemma {:induction false} ProductPositive(s: seq<nat>)
    requires forall i :: 0 <= i < |s| ==> s[i] > 0
    ensures Product(s) > 0
  {
    if s == [] {
    } else {
      ProductPositive(s[1..]);
    }
  }

  /** One dimension more: a position inside the inner array becomes a position inside the outer one. */
  lemma OuterInRange(q: Request, gdims: seq<nat>, j: nat, t: int)
    requires InBounds(q, gdims) && gdims != [] && j < q.count[0]
    requires 0 <= t < Product(gdims[1..])
    ensures 0 <= (q.start[0] + j) * Product(gdims[1..]) + t < Product(gdims)
  {
    SlabPosition(q.start[0] + j, gdims[0], Product(gdims[1..]), t);
  }

  lemma InnerInBounds(q: Request, gdims: seq<nat>)
    requires InBounds(q, gdims) && gdims != []
    ensures InBounds(Inner(q), gdims[1..])
  {
  }

  /** Every element of a subarray lies inside the array. */
  lemma {:induction false} OffsetsInRange(q: Request, gdims: seq<nat>, p: nat)
    requires InBounds(q, gdims) && p < Product(q.count)
    ensures 0 <= Offsets(q, gdims)[p] < Product(gdims)
    decreases |gdims|
  {
    if gdims == [] {
      assert Indices(q.start, q.count) == [[]];
    } else {
      var j, k := OffsetsSource(q, gdims, p);
      InnerInBounds(q, gdims);
      OffsetsInRange(Inner(q), gdims[1..], k);
      OuterInRange(q, gdims, j, Offsets(Inner(q), gdims[1..])[k]);
    }
  }

  lemma SlabsApart(m: int, n: int, width: nat)
    requires m < n
    ensures n * width >= m * width + width
  {
    assert n * width == m * width + width + (n - m - 1) * width;
  }

  /** Slab number and position within the slab are determined by the flat position. */
  lemma SlabUnique(m: int, n: int, a: nat, b: nat, width: nat)
    requires a < width && b < width && m * width + a == n * width + b
    ensures m == n && a == b
  {
    if m < n {
      SlabsApart(m, n, width);
    } else if n < m {
      SlabsApart(n, m, width);
    }
  }

  /** Some position between two elements of the subarray is not an element. */
  ghost predicate HasGap(q: Request, gdims: seq<nat>)
    requires |q.start| == |q.count| == |gdims|
  {
    exists x, y, z :: x < y < z && x in Offsets(q, gdims) && z in Offsets(q, gdims) && y !in Offsets(q, gdims)
  }

  lemma RunHasNoGap(q: Request, gdims: seq<nat>, first: int, n: nat)
    requires |q.start| == |q.count| == |gdims| && Offsets(q, gdims) == Run(first, n)
    ensures !HasGap(q, gdims)
  {
    forall x, y, z | x < y < z && x in Offsets(q, gdims) && z in Offsets(q, gdims) ensures y in Offsets(q, gdims) {
      assert Run(first, n)[y - first] == y;
    }
  }

  /** The whole inner array, repeated over consecutive slabs, is a run. */
  lemma FullInnerRun(q: Request, gdims: seq<nat>)
    requires InBounds(q, gdims) && gdims != []
    requires Offsets(Inner(q), gdims[1..]) == Run(0, Product(gdims[1..])) && q.count[1..] == gdims[1..]
    ensures Offsets(q, gdims) == Run(q.start[0] * Product(gdims[1..]), Product(q.count))
  {
    var width := Product(gdims[1..]);
    forall p | 0 <= p < Product(q.count) ensures Offsets(q, gdims)[p] == q.start[0] * width + p {
      var j, k := OffsetsSource(q, gdims, p);
      assert (q.start[0] + j) * width == q.start[0] * width + j * width;
    }
  }

  /** One slab of a run is a run. */
  lemma SingleSlabRun(q: Request, gdims: seq<nat>, first: int, n: nat)
    requires InBounds(q, gdims) && gdims != [] && q.count[0] == 1
    requires Offsets(Inner(q), gdims[1..]) == Run(first, n)
    ensures Offsets(q, gdims) == Run(q.start[0] * Product(gdims[1..]) + first, n)
  {
    assert Product(q.count) == 1 * Product(q.count[1..]) == |Offsets(Inner(q), gdims[1..])| == n;
    forall p | 0 <= p < n ensures Offsets(q, gdims)[p] == q.start[0] * Product(gdims[1..]) + first + p {
      OffsetsFirst(q, gdims, p);
      assert Offsets(Inner(q), gdims[1..])[p] == first + p;
    }
  }

  lemma InnerPosition(q: Request, gdims: seq<nat>, j: nat, t: int)
    requires |q.start| == |q.count| == |gdims| > 0 && j < q.count[0]
    requires t in Offsets(Inner(q), gdims[1..])
    ensures (q.start[0] + j) * Product(gdims[1..]) + t in Offsets(q, gdims)
  {
    var k :| 0 <= k < Product(q.count[1..]) && Offsets(Inner(q), gdims[1..])[k] == t;
    OffsetsAt(q, gdims, j, k);
  }

  /** A position whose slab part is no element of the inner subarray is no element. */
  lemma NotAnElement(q: Request, gdims: seq<nat>, m: int, t: nat)
    requires InBounds(q, gdims) && gdims != [] && t < Product(gdims[1..])
    requires t !in Offsets(Inner(q), gdims[1..])
    ensures m * Product(gdims[1..]) + t !in Offsets(q, gdims)
  {
    if m * Product(gdims[1..]) + t in Offsets(q, gdims) {
      var p :| 0 <= p < Product(q.count) && Offsets(q, gdims)[p] == m * Product(gdims[1..]) + t;
      var j, k := OffsetsSource(q, gdims, p);
      assert InBounds(Inner(q), gdims[1..]);
      OffsetsInRange(Inner(q), gdims[1..], k);
      SlabUnique(q.start[0] + j, m, Offsets(Inner(q), gdims[1..])[k], t, Product(gdims[1..]));
    }
  }

  lemma GapMoves(q: Request, gdims: seq<nat>, x: int, y: int, z: int)
    requires InBounds(q, gdims) && gdims != [] && x < y < z
    requires x in Offsets(Inner(q), gdims[1..]) && z in Offsets(Inner(q), gdims[1..])
    requires 0 <= y < Product(gdims[1..]) && y !in Offsets(Inner(q), gdims[1..])
    ensures HasGap(q, gdims)
  {
    var at := q.start[0] * Product(gdims[1..]);
    InnerPosition(q, gdims, 0, x);
    InnerPosition(q, gdims, 0, z);
    NotAnElement(q, gdims, q.start[0], y);
    assert at + x < at + y < at + z;
  }

  lemma ElementInRange(q: Request, gdims: seq<nat>, x: int)
    requires InBounds(q, gdims) && x in Offsets(q, gdims)
    ensures 0 <= x < Product(gdims)
  {
    var i :| 0 <= i < |Offsets(q, gdims)| && Offsets(q, gdims)[i] == x;
    OffsetsInRange(q, gdims, i);
  }

  /** A gap stays a gap in the enclosing dimensions. */
  lemma GapExtends(q: Request, gdims: seq<nat>)
    requires InBounds(q, gdims) && gdims != [] && HasGap(Inner(q), gdims[1..])
    ensures HasGap(q, gdims)
  {
    var inner := Offsets(Inner(q), gdims[1..]);
    var x, y, z :| x < y < z && x in inner && z in inner && y !in inner;
    InnerInBounds(q, gdims);
    ElementInRange(Inner(q), gdims[1..], x);
    ElementInRange(Inner(q), gdims[1..], z);
    GapMoves(q, gdims, x, y, z);
  }

  lemma NextSlab(s: int, width: nat)
    ensures (s + 1) * width == s * width + width
  {
  }

  /** The position behind the run of the first slab. */
  lemma GapBetween(q: Request, gdims: seq<nat>, first: nat, n: nat)
    requires InBounds(q, gdims) && gdims != [] && 0 < n < Product(gdims[1..]) && first + n <= Product(gdims[1..])
    requires Offsets(Inner(q), gdims[1..]) == Run(first, n)
    ensures q.start[0] * Product(gdims[1..]) + first + n !in Offsets(q, gdims)
  {
    var s, width := q.start[0], Product(gdims[1..]);
    NextSlab(s, width);
    assert forall t :: t in Run(first, n) ==> first <= t < first + n;
    if first + n < width {
      NotAnElement(q, gdims, s, first + n);
    } else {
      NotAnElement(q, gdims, s + 1, first + n - width);
    }
  }

  lemma RunInRange(q: Request, gdims: seq<nat>, first: nat, n: nat)
    requires InBounds(q, gdims) && gdims != [] && 0 < n && Offsets(Inner(q), gdims[1..]) == Run(first, n)
    ensures first + n <= Product(gdims[1..])
  {
    InnerInBounds(q, gdims);
    OffsetsInRange(Inner(q), gdims[1..], n - 1);
  }

  /** The last element of the first slab. */
  lemma FirstSlabEnd(q: Request, gdims: seq<nat>, first: nat, n: nat)
    requires InBounds(q, gdims) && gdims != [] && 0 < n && Offsets(Inner(q), gdims[1..]) == Run(first, n)
    ensures q.start[0] * Product(gdims[1..]) + (first + n - 1) in Offsets(q, gdims)
  {
    assert Offsets(Inner(q), gdims[1..])[n - 1] == first + n - 1;
    InnerPosition(q, gdims, 0, first + n - 1);
  }

  /** The first element of the second slab. */
  lemma SecondSlabStart(q: Request, gdims: seq<nat>, first: nat, n: nat)
    requires InBounds(q, gdims) && gdims != [] && q.count[0] > 1 && 0 < n
    requires Offsets(Inner(q), gdims[1..]) == Run(first, n)
    ensures (q.start[0] + 1) * Product(gdims[1..]) + first in Offsets(q, gdims)
  {
    assert Offsets(Inner(q), gdims[1..])[0] == first;
    InnerPosition(q, gdims, 1, first);
  }

  /** Two or more slabs of an incomplete run leave a gap between the slabs. */
  lemma SlabsLeaveGap(q: Request, gdims: seq<nat>, first: nat, n: nat)
    requires InBounds(q, gdims) && gdims != [] && q.count[0] > 1
    requires 0 < n < Product(gdims[1..]) && Offsets(Inner(q), gdims[1..]) == Run(first, n)
    ensures HasGap(q, gdims)
  {
    RunInRange(q, gdims, first, n);
    FirstSlabEnd(q, gdims, first, n);
    SecondSlabStart(q, gdims, first, n);
    GapBetween(q, gdims, first, n);
    NextSlab(q.start[0], Product(gdims[1..]));
  }

  /** The dimensions from `i` on. */
  function From(q: Request, i: nat): Request
    requires i <= |q.start| == |q.count|
  {
    Request(q.start[i..], q.count[i..])
  }

  /** What the loop has found out about the dimensions from `i` on while the request still looks contiguous. */
  ghost predicate ContiguousSoFar(
    q: Request, gdims: seq<nat>, size: nat, i: nat, blocklen: nat, disp: int, shape: nat, warn: bool)
    requires InBounds(q, gdims) && i <= |gdims|
  {
    blocklen == Product(q.count[i..]) && shape == size * Product(gdims[i..]) &&
    disp == size * Flat(q.start[i..], gdims[i..]) &&
    Offsets(From(q, i), gdims[i..]) == Run(Flat(q.start[i..], gdims[i..]), blocklen) &&
    0 <= Flat(q.start[i..], gdims[i..]) && 0 < blocklen <= Product(gdims[i..]) &&
    (!warn ==> q.count[i..] == gdims[i..] && Flat(q.start[i..], gdims[i..]) == 0) &&
    (warn ==> blocklen < Product(gdims[i..]))
  }

  lemma SuffixStep(s: seq<nat>, i: nat)
    requires 0 < i <= |s|
    ensures s[i - 1..] == [s[i - 1]] + s[i..] && s[i - 1..][1..] == s[i..]
    ensures Product(s[i - 1..]) == s[i - 1] * Product(s[i..])
  {
    assert s[i - 1..][1..] == s[i..];
  }

  lemma SuffixInBounds(q: Request, gdims: seq<nat>, i: nat)
    requires InBounds(q, gdims) && i <= |gdims|
    ensures InBounds(From(q, i), gdims[i..])
  {
  }

  lemma FlatStep(q: Request, gdims: seq<nat>, i: nat)
    requires InBounds(q, gdims) && 0 < i <= |gdims|
    ensures Inner(From(q, i - 1)) == From(q, i) && gdims[i - 1..][1..] == gdims[i..]
    ensures Flat(q.start[i - 1..], gdims[i - 1..]) ==
      q.start[i - 1] * Product(gdims[i..]) + Flat(q.start[i..], gdims[i..])
  {
    assert q.start[i - 1..][1..] == q.start[i..];
    assert q.count[i - 1..][1..] == q.count[i..];
    assert gdims[i - 1..][1..] == gdims[i..];
  }

  lemma StepArithmetic(size: nat, start: int, width: nat, flat: int, n: nat)
    ensures size * flat + start * (size * width) == size * (start * width + flat)
    ensures size * width * n == size * (n * width)
  {
  }

  lemma BlockArithmetic(count: nat, n: nat, width: nat)
    requires 0 < count <= n && 0 < width
    ensures width * count == count * width
    ensures 0 < count * width <= n * width
    ensures count < n ==> count * width < n * width
  {
    assert n * width == count * width + (n - count) * width;
  }

  lemma FullNumbers(q: Request, gdims: seq<nat>, size: nat, i: nat, blocklen: nat, disp: int, shape: nat)
    requires InBounds(q, gdims) && 0 < i <= |gdims|
    requires ContiguousSoFar(q, gdims, size, i, blocklen, disp, shape, false)
    ensures blocklen * q.count[i - 1] == Product(q.count[i - 1..])
    ensures shape * gdims[i - 1] == size * Product(gdims[i - 1..])
    ensures disp + q.start[i - 1] * shape == size * Flat(q.start[i - 1..], gdims[i - 1..])
    ensures 0 < blocklen * q.count[i - 1] <= Product(gdims[i - 1..])
    ensures q.count[i - 1] < gdims[i - 1] ==> blocklen * q.count[i - 1] < Product(gdims[i - 1..])
  {
    SuffixStep(q.count, i);
    SuffixStep(gdims, i);
    FlatStep(q, gdims, i);
    StepArithmetic(size, q.start[i - 1], Product(gdims[i..]), Flat(q.start[i..], gdims[i..]), gdims[i - 1]);
    BlockArithmetic(q.count[i - 1], gdims[i - 1], Product(gdims[i..]));
  }

  lemma FullRun(q: Request, gdims: seq<nat>, size: nat, i: nat, blocklen: nat, disp: int, shape: nat)
    requires InBounds(q, gdims) && 0 < i <= |gdims|
    requires ContiguousSoFar(q, gdims, size, i, blocklen, disp, shape, false)
    ensures Offsets(From(q, i - 1), gdims[i - 1..]) ==
      Run(Flat(q.start[i - 1..], gdims[i - 1..]), Product(q.count[i - 1..]))
  {
    FlatStep(q, gdims, i);
    SuffixStep(gdims, i);
    SuffixInBounds(q, gdims, i - 1);
    FullInnerRun(From(q, i - 1), gdims[i - 1..]);
  }

  lemma FullCover(q: Request, gdims: seq<nat>, size: nat, i: nat, blocklen: nat, disp: int, shape: nat)
    requires InBounds(q, gdims) && 0 < i <= |gdims|
    requires ContiguousSoFar(q, gdims, size, i, blocklen, disp, shape, false)
    ensures 0 <= Flat(q.start[i - 1..], gdims[i - 1..])
    ensures q.count[i - 1] == gdims[i - 1] ==>
      q.count[i - 1..] == gdims[i - 1..] && Flat(q.start[i - 1..], gdims[i - 1..]) == 0
  {
    SuffixStep(q.count, i);
    SuffixStep(gdims, i);
    FlatStep(q, gdims, i);
    MulMonotone(q.start[i - 1], 0, Product(gdims[i..]));
  }

  /** A dimension whose inner part is all covered. */
  lemma FullStep(q: Request, gdims: seq<nat>, size: nat, i: nat, blocklen: nat, disp: int, shape: nat)
    requires InBounds(q, gdims) && 0 < i <= |gdims|
    requires ContiguousSoFar(q, gdims, size, i, blocklen, disp, shape, false)
    ensures ContiguousSoFar(q, gdims, size, i - 1, blocklen * q.count[i - 1], disp + q.start[i - 1] * shape,
                            shape * gdims[i - 1], q.count[i - 1] < gdims[i - 1])
  {
    FullRun(q, gdims, size, i, blocklen, disp, shape);
    FullNumbers(q, gdims, size, i, blocklen, disp, shape);
    FullCover(q, gdims, size, i, blocklen, disp, shape);
  }

  /** Behind a dimension that is not covered, a dimension of extent one keeps the run. */
  lemma SingleStep(q: Request, gdims: seq<nat>, size: nat, i: nat, blocklen: nat, disp: int, shape: nat)
    requires InBounds(q, gdims) && 0 < i <= |gdims| && q.count[i - 1] == 1
    requires ContiguousSoFar(q, gdims, size, i, blocklen, disp, shape, true)
    ensures ContiguousSoFar(q, gdims, size, i - 1, blocklen * 1, disp + q.start[i - 1] * shape,
                            shape * gdims[i - 1], true)
  {
    SuffixStep(q.count, i);
    SuffixStep(gdims, i);
    FlatStep(q, gdims, i);
    SuffixInBounds(q, gdims, i - 1);
    SingleSlabRun(From(q, i - 1), gdims[i - 1..], Flat(q.start[i..], gdims[i..]), blocklen);
    StepArithmetic(size, q.start[i - 1], Product(gdims[i..]), Flat(q.start[i..], gdims[i..]), gdims[i - 1]);
    SlabPosition(q.start[i - 1], gdims[i - 1], Product(gdims[i..]), 0);
    BlockArithmetic(1, gdims[i - 1], Product(gdims[i..]));
  }

  lemma {:induction false} GapReachesOut(q: Request, gdims: seq<nat>, i: nat)
    requires InBounds(q, gdims) && i <= |gdims| && HasGap(From(q, i), gdims[i..])
    ensures HasGap(q, gdims)
    decreases i
  {
    if i == 0 {
      assert From(q, 0) == q && gdims[0..] == gdims;
    } else {
      FlatStep(q, gdims, i);
      SuffixInBounds(q, gdims, i - 1);
      GapExtends(From(q, i - 1), gdims[i - 1..]);
      GapReachesOut(q, gdims, i - 1);
    }
  }

  /** Behind a dimension that is not covered, a dimension of larger extent leaves a gap. */
  lemma GapStep(q: Request, gdims: seq<nat>, size: nat, i: nat, blocklen: nat, disp: int, shape: nat)
    requires InBounds(q, gdims) && 0 < i <= |gdims| && q.count[i - 1] != 1
    requires ContiguousSoFar(q, gdims, size, i, blocklen, disp, shape, true)
    ensures HasGap(q, gdims)
  {
    FlatStep(q, gdims, i);
    SuffixInBounds(q, gdims, i - 1);
    SlabsLeaveGap(From(q, i - 1), gdims[i - 1..], Flat(q.start[i..], gdims[i..]), blocklen);
    GapReachesOut(q, gdims, i - 1);
  }

  lemma EmptySuffix(q: Request, gdims: seq<nat>, size: nat)
    requires InBounds(q, gdims)
    ensures ContiguousSoFar(q, gdims, size, |gdims|, 1, 0, size, false)
  {
    var last := From(q, |gdims|);
    assert Indices(last.start, last.count) == [[]];
    assert Offsets(last, gdims[|gdims|..]) == Run(0, 1);
  }

  /** Whether the loop, having seen an uncovered dimension if `warn`, sees a gap at this one. */
  predicate GapSeen(q: Request, i: nat, warn: bool)
    requires i < |q.count|
  {
    warn && q.count[i] != 1
  }

  /** One more dimension. */
  lemma DimensionStep(
    q: Request, gdims: seq<nat>, size: nat, i: nat, blocklen: nat, disp: int, shape: nat, warn: bool)
    requires InBounds(q, gdims) && i < |gdims|
    requires ContiguousSoFar(q, gdims, size, i + 1, blocklen, disp, shape, warn)
    ensures GapSeen(q, i, warn) ==> HasGap(q, gdims)
    ensures !GapSeen(q, i, warn) ==>
      ContiguousSoFar(q, gdims, size, i, blocklen * q.count[i], disp + q.start[i] * shape, shape * gdims[i],
                      warn || q.count[i] < gdims[i])
  {
    if !warn {
      FullStep(q, gdims, size, i + 1, blocklen, disp, shape);
    } else if q.count[i] != 1 {
      GapStep(q, gdims, size, i + 1, blocklen, disp, shape);
    } else {
      SingleStep(q, gdims, size, i + 1, blocklen, disp, shape);
    }
  }

  lemma WholeRequest(q: Request, gdims: seq<nat>, size: nat, blocklen: nat, disp: int, shape: nat, warn: bool)
    requires InBounds(q, gdims) && ContiguousSoFar(q, gdims, size, 0, blocklen, disp, shape, warn)
    ensures !HasGap(q, gdims) && Offsets(q, gdims) == Run(Flat(q.start, gdims), blocklen)
    ensures disp == size * Flat(q.start, gdims) && blocklen == Product(q.count)
  {
    assert From(q, 0) == q && gdims[0..] == gdims && q.start[0..] == q.start && q.count[0..] == q.count;
    RunHasNoGap(q, gdims, Flat(q.start, gdims), blocklen);
  }

  /** One more dimension of a request without gap. */
  lemma DimensionOfRun(q: Request, gdims: seq<nat>, i: nat, blocklen: nat, disp: int, shape: nat, warn: bool)
    returns (blocklen': nat, disp': int, shape': nat, warn': bool)
    requires InBounds(q, gdims) && i < |gdims| && !HasGap(q, gdims)
    requires ContiguousSoFar(q, gdims, 1, i + 1, blocklen, disp, shape, warn)
    ensures ContiguousSoFar(q, gdims, 1, i, blocklen', disp', shape', warn')
  {
    blocklen', disp', shape' := blocklen * q.count[i], disp + q.start[i] * shape, shape * gdims[i];
    warn' := warn || q.count[i] < gdims[i];
    DimensionStep(q, gdims, 1, i, blocklen, disp, shape, warn);
  }

  /** The dimensions from `i` on, when the whole request has no gap. */
  lemma {:induction false} SuffixIsRun(q: Request, gdims: seq<nat>, i: nat)
    returns (blocklen: nat, disp: int, shape: nat, warn: bool)
    requires InBounds(q, gdims) && i <= |gdims| && !HasGap(q, gdims)
    ensures ContiguousSoFar(q, gdims, 1, i, blocklen, disp, shape, warn)
    decreases |gdims| - i
  {
    if i == |gdims| {
      EmptySuffix(q, gdims, 1);
      blocklen, disp, shape, warn := 1, 0, 1, false;
    } else {
      blocklen, disp, shape, warn := SuffixIsRun(q, gdims, i + 1);
      blocklen, disp, shape, warn := DimensionOfRun(q, gdims, i, blocklen, disp, shape, warn);
    }
  }

  /** A subarray without gaps is one run, starting at its first element. */
  lemma RunOfContiguous(q: Request, gdims: seq<nat>)
    requires InBounds(q, gdims) && !HasGap(q, gdims)
    ensures Offsets(q, gdims) == Run(Flat(q.start, gdims), Product(q.count))
  {
    var blocklen, disp, shape, warn := SuffixIsRun(q, gdims, 0);
    assert From(q, 0) == q && gdims[0..] == gdims && q.start[0..] == q.start && q.count[0..] == q.count;
  }

  /** One turn of the loop: one more dimension, until a gap is found. */
  method CheckDimension(
    q: Request, gdims: seq<nat>, ghost size: nat, i: nat, blocklen: nat, disp: int, shape: nat, warn: bool)
    returns (blocklen': nat, disp': int, shape': nat, warn': bool, isContig: bool)
    requires InBounds(q, gdims) && i < |gdims|
    requires ContiguousSoFar(q, gdims, size, i + 1, blocklen, disp, shape, warn)
    ensures isContig ==> ContiguousSoFar(q, gdims, size, i, blocklen', disp', shape', warn')
    ensures !isContig ==> HasGap(q, gdims)
  {
    blocklen' := blocklen * q.count[i];
    disp' := disp + q.start[i] * shape;
    shape' := shape * gdims[i];
    warn', isContig := warn, true;
    if !warn {
      if q.count[i] < gdims[i] {
        warn' := true;
      }
    } else if q.count[i] != 1 {
      isContig := false;
    }
    DimensionStep(q, gdims, size, i, blocklen, disp, shape, warn);
  }

  /**
   * The test is exact: a subarray it calls contiguous is one run of positions, and `disp` and `blocklen`
   * describe that run; any other subarray has a gap.
   */
  method CheckContiguous(q: Request, gdims: seq<nat>, size: nat) returns (isContig: bool, blocklen: nat, disp: int)
    requires InBounds(q, gdims)
    ensures isContig <==> !HasGap(q, gdims)
    ensures isContig ==> Offsets(q, gdims) == Run(Flat(q.start, gdims), blocklen)
    ensures isContig ==> disp == size * Flat(q.start, gdims) && blocklen == Product(q.count)
  {
    blocklen, isContig := 1, true;
    var warnContig := false;
    disp := 0;
    var shape: nat := size;
    var i := |gdims|;
    EmptySuffix(q, gdims, size);
    while i > 0 && isContig
      invariant 0 <= i <= |gdims|
      invariant isContig ==> ContiguousSoFar(q, gdims, size, i, blocklen, disp, shape, warnContig)
      invariant !isContig ==> HasGap(q, gdims)
    {
      i := i - 1;
      blocklen, disp, shape, warnContig, isContig :=
        CheckDimension(q, gdims, size, i, blocklen, disp, shape, warnContig);
    }
    if isContig {
      WholeRequest(q, gdims, size, blocklen, disp, shape, warnContig);
    }
  }
}

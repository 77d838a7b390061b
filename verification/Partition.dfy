/**
 * The local half of the distributed sample sort: `qsort`, one in-place partition
 * step, and the loop that partitions one rank's data by every pivot in turn.
 */
module Partitioning {
  ghost predicate Sorted(s: seq<int>) {
    forall i, j :: 0 <= i < j < |s| ==> s[i] <= s[j]
  }

  /** `x` belongs to bin `i` of the bins that `pivots` cuts the integers into. */
  predicate InBin(pivots: seq<int>, x: int, i: nat)
    requires i <= |pivots|
  {
    (i == 0 || pivots[i - 1] <= x) && (i == |pivots| || x < pivots[i])
  }

  function Insert(x: int, s: seq<int>): seq<int> {
    if s == [] then [x]
    else if x <= s[0] then [x] + s
    else [s[0]] + Insert(x, s[1..])
  }

  /** The C library's `qsort` with the comparison `cmp`. */
  function Qsort(s: seq<int>): seq<int> {
    if s == [] then [] else Insert(s[0], Qsort(s[1..]))
  }

  lemma {:induction false} InsertPermutes(x: int, s: seq<int>)
    ensures multiset(Insert(x, s)) == multiset(s) + multiset{x}
  {
    if s == [] || s[0] >= x {
    } else {
      assert s == [s[0]] + s[1..];
      InsertPermutes(x, s[1..]);
    }
  }

  lemma {:induction false} InsertSorts(x: int, s: seq<int>)
    requires Sorted(s)
    ensures Sorted(Insert(x, s))
  {
    if s == [] || s[0] >= x {
    } else {
      InsertSorts(x, s[1..]);
      InsertPermutes(x, s[1..]);
      var rest := Insert(x, s[1..]);
      forall j | 0 <= j < |rest| ensures s[0] <= rest[j] {
        assert rest[j] in multiset(rest);
      }
    }
  }

  /** `qsort` yields the sorted rearrangement of its input. */
  lemma {:induction false} QsortSorts(s: seq<int>)
    ensures Sorted(Qsort(s))
    ensures multiset(Qsort(s)) == multiset(s)
  {
    if s == [] {
    } else {
      QsortSorts(s[1..]);
      InsertSorts(s[0], Qsort(s[1..]));
      InsertPermutes(s[0], Qsort(s[1..]));
      assert s == [s[0]] + s[1..];
    }
  }

  lemma LeastFirst(s: seq<int>, t: seq<int>)
    requires s != [] && Sorted(s) && Sorted(t) && multiset(s) == multiset(t)
    ensures t != [] && s[0] == t[0]
  {
    assert s[0] in multiset(t);
    assert t[0] in multiset(s);
    var i :| 0 <= i < |t| && t[i] == s[0];
    var j :| 0 <= j < |s| && s[j] == t[0];
  }

  lemma SplitHead(s: seq<int>)
    requires s != []
    ensures multiset(s) == multiset{s[0]} + multiset(s[1..])
  {
    assert s == [s[0]] + s[1..];
  }

  lemma CancelHead(h: multiset<int>, a: multiset<int>, b: multiset<int>)
    requires h + a == h + b
    ensures a == b
  {
    assert a == (h + a) - h;
    assert b == (h + b) - h;
  }

  /** There is only one sorted arrangement of given elements. */
  lemma {:induction false} SortedIsUnique(s: seq<int>, t: seq<int>)
    requires Sorted(s) && Sorted(t) && multiset(s) == multiset(t)
    ensures s == t
  {
    if s == [] {
      assert |t| == |multiset(t)|;
    } else {
      LeastFirst(s, t);
      SplitHead(s);
      SplitHead(t);
      CancelHead(multiset{s[0]}, multiset(s[1..]), multiset(t[1..]));
      SortedIsUnique(s[1..], t[1..]);
      assert s == [s[0]] + s[1..] && t == [t[0]] + t[1..];
    }
  }

  lemma SwapPermutesSlice(s: seq<int>, t: seq<int>, first: nat, last: nat, i: nat, j: nat)
    requires first <= i < last <= |s| && first <= j < last
    requires t == s[i := s[j]][j := s[i]]
    ensures multiset(t[first..last]) == multiset(s[first..last])
  {
    var u := s[first..last];
    assert t[first..last] == u[i - first := u[j - first]][j - first := u[i - first]];
  }

  lemma SliceDeterminesWhole(s: seq<int>, t: seq<int>, first: nat, last: nat)
    requires first <= last <= |s| == |t|
    requires s[..first] == t[..first] && s[last..] == t[last..]
    requires multiset(s[first..last]) == multiset(t[first..last])
    ensures multiset(s) == multiset(t)
  {
    assert s == s[..first] + s[first..last] + s[last..];
    assert t == t[..first] + t[first..last] + t[last..];
  }

  /** `t` is `s` with the elements of `s[first..last]` rearranged: those below `pivot` first, up to `mid`. */
  ghost predicate IsPartition(s: seq<int>, t: seq<int>, first: nat, last: nat, pivot: int, mid: nat) {
    |s| == |t| && first <= mid <= last <= |s| &&
    t[..first] == s[..first] && t[last..] == s[last..] &&
    multiset(t[first..last]) == multiset(s[first..last]) &&
    (forall k :: first <= k < mid ==> t[k] < pivot) &&
    (forall k :: mid <= k < last ==> pivot <= t[k])
  }

  /** Before position `i` the elements are in place; nothing outside `first..last` has moved. */
  ghost predicate Scanned(s: seq<int>, t: seq<int>, first: nat, last: nat, pivot: int, mid: nat, i: nat) {
    |s| == |t| && first <= mid < i <= last <= |s| &&
    t[..first] == s[..first] && t[last..] == s[last..] &&
    multiset(t[first..last]) == multiset(s[first..last]) &&
    (forall k :: first <= k < mid ==> t[k] < pivot) &&
    (forall k :: mid <= k < i ==> pivot <= t[k])
  }

  lemma ScanSwap(s: seq<int>, t: seq<int>, first: nat, last: nat, pivot: int, mid: nat, i: nat)
    requires Scanned(s, t, first, last, pivot, mid, i) && i < last && t[i] < pivot
    ensures Scanned(s, t[i := t[mid]][mid := t[i]], first, last, pivot, mid + 1, i + 1)
  {
    var u := t[i := t[mid]][mid := t[i]];
    SwapPermutesSlice(t, u, first, last, i, mid);
    assert u[..first] == t[..first] && u[last..] == t[last..];
  }

  lemma ScannedIsPartition(s: seq<int>, t: seq<int>, first: nat, last: nat, pivot: int, mid: nat)
    requires Scanned(s, t, first, last, pivot, mid, last)
    ensures IsPartition(s, t, first, last, pivot, mid)
  {
  }

  method Swap(a: array<int>, i: nat, j: nat)
    requires i < a.Length && j < a.Length
    modifies a
    ensures a[..] == old(a[..])[i := old(a[j])][j := old(a[i])]
  {
    var temp := a[i];
    a[i] := a[j];
    a[j] := temp;
  }

  /**
   * Moves the elements of `a[first..last]` that are less than `pivot` to the front
   * and returns the position just after them.
   */
  method Partition(a: array<int>, first: nat, last: nat, pivot: int) returns (mid: nat)
    requires first <= last <= a.Length
    modifies a
    ensures IsPartition(old(a[..]), a[..], first, last, pivot, mid)
  {
    mid := first;
    while mid != last && a[mid] < pivot
      invariant first <= mid <= last
      invariant forall k :: first <= k < mid ==> a[k] < pivot
    {
      mid := mid + 1;
    }
    if mid == last {
      return;
    }
    var i := mid + 1;
    while i != last
      invariant mid < i <= last
      invariant Scanned(old(a[..]), a[..], first, last, pivot, mid, i)
    {
      if a[i] < pivot {
        ghost var before := a[..];
        ScanSwap(old(a[..]), before, first, last, pivot, mid, i);
        Swap(a, i, mid);
        mid := mid + 1;
      }
      i := i + 1;
    }
    ScannedIsPartition(old(a[..]), a[..], first, last, pivot, mid);
  }

  /** `pos` cuts `s` into consecutive pieces, the first starting at 0 and the last ending at |s|. */
  ghost predicate Cuts(pos: seq<nat>, n: nat) {
    |pos| > 0 && pos[0] == 0 && pos[|pos| - 1] == n &&
    forall i, j :: 0 <= i <= j < |pos| ==> pos[i] <= pos[j]
  }

  /** Piece `i` of `s` holds exactly the elements that belong to bin `i`. */
  ghost predicate Binned(s: seq<int>, pivots: seq<int>, pos: seq<nat>) {
    |pos| == |pivots| + 2 && Cuts(pos, |s|) &&
    forall i, k :: 0 <= i <= |pivots| && 0 <= k < |s| ==>
      (InBin(pivots, s[k], i) <==> pos[i] <= k < pos[i + 1])
  }

  /** The first `i` pivots are done: bins before `i` are filled, everything later is still unsorted. */
  ghost predicate PartlyBinned(s: seq<int>, pivots: seq<int>, pos: seq<nat>, i: nat) {
    i <= |pivots| && i < |pos| && pos[0] == 0 && pos[i] <= |s| &&
    (forall j, k :: 0 <= j <= k <= i ==> pos[j] <= pos[k]) &&
    (forall j, k :: 0 <= j < i && pos[j] <= k < pos[j + 1] ==> InBin(pivots, s[k], j)) &&
    (i > 0 ==> forall k :: pos[i] <= k < |s| ==> pivots[i - 1] <= s[k])
  }

  /** Partitioning leaves earlier bins as they are. */
  lemma EarlierBinsKept(s: seq<int>, t: seq<int>, pivots: seq<int>, pos: seq<nat>, i: nat, j: nat, k: nat)
    requires PartlyBinned(s, pivots, pos, i) && |s| == |t| && t[..pos[i]] == s[..pos[i]]
    requires j < i && pos[j] <= k < pos[j + 1]
    ensures k < |t| && InBin(pivots, t[k], j)
  {
    assert pos[j + 1] <= pos[i];
    assert t[k] == t[..pos[i]][k] == s[k];
  }

  /** Rearranging the rest keeps it above the pivot before. */
  lemma RestKept(s: seq<int>, t: seq<int>, from: nat, low: int)
    requires from <= |s| == |t| && multiset(t[from..]) == multiset(s[from..])
    requires forall k :: from <= k < |s| ==> low <= s[k]
    ensures forall k :: from <= k < |t| ==> low <= t[k]
  {
    forall k | from <= k < |t| ensures low <= t[k] {
      assert t[from..][k - from] in multiset(t[from..]);
      assert t[k] in s[from..];
    }
  }

  lemma PartitionStep(s: seq<int>, t: seq<int>, pivots: seq<int>, pos: seq<nat>, i: nat, mid: nat)
    requires PartlyBinned(s, pivots, pos, i) && i < |pivots| && |pos| == i + 1
    requires IsPartition(s, t, pos[i], |s|, pivots[i], mid)
    ensures PartlyBinned(t, pivots, pos + [mid], i + 1)
    ensures multiset(t) == multiset(s)
  {
    assert s[pos[i]..|s|] == s[pos[i]..] && t[pos[i]..|s|] == t[pos[i]..];
    SliceDeterminesWhole(s, t, pos[i], |s|);
    if i > 0 {
      RestKept(s, t, pos[i], pivots[i - 1]);
    }
    forall j, k | 0 <= j < i && pos[j] <= k < pos[j + 1] ensures InBin(pivots, t[k], j) {
      EarlierBinsKept(s, t, pivots, pos, i, j, k);
    }
  }

  lemma PieceOf(pos: seq<nat>, n: nat, k: nat) returns (i: nat)
    requires Cuts(pos, n) && k < n
    ensures i + 1 < |pos| && pos[i] <= k < pos[i + 1]
  {
    i := 0;
    while pos[i + 1] <= k
      invariant i + 1 < |pos| && pos[i] <= k
      decreases |pos| - i
    {
      i := i + 1;
    }
  }

  /** Equal keys meet in one bin: no value belongs to two bins. */
  lemma BinIsUnique(pivots: seq<int>, x: int, i: nat, j: nat)
    requires Sorted(pivots) && i <= |pivots| && j <= |pivots|
    requires InBin(pivots, x, i) && InBin(pivots, x, j)
    ensures i == j
  {
  }

  /** Bins cut by sorted pivots do not overlap, so elements found in the right bin are found in no other. */
  lemma BinsAreExact(s: seq<int>, pivots: seq<int>, pos: seq<nat>)
    requires Sorted(pivots)
    requires |pos| == |pivots| + 2 && Cuts(pos, |s|)
    requires forall i, k :: 0 <= i <= |pivots| && pos[i] <= k < pos[i + 1] ==> InBin(pivots, s[k], i)
    ensures Binned(s, pivots, pos)
  {
    forall i, k | 0 <= i <= |pivots| && 0 <= k < |s|
      ensures InBin(pivots, s[k], i) <==> pos[i] <= k < pos[i + 1]
    {
      var j := PieceOf(pos, |s|, k);
      if j != i && InBin(pivots, s[k], i) {
        BinIsUnique(pivots, s[k], i, j);
      }
    }
  }

  lemma PartlyBinnedIsBinned(s: seq<int>, pivots: seq<int>, pos: seq<nat>)
    requires Sorted(pivots) && |pos| == |pivots| + 1
    requires PartlyBinned(s, pivots, pos, |pivots|)
    ensures Binned(s, pivots, pos + [|s|])
  {
    BinsAreExact(s, pivots, pos + [|s|]);
  }

  /** Partitions all of `a` by each pivot in turn, each time only the part right of the last cut. */
  method PartitionByPivots(a: array<int>, pivots: seq<int>) returns (pivotPos: seq<nat>)
    requires Sorted(pivots)
    modifies a
    ensures multiset(a[..]) == multiset(old(a[..]))
    ensures Binned(a[..], pivots, pivotPos)
  {
    var size := |pivots| + 1;
    pivotPos := [0];
    var i := 0;
    while i < size - 1
      invariant 0 <= i <= size - 1 && |pivotPos| == i + 1
      invariant PartlyBinned(a[..], pivots, pivotPos, i)
      invariant multiset(a[..]) == multiset(old(a[..]))
    {
      ghost var before := a[..];
      var mid := Partition(a, pivotPos[i], a.Length, pivots[i]);
      PartitionStep(before, a[..], pivots, pivotPos, i, mid);
      pivotPos := pivotPos + [mid];
      i := i + 1;
    }
    PartlyBinnedIsBinned(a[..], pivots, pivotPos);
    pivotPos := pivotPos + [a.Length];
  }
}

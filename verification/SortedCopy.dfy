/**
 * Sorting the data of a decomposition whose map is not sorted: before a write the elements of every
 * variable are brought into the order of the sorted map, after a read they are put back.
 */
module SortedCopy {
  import opened Hyperslabs
  import opened Sequences

  /** `remap` lists every position below its length once; sorting the map makes such a list. */
  ghost predicate IsRemap(remap: seq<nat>) {
    (forall m :: 0 <= m < |remap| ==> remap[m] < |remap|) &&
    forall i, j :: 0 <= i < j < |remap| ==> remap[i] != remap[j]
  }

  /** Position of element `m` of variable `v`. */
  function Cell(m: nat, maplen: nat, v: nat): nat {
    m + maplen * v
  }

  lemma CellInside(m: nat, maplen: nat, v: nat, nvars: nat)
    requires m < maplen && v < nvars
    ensures Cell(m, maplen, v) < nvars * maplen
  {
    RowBounds(v, nvars, maplen);
  }

  lemma CellUnique(m: nat, v: nat, m': nat, v': nat, maplen: nat)
    requires m < maplen && m' < maplen && Cell(m, maplen, v) == Cell(m', maplen, v')
    ensures m == m' && v == v'
  {
    if v < v' {
      RowBounds(v, v', maplen);
    } else if v' < v {
      RowBounds(v', v, maplen);
    }
  }

  lemma CellOf(p: nat, maplen: nat, nvars: nat) returns (m: nat, v: nat)
    requires p < nvars * maplen
    ensures m < maplen && v < nvars && p == Cell(m, maplen, v)
    decreases nvars
  {
    if p >= (nvars - 1) * maplen {
      m, v := p - (nvars - 1) * maplen, nvars - 1;
      assert nvars * maplen == (nvars - 1) * maplen + maplen;
    } else {
      m, v := CellOf(p, maplen, nvars - 1);
    }
  }

  ghost predicate SameCell(r: seq<Value>, i: nat, s: seq<Value>, j: nat) {
    i < |r| && j < |s| && r[i] == s[j]
  }

  /** Every element of `r` comes from where `remap` says. */
  ghost predicate Gathered(s: seq<Value>, r: seq<Value>, remap: seq<nat>, nvars: nat) {
    |s| == |r| == nvars * |remap| &&
    forall v, m :: 0 <= v < nvars && 0 <= m < |remap| ==>
      SameCell(r, Cell(m, |remap|, v), s, Cell(remap[m], |remap|, v))
  }

  /** Every element of `s` goes where `remap` says. */
  ghost predicate Scattered(s: seq<Value>, r: seq<Value>, remap: seq<nat>, nvars: nat) {
    |s| == |r| == nvars * |remap| &&
    forall v, m :: 0 <= v < nvars && 0 <= m < |remap| ==>
      SameCell(r, Cell(remap[m], |remap|, v), s, Cell(m, |remap|, v))
  }

  /** Element `m` of variable `v` is at position m + maplen * v, on both sides. */
  lemma GatheredAt(s: seq<Value>, r: seq<Value>, remap: seq<nat>, nvars: nat, v: nat, m: nat)
    requires IsRemap(remap) && Gathered(s, r, remap, nvars) && v < nvars && m < |remap|
    ensures 0 <= m + |remap| * v < |r| && 0 <= remap[m] + |remap| * v < |s|
    ensures r[m + |remap| * v] == s[remap[m] + |remap| * v]
  {
    assert SameCell(r, Cell(m, |remap|, v), s, Cell(remap[m], |remap|, v));
  }

  lemma ScatteredAt(s: seq<Value>, r: seq<Value>, remap: seq<nat>, nvars: nat, v: nat, m: nat)
    requires IsRemap(remap) && Scattered(s, r, remap, nvars) && v < nvars && m < |remap|
    ensures 0 <= remap[m] + |remap| * v < |r| && 0 <= m + |remap| * v < |s|
    ensures r[remap[m] + |remap| * v] == s[m + |remap| * v]
  {
    assert SameCell(r, Cell(remap[m], |remap|, v), s, Cell(m, |remap|, v));
  }

  /** The elements of variable `v`. */
  function Row(s: seq<Value>, maplen: nat, nvars: nat, v: nat): (r: seq<Value>)
    requires |s| == nvars * maplen && v < nvars
    ensures |r| == maplen
  {
    RowBounds(v, nvars, maplen);
    s[v * maplen..v * maplen + maplen]
  }

  lemma RowAt(s: seq<Value>, maplen: nat, nvars: nat, v: nat, m: nat)
    requires |s| == nvars * maplen && v < nvars && m < maplen
    ensures Cell(m, maplen, v) < |s| && Row(s, maplen, nvars, v)[m] == s[Cell(m, maplen, v)]
  {
    RowBounds(v, nvars, maplen);
    assert Cell(m, maplen, v) == v * maplen + m;
  }

  /** The row of variable `v` in the order of `remap`. */
  function SortedRow(s: seq<Value>, remap: seq<nat>, nvars: nat, v: nat): (r: seq<Value>)
    requires IsRemap(remap) && |s| == nvars * |remap| && v < nvars
    ensures |r| == |remap|
  {
    seq(|remap|, m requires 0 <= m < |remap| => Row(s, |remap|, nvars, v)[remap[m]])
  }

  ghost predicate CellsGathered(s: seq<Value>, r: seq<Value>, remap: seq<nat>, v: nat) {
    forall m :: 0 <= m < |remap| ==> SameCell(r, Cell(m, |remap|, v), s, Cell(remap[m], |remap|, v))
  }

  lemma GatheredRow(s: seq<Value>, r: seq<Value>, remap: seq<nat>, nvars: nat, v: nat)
    requires IsRemap(remap) && |s| == |r| == nvars * |remap| && v < nvars
    ensures CellsGathered(s, r, remap, v) <==> Row(r, |remap|, nvars, v) == SortedRow(s, remap, nvars, v)
  {
    forall m | 0 <= m < |remap|
      ensures SameCell(r, Cell(m, |remap|, v), s, Cell(remap[m], |remap|, v)) <==>
        Row(r, |remap|, nvars, v)[m] == SortedRow(s, remap, nvars, v)[m]
    {
      RowAt(r, |remap|, nvars, v, m);
      RowAt(s, |remap|, nvars, v, remap[m]);
    }
  }

  ghost predicate RowsSorted(s: seq<Value>, r: seq<Value>, remap: seq<nat>, nvars: nat)
    requires IsRemap(remap) && |s| == |r| == nvars * |remap|
  {
    forall v :: 0 <= v < nvars ==> Row(r, |remap|, nvars, v) == SortedRow(s, remap, nvars, v)
  }

  lemma GatheredSortsRows(s: seq<Value>, r: seq<Value>, remap: seq<nat>, nvars: nat)
    requires IsRemap(remap) && |s| == |r| == nvars * |remap| && Gathered(s, r, remap, nvars)
    ensures RowsSorted(s, r, remap, nvars)
  {
    forall v | 0 <= v < nvars ensures Row(r, |remap|, nvars, v) == SortedRow(s, remap, nvars, v) {
      assert CellsGathered(s, r, remap, v);
      GatheredRow(s, r, remap, nvars, v);
    }
  }

  lemma RowsSortedAreGathered(s: seq<Value>, r: seq<Value>, remap: seq<nat>, nvars: nat)
    requires IsRemap(remap) && |s| == |r| == nvars * |remap| && RowsSorted(s, r, remap, nvars)
    ensures Gathered(s, r, remap, nvars)
  {
    forall v, m | 0 <= v < nvars && 0 <= m < |remap|
      ensures SameCell(r, Cell(m, |remap|, v), s, Cell(remap[m], |remap|, v))
    {
      GatheredRow(s, r, remap, nvars, v);
    }
  }

  /** Gathering means that every variable on its own is brought into the order of `remap`. */
  lemma GatheredRows(s: seq<Value>, r: seq<Value>, remap: seq<nat>, nvars: nat)
    requires IsRemap(remap) && |s| == |r| == nvars * |remap|
    ensures Gathered(s, r, remap, nvars) <==> RowsSorted(s, r, remap, nvars)
  {
    if Gathered(s, r, remap, nvars) {
      GatheredSortsRows(s, r, remap, nvars);
    }
    if RowsSorted(s, r, remap, nvars) {
      RowsSortedAreGathered(s, r, remap, nvars);
    }
  }

  /** Three elements of one variable. */
  lemma GatheredExample(r: seq<Value>)
    ensures Gathered([10, 20, 30], r, [1, 2, 0], 1) <==> r == [20, 30, 10]
    ensures Scattered([10, 20, 30], r, [1, 2, 0], 1) <==> r == [30, 10, 20]
  {
    assert IsRemap([1, 2, 0]);
    if Gathered([10, 20, 30], r, [1, 2, 0], 1) {
      GatheredAt([10, 20, 30], r, [1, 2, 0], 1, 0, 0);
      GatheredAt([10, 20, 30], r, [1, 2, 0], 1, 0, 1);
      GatheredAt([10, 20, 30], r, [1, 2, 0], 1, 0, 2);
      assert r == [20, 30, 10];
    }
    if Scattered([10, 20, 30], r, [1, 2, 0], 1) {
      ScatteredAt([10, 20, 30], r, [1, 2, 0], 1, 0, 0);
      ScatteredAt([10, 20, 30], r, [1, 2, 0], 1, 0, 1);
      ScatteredAt([10, 20, 30], r, [1, 2, 0], 1, 0, 2);
      assert r == [30, 10, 20];
    }
  }

  // A remap hits every position.

  function Below(n: nat): (r: set<nat>)
    ensures |r| == n && forall k: nat :: k in r <==> k < n
  {
    if n == 0 then {} else Below(n - 1) + {n - 1}
  }

  lemma {:induction false} SubsetSize(a: set<nat>, b: set<nat>)
    requires a <= b
    ensures |a| <= |b|
    decreases a
  {
    if a == {} {
    } else {
      var x :| x in a;
      SubsetSize(a - {x}, b - {x});
    }
  }

  function Hit(remap: seq<nat>, n: nat): (r: set<nat>)
    requires n <= |remap|
  {
    set m | 0 <= m < n :: remap[m]
  }

  lemma HitSnoc(remap: seq<nat>, n: nat)
    requires IsRemap(remap) && 0 < n <= |remap|
    ensures Hit(remap, n) == Hit(remap, n - 1) + {remap[n - 1]} && remap[n - 1] !in Hit(remap, n - 1)
  {
  }

  lemma {:induction false} HitSize(remap: seq<nat>, n: nat)
    requires IsRemap(remap) && n <= |remap|
    ensures |Hit(remap, n)| == n
  {
    if n == 0 {
    } else {
      HitSize(remap, n - 1);
      HitSnoc(remap, n);
    }
  }

  lemma HitsEvery(remap: seq<nat>, k: nat) returns (m: nat)
    requires IsRemap(remap) && k < |remap|
    ensures m < |remap| && remap[m] == k
  {
    var hit := Hit(remap, |remap|);
    HitSize(remap, |remap|);
    if k !in hit {
      SubsetSize(hit, Below(|remap|) - {k});
    }
    m :| 0 <= m < |remap| && remap[m] == k;
  }

  /** Sorting for a write and putting back after a read cancel out, for any number of variables. */
  lemma ScatterUndoesGather(s: seq<Value>, t: seq<Value>, u: seq<Value>, remap: seq<nat>, nvars: nat)
    requires IsRemap(remap) && Gathered(s, t, remap, nvars) && Scattered(t, u, remap, nvars)
    ensures u == s
  {
    forall p | 0 <= p < |s| ensures u[p] == s[p] {
      var k, v := CellOf(p, |remap|, nvars);
      var m := HitsEvery(remap, k);
      assert SameCell(t, Cell(m, |remap|, v), s, Cell(remap[m], |remap|, v));
      assert SameCell(u, Cell(remap[m], |remap|, v), t, Cell(m, |remap|, v));
    }
  }

  lemma GatherUndoesScatter(s: seq<Value>, t: seq<Value>, u: seq<Value>, remap: seq<nat>, nvars: nat)
    requires IsRemap(remap) && Scattered(s, t, remap, nvars) && Gathered(t, u, remap, nvars)
    ensures u == s
  {
    forall p | 0 <= p < |s| ensures u[p] == s[p] {
      var m, v := CellOf(p, |remap|, nvars);
      assert SameCell(t, Cell(remap[m], |remap|, v), s, Cell(m, |remap|, v));
      assert SameCell(u, Cell(m, |remap|, v), t, Cell(remap[m], |remap|, v));
    }
  }

  // The code.

  /** The cells done before cell `n` of variable `k`. */
  predicate Done(v: nat, m: nat, k: nat, n: nat) {
    v < k || (v == k && m < n)
  }

  ghost predicate PartlyGathered(s: seq<Value>, r: seq<Value>, remap: seq<nat>, nvars: nat, k: nat, n: nat) {
    |s| == |r| == nvars * |remap| &&
    forall v, m :: 0 <= v < nvars && 0 <= m < |remap| && Done(v, m, k, n) ==>
      SameCell(r, Cell(m, |remap|, v), s, Cell(remap[m], |remap|, v))
  }

  ghost predicate PartlyScattered(s: seq<Value>, r: seq<Value>, remap: seq<nat>, nvars: nat, k: nat, n: nat) {
    |s| == |r| == nvars * |remap| &&
    forall v, m :: 0 <= v < nvars && 0 <= m < |remap| && Done(v, m, k, n) ==>
      SameCell(r, Cell(remap[m], |remap|, v), s, Cell(m, |remap|, v))
  }

  lemma GatherStep(s: seq<Value>, r: seq<Value>, remap: seq<nat>, nvars: nat, k: nat, n: nat)
    requires IsRemap(remap) && k < nvars && n < |remap| && PartlyGathered(s, r, remap, nvars, k, n)
    ensures Cell(n, |remap|, k) < |r| && Cell(remap[n], |remap|, k) < |s|
    ensures PartlyGathered(s, r[Cell(n, |remap|, k) := s[Cell(remap[n], |remap|, k)]], remap, nvars, k, n + 1)
  {
    CellInside(n, |remap|, k, nvars);
    CellInside(remap[n], |remap|, k, nvars);
    var at := Cell(n, |remap|, k);
    forall v, m | 0 <= v < nvars && 0 <= m < |remap| && Done(v, m, k, n + 1)
      ensures SameCell(r[at := s[Cell(remap[n], |remap|, k)]], Cell(m, |remap|, v), s, Cell(remap[m], |remap|, v))
    {
      if Cell(m, |remap|, v) == at {
        CellUnique(m, v, n, k, |remap|);
      }
    }
  }

  lemma ScatterStep(s: seq<Value>, r: seq<Value>, remap: seq<nat>, nvars: nat, k: nat, n: nat)
    requires IsRemap(remap) && k < nvars && n < |remap| && PartlyScattered(s, r, remap, nvars, k, n)
    ensures Cell(n, |remap|, k) < |s| && Cell(remap[n], |remap|, k) < |r|
    ensures PartlyScattered(s, r[Cell(remap[n], |remap|, k) := s[Cell(n, |remap|, k)]], remap, nvars, k, n + 1)
  {
    CellInside(n, |remap|, k, nvars);
    CellInside(remap[n], |remap|, k, nvars);
    var at := Cell(remap[n], |remap|, k);
    forall v, m | 0 <= v < nvars && 0 <= m < |remap| && Done(v, m, k, n + 1)
      ensures SameCell(r[at := s[Cell(n, |remap|, k)]], Cell(remap[m], |remap|, v), s, Cell(m, |remap|, v))
    {
      if Cell(remap[m], |remap|, v) == at {
        CellUnique(remap[m], v, remap[n], k, |remap|);
      }
    }
  }

  /** The elements that are copied; the arrays may be longer. */
  function Size(remap: seq<nat>, nvars: nat): nat {
    nvars * |remap|
  }

  lemma UpdatedFront(was: seq<Value>, now: seq<Value>, at: nat, n: nat)
    requires at < n <= |was| == |now| && now == was[at := now[at]]
    ensures now[..n] == was[..n][at := now[at]] && now[n..] == was[n..]
  {
  }

  method GatherCopy(arr: array<Value>, sortedarray: array<Value>, remap: seq<nat>, nvars: nat)
    requires IsRemap(remap) && arr != sortedarray
    requires Size(remap, nvars) <= arr.Length && Size(remap, nvars) <= sortedarray.Length
    modifies sortedarray
    ensures Gathered(arr[..Size(remap, nvars)], sortedarray[..Size(remap, nvars)], remap, nvars)
    ensures sortedarray[Size(remap, nvars)..] == old(sortedarray[Size(remap, nvars)..])
  {
    var maplen := |remap|;
    ghost var n := Size(remap, nvars);
    ghost var rest := sortedarray[n..];
    for v := 0 to nvars
      invariant PartlyGathered(arr[..n], sortedarray[..n], remap, nvars, v, 0) && sortedarray[n..] == rest
    {
      for m := 0 to maplen
        invariant PartlyGathered(arr[..n], sortedarray[..n], remap, nvars, v, m) && sortedarray[n..] == rest
      {
        ghost var was := sortedarray[..];
        CellInside(m, maplen, v, nvars);
        CellInside(remap[m], maplen, v, nvars);
        GatherStep(arr[..n], was[..n], remap, nvars, v, m);
        sortedarray[m + maplen * v] := arr[remap[m] + maplen * v];
        UpdatedFront(was, sortedarray[..], Cell(m, maplen, v), n);
      }
    }
  }

  method ScatterCopy(arr: array<Value>, sortedarray: array<Value>, remap: seq<nat>, nvars: nat)
    requires IsRemap(remap) && arr != sortedarray
    requires Size(remap, nvars) <= arr.Length && Size(remap, nvars) <= sortedarray.Length
    modifies sortedarray
    ensures Scattered(arr[..Size(remap, nvars)], sortedarray[..Size(remap, nvars)], remap, nvars)
    ensures sortedarray[Size(remap, nvars)..] == old(sortedarray[Size(remap, nvars)..])
  {
    var maplen := |remap|;
    ghost var n := Size(remap, nvars);
    ghost var rest := sortedarray[n..];
    for v := 0 to nvars
      invariant PartlyScattered(arr[..n], sortedarray[..n], remap, nvars, v, 0) && sortedarray[n..] == rest
    {
      for m := 0 to maplen
        invariant PartlyScattered(arr[..n], sortedarray[..n], remap, nvars, v, m) && sortedarray[n..] == rest
      {
        ghost var was := sortedarray[..];
        CellInside(m, maplen, v, nvars);
        CellInside(remap[m], maplen, v, nvars);
        ScatterStep(arr[..n], was[..n], remap, nvars, v, m);
        sortedarray[remap[m] + maplen * v] := arr[m + maplen * v];
        UpdatedFront(was, sortedarray[..], Cell(remap[m], maplen, v), n);
      }
    }
  }

  /** Direction 0 gathers, direction 1 scatters; what lies behind the variables is left alone. */
  method PioSortedCopy(arr: array<Value>, sortedarray: array<Value>, remap: seq<nat>, nvars: nat, direction: int)
    requires IsRemap(remap) && arr != sortedarray
    requires Size(remap, nvars) <= arr.Length && Size(remap, nvars) <= sortedarray.Length
    modifies sortedarray
    ensures direction == 0 ==> Gathered(arr[..Size(remap, nvars)], sortedarray[..Size(remap, nvars)], remap, nvars)
    ensures direction != 0 ==> Scattered(arr[..Size(remap, nvars)], sortedarray[..Size(remap, nvars)], remap, nvars)
    ensures sortedarray[Size(remap, nvars)..] == old(sortedarray[Size(remap, nvars)..])
  {
    if direction == 0 {
      GatherCopy(arr, sortedarray, remap, nvars);
    } else {
      ScatterCopy(arr, sortedarray, remap, nvars);
    }
  }

  /** Sorting for a write, then putting back as after a read: the caller's elements are restored. */
  method WriteThenRead(arr: array<Value>, remap: seq<nat>, nvars: nat) returns (back: array<Value>)
    requires IsRemap(remap) && Size(remap, nvars) <= arr.Length
    ensures fresh(back) && back[..] == arr[..Size(remap, nvars)]
  {
    var n := Size(remap, nvars);
    var tmparray := new Value[n](_ => 0);
    back := new Value[n](_ => 0);
    PioSortedCopy(arr, tmparray, remap, nvars, 0);
    PioSortedCopy(tmparray, back, remap, nvars, 1);
    ScatterUndoesGather(arr[..n], tmparray[..n], back[..n], remap, nvars);
    assert back[..n] == back[..];
  }
}

/**
 * The "vard" code: the requests of one variable are tested for contiguity one by one and become a block
 * list. The list describes the bytes that the requests ask for, in their order, except in one case.
 */
module Coalescing {
  import opened Sequences
  import opened Hyperslabs
  import opened Contiguity
  import opened BlockList

  /**
   * The requests, the dimensions of the array they lie in, the element size, the byte at which the array starts,
   * and what the code adds to that for contiguous requests only.
   */
  datatype Vard = Vard(reqs: seq<Request>, gdims: seq<nat>, size: nat, base: nat, shift: nat)

  ghost predicate ValidVard(v: Vard) {
    0 < v.size && forall i :: 0 <= i < |v.reqs| ==> InBounds(v.reqs[i], v.gdims)
  }

  ghost predicate DisjointRequests(v: Vard)
    requires ValidVard(v)
  {
    forall i, j, x :: 0 <= i < j < |v.reqs| && x in Offsets(v.reqs[i], v.gdims) ==>
      x !in Offsets(v.reqs[j], v.gdims)
  }

  /** Byte offsets that the first `n` requests ask for, in order. */
  ghost function Wanted(v: Vard, n: nat): seq<int>
    requires ValidVard(v) && n <= |v.reqs|
  {
    if n == 0 then [] else Wanted(v, n - 1) + Places(v.reqs[n - 1], v.gdims, v.size, v.base)
  }

  function Disp(v: Vard, q: Request): int
    requires |q.start| == |v.gdims|
  {
    v.base + v.shift + v.size * Flat(q.start, v.gdims)
  }

  ghost predicate Contiguous(v: Vard, i: nat)
    requires ValidVard(v) && i < |v.reqs|
  {
    !HasGap(v.reqs[i], v.gdims)
  }

  ghost function ItemOf(v: Vard, i: nat): Item
    requires ValidVard(v) && i < |v.reqs|
  {
    Item(v.reqs[i], Contiguous(v, i), Disp(v, v.reqs[i]), Product(v.reqs[i].count))
  }

  /** What the contiguity test finds out about every request. */
  ghost function Items(v: Vard): (r: seq<Item>)
    requires ValidVard(v)
    ensures |r| == |v.reqs| && forall i :: 0 <= i < |r| ==> r[i] == ItemOf(v, i)
  {
    seq(|v.reqs|, i requires 0 <= i < |v.reqs| => ItemOf(v, i))
  }

  lemma {:induction false} FlatInRange(start: seq<int>, gdims: seq<nat>)
    requires |start| == |gdims| && forall d :: 0 <= d < |start| ==> 0 <= start[d]
    ensures 0 <= Flat(start, gdims)
  {
    if start == [] {
    } else {
      FlatInRange(start[1..], gdims[1..]);
    }
  }

  lemma GapNeedsTwo(q: Request, gdims: seq<nat>)
    requires |q.start| == |q.count| == |gdims| && HasGap(q, gdims)
    ensures Product(q.count) >= 2
  {
    var x, y, z :| x < y < z && x in Offsets(q, gdims) && z in Offsets(q, gdims) && y !in Offsets(q, gdims);
    var i :| 0 <= i < Product(q.count) && Offsets(q, gdims)[i] == x;
    var k :| 0 <= k < Product(q.count) && Offsets(q, gdims)[k] == z;
    assert i != k;
  }

  lemma NonNegative(base: nat, size: nat, flat: int)
    requires flat >= 0
    ensures base + size * flat >= 0
  {
  }

  lemma ItemIsGood(v: Vard, i: nat)
    requires ValidVard(v) && i < |v.reqs|
    ensures GoodItem(ItemOf(v, i), v.gdims)
  {
    var q := v.reqs[i];
    FlatInRange(q.start, v.gdims);
    NonNegative(v.base + v.shift, v.size, Flat(q.start, v.gdims));
    ProductPositive(q.count);
    if HasGap(q, v.gdims) {
      GapNeedsTwo(q, v.gdims);
    }
  }

  lemma ItemsAreGood(v: Vard)
    requires ValidVard(v)
    ensures GoodItems(Items(v), v.gdims)
  {
    forall i | 0 <= i < |v.reqs| ensures GoodItem(Items(v)[i], v.gdims) {
      ItemIsGood(v, i);
    }
  }

  ghost function Coalesced(v: Vard): (r: seq<Block>)
    requires ValidVard(v)
    ensures ValidBlocks(r, v.gdims)
  {
    ItemsAreGood(v);
    AfterValid(Items(v), v.gdims, v.base, |v.reqs|);
    After(Items(v), v.base, |v.reqs|).blocks
  }

  // What the blocks of single requests describe.

  lemma Distribute(size: int, f: int, k: int)
    ensures size * (f + k) == size * f + size * k
  {
  }

  lemma LineFrom(base: int, size: nat, f: int, n: nat)
    ensures seq(n, k => base + size * (f + k)) == seq(n, k => base + size * f + size * k)
  {
    forall k | 0 <= k < n ensures base + size * (f + k) == base + size * f + size * k {
      Distribute(size, f, k);
    }
  }

  lemma RunPlaces(q: Request, gdims: seq<nat>, size: nat, base: int)
    requires InBounds(q, gdims) && !HasGap(q, gdims)
    ensures Places(q, gdims, size, base) ==
      Cover(Block(Element, base + size * Flat(q.start, gdims), Product(q.count)), gdims, size)
  {
    var f, n := Flat(q.start, gdims), Product(q.count);
    RunOfContiguous(q, gdims);
    LineFrom(base, size, f, n);
    assert Places(q, gdims, size, base) == seq(n, k => base + size * (f + k));
  }

  lemma SubarrayPlaces(q: Request, gdims: seq<nat>, size: nat, base: int)
    requires |q.start| == |q.count| == |gdims|
    ensures Cover(Block(Subarray(q), base, 1), gdims, size) == Places(q, gdims, size, base)
  {
    var copies := Copies(q, gdims, size, base, 1);
    assert base + 0 * (size * Product(gdims)) == base;
    assert copies == [Places(q, gdims, size, base)];
    assert Flatten(copies) == copies[0] + Flatten(copies[1..]);
  }

  /** Nothing is added to any of the first `n` requests. */
  ghost predicate Unshifted(v: Vard, n: nat)
    requires ValidVard(v) && n <= |v.reqs|
  {
    v.shift == 0 || forall i :: 0 <= i < n ==> !Contiguous(v, i)
  }

  lemma OwnPlaces(v: Vard, i: nat)
    requires ValidVard(v) && i < |v.reqs|
    ensures ValidBlock(Own(ItemOf(v, i), v.base), v.gdims)
    ensures |Cover(Own(ItemOf(v, i), v.base), v.gdims, v.size)| == |Places(v.reqs[i], v.gdims, v.size, v.base)|
    ensures Cover(Own(ItemOf(v, i), v.base), v.gdims, v.size) == Places(v.reqs[i], v.gdims, v.size, v.base) <==>
      v.shift == 0 || !Contiguous(v, i)
  {
    var q := v.reqs[i];
    if Contiguous(v, i) {
      RunPlaces(q, v.gdims, v.size, v.base);
      ProductPositive(q.count);
      var own, right := Cover(Own(ItemOf(v, i), v.base), v.gdims, v.size), Places(q, v.gdims, v.size, v.base);
      assert own[0] == right[0] + v.shift;
    } else {
      SubarrayPlaces(q, v.gdims, v.size, v.base);
    }
  }

  lemma SumsEqual(a: seq<int>, b: seq<int>, c: seq<int>, d: seq<int>)
    requires |a| == |c| && |b| == |d|
    ensures a + b == c + d <==> a == c && b == d
  {
    assert (a + b)[..|a|] == a && (a + b)[|a|..] == b;
    assert (c + d)[..|a|] == c && (c + d)[|a|..] == d;
  }

  lemma UnshiftedSnoc(v: Vard, n: nat)
    requires ValidVard(v) && 0 < n <= |v.reqs|
    ensures Unshifted(v, n) <==> Unshifted(v, n - 1) && (v.shift == 0 || !Contiguous(v, n - 1))
  {
  }

  /** One more request, behind `asked` for those before it. */
  lemma AskedStep(v: Vard, n: nat, asked: seq<int>, own: seq<int>)
    requires ValidVard(v) && 0 < n <= |v.reqs| && ValidBlock(Own(ItemOf(v, n - 1), v.base), v.gdims)
    requires own == Cover(Own(ItemOf(v, n - 1), v.base), v.gdims, v.size)
    requires |asked| == |Wanted(v, n - 1)| && (asked == Wanted(v, n - 1) <==> Unshifted(v, n - 1))
    ensures |asked + own| == |Wanted(v, n)| && (asked + own == Wanted(v, n) <==> Unshifted(v, n))
  {
    OwnPlaces(v, n - 1);
    UnshiftedSnoc(v, n);
    SumsEqual(asked, own, Wanted(v, n - 1), Places(v.reqs[n - 1], v.gdims, v.size, v.base));
  }

  /** What the blocks of the first `n` requests ask for, each on its own. */
  ghost function AskedUpTo(v: Vard, n: nat): seq<int>
    requires ValidVard(v) && n <= |v.reqs|
  {
    ItemsAreGood(v);
    Asked(Items(v), v.gdims, v.base, v.size, n)
  }

  lemma OwnIsValid(v: Vard, i: nat)
    requires ValidVard(v) && i < |v.reqs|
    ensures ValidBlock(Own(ItemOf(v, i), v.base), v.gdims)
  {
    ItemIsGood(v, i);
  }

  lemma AskedSnoc(v: Vard, n: nat)
    requires ValidVard(v) && 0 < n <= |v.reqs|
    ensures ValidBlock(Own(ItemOf(v, n - 1), v.base), v.gdims)
    ensures AskedUpTo(v, n) == AskedUpTo(v, n - 1) + Cover(Own(ItemOf(v, n - 1), v.base), v.gdims, v.size)
  {
    OwnIsValid(v, n - 1);
    ItemsAreGood(v);
  }

  /** What the blocks of single requests ask for is what is wanted, exactly while nothing is shifted. */
  ghost predicate AskedAgrees(v: Vard, n: nat)
    requires ValidVard(v) && n <= |v.reqs|
  {
    |AskedUpTo(v, n)| == |Wanted(v, n)| && (AskedUpTo(v, n) == Wanted(v, n) <==> Unshifted(v, n))
  }

  lemma AskedNone(v: Vard)
    requires ValidVard(v)
    ensures AskedAgrees(v, 0)
  {
    ItemsAreGood(v);
  }

  lemma AskedNext(v: Vard, n: nat)
    requires ValidVard(v) && 0 < n <= |v.reqs|
    ensures AskedAgrees(v, n - 1) ==> AskedAgrees(v, n)
  {
    AskedSnoc(v, n);
    if AskedAgrees(v, n - 1) {
      AskedStep(v, n, AskedUpTo(v, n - 1), Cover(Own(ItemOf(v, n - 1), v.base), v.gdims, v.size));
    }
  }

  /** The same for every number of requests up to `n`. */
  ghost predicate AgreesUpTo(v: Vard, n: nat)
    requires ValidVard(v) && n <= |v.reqs|
  {
    AskedAgrees(v, n) && (n > 0 ==> AgreesUpTo(v, n - 1))
  }

  lemma {:induction false} AskedIsWanted(v: Vard, n: nat)
    requires ValidVard(v) && n <= |v.reqs|
    ensures AgreesUpTo(v, n)
    decreases n
  {
    if n == 0 {
      AskedNone(v);
    } else {
      AskedIsWanted(v, n - 1);
      AskedNext(v, n);
    }
  }

  // Which requests can seem to continue an earlier one.

  lemma NotPositive(size: nat, d: int)
    requires d <= 0
    ensures size * d <= 0
  {
  }

  lemma Multiples(size: nat, d: int, len: nat)
    requires size >= 2 && len > 0 && size * d == len
    ensures 0 < d < len
  {
    if d <= 0 {
      NotPositive(size, d);
    }
    assert size * d == d + (size - 1) * d;
    if d > 0 {
      assert (size - 1) * d >= d by {
        assert (size - 1) * d == d + (size - 2) * d;
      }
    }
  }

  lemma InsideRun(q: Request, gdims: seq<nat>, d: nat)
    requires InBounds(q, gdims) && !HasGap(q, gdims) && d < Product(q.count)
    ensures Flat(q.start, gdims) + d in Offsets(q, gdims)
  {
    RunOfContiguous(q, gdims);
    assert Offsets(q, gdims)[d] == Flat(q.start, gdims) + d;
  }

  /** Only with elements of one byte can a disjoint request start where the bytes-plus-elements end says. */
  lemma ContinuesMeansBytes(v: Vard, i: nat, k: nat)
    requires ValidVard(v) && DisjointRequests(v) && i < k < |v.reqs| && Contiguous(v, i) && Contiguous(v, k)
    requires Disp(v, v.reqs[i]) + Product(v.reqs[i].count) == Disp(v, v.reqs[k])
    ensures v.size == 1
  {
    if v.size >= 2 {
      var fa, fb := Flat(v.reqs[i].start, v.gdims), Flat(v.reqs[k].start, v.gdims);
      Distribute(v.size, fa, fb - fa);
      ProductPositive(v.reqs[i].count);
      Multiples(v.size, fb - fa, Product(v.reqs[i].count));
      InsideRun(v.reqs[i], v.gdims, fb - fa);
      ProductPositive(v.reqs[k].count);
      InsideRun(v.reqs[k], v.gdims, 0);
    }
  }

  lemma ItemsContinueInBytes(v: Vard)
    requires ValidVard(v) && DisjointRequests(v)
    ensures ContinueInBytes(Items(v), v.size)
  {
    var items := Items(v);
    forall i, k | 0 <= i < k < |items| && items[i].contig && items[k].contig &&
      items[i].disp + items[i].len == items[k].disp ensures v.size == 1
    {
      ContinuesMeansBytes(v, i, k);
    }
  }

  lemma MisplacedIsWrong(v: Vard)
    requires ValidVard(v) && Misplaced(Items(v), |v.reqs|)
    ensures Enumerate(Coalesced(v), v.gdims, v.size) != Wanted(v, |v.reqs|)
  {
    ItemsAreGood(v);
    MisplacedIsTooLong(Items(v), v.gdims, v.base, |v.reqs|);
    EnumerateSize(Coalesced(v), v.gdims, v.size);
    AskedLength(Items(v), v.gdims, v.base, v.size, |v.reqs|);
    AskedIsWanted(v, |v.reqs|);
  }

  /**
   * Coalescing keeps the meaning of disjoint requests exactly when no run is misplaced and nothing is added to
   * a contiguous request.
   */
  lemma CoalescingExact(v: Vard)
    requires ValidVard(v) && DisjointRequests(v)
    ensures Enumerate(Coalesced(v), v.gdims, v.size) == Wanted(v, |v.reqs|) <==>
      !Misplaced(Items(v), |v.reqs|) && Unshifted(v, |v.reqs|)
  {
    if Misplaced(Items(v), |v.reqs|) {
      MisplacedIsWrong(v);
    } else {
      ItemsAreGood(v);
      ItemsContinueInBytes(v);
      DescriptionExact(Items(v), v.gdims, v.base, v.size);
      AskedIsWanted(v, |v.reqs|);
    }
  }

  /** Requests that are all contiguous, for every element size. */
  lemma ContiguousRequestsKeepMeaning(v: Vard)
    requires ValidVard(v) && DisjointRequests(v) && v.shift == 0
    requires forall i :: 0 <= i < |v.reqs| ==> Contiguous(v, i)
    ensures Enumerate(Coalesced(v), v.gdims, v.size) == Wanted(v, |v.reqs|)
  {
    var items := Items(v);
    forall i: nat, k: nat | k < |items| ensures !MisplacedRun(items, i, k) {
      if i + 1 < k {
        assert items[i + 1].contig;
      }
    }
    CoalescingExact(v);
  }

  /** Elements of two bytes or more, for contiguous and other requests in any order. */
  lemma WideElementsKeepMeaning(v: Vard)
    requires ValidVard(v) && DisjointRequests(v) && v.size >= 2 && v.shift == 0
    ensures Enumerate(Coalesced(v), v.gdims, v.size) == Wanted(v, |v.reqs|)
  {
    ItemsContinueInBytes(v);
    CoalescingExact(v);
  }

  // With elements of one byte, a request that is not contiguous between two that follow each other.

  const EXAMPLE_FIRST := Request([0, 0], [1, 1])
  const EXAMPLE_CORNER := Request([1, 0], [2, 2])
  const EXAMPLE_NEXT := Request([0, 1], [1, 1])
  const EXAMPLE := Vard([EXAMPLE_FIRST, EXAMPLE_CORNER, EXAMPLE_NEXT], [3, 3], 1, 0, 0)

  /** A request for one element has no gap. */
  lemma SingleElement(q: Request, gdims: seq<nat>)
    requires InBounds(q, gdims) && Product(q.count) == 1
    ensures !HasGap(q, gdims) && Offsets(q, gdims) == [Flat(q.start, gdims)]
  {
    var o := Offsets(q, gdims);
    assert |o| == 1;
    assert forall x :: x in o ==> x == o[0];
    RunOfContiguous(q, gdims);
  }

  lemma OneElement(q: Request)
    requires InBounds(q, [3, 3]) && q.count == [1, 1]
    ensures !HasGap(q, [3, 3]) && Product(q.count) == 1
    ensures Offsets(q, [3, 3]) == [Flat(q.start, [3, 3])]
    ensures Flat(q.start, [3, 3]) == 3 * q.start[0] + q.start[1]
  {
    assert Product([1, 1]) == 1 * Product([1]) && Product([1]) == 1 * Product([]);
    assert Product([3]) == 3 * Product([]);
    SingleElement(q, [3, 3]);
    assert q.start[1..] == [q.start[1]] && [3, 3][1..] == [3] && [3][1..] == [];
    assert Flat([q.start[1]], [3]) == q.start[1] * Product([]) + Flat([], []);
  }

  lemma RowOffsets()
    ensures Offsets(Request([0], [2]), [3]) == [0, 1]
  {
    var q := Request([0], [2]);
    assert Product(q.count) == 2 * Product([]);
    assert Indices([], []) == [[]];
    OffsetsAt(q, [3], 0, 0);
    OffsetsAt(q, [3], 1, 0);
    assert Offsets(Inner(q), [3][1..])[0] == 0;
  }

  lemma CornerRows()
    ensures var q := EXAMPLE_CORNER; Inner(q) == Request([0], [2]) && [3, 3][1..] == [3] && Product([3]) == 3
    ensures Offsets(Inner(EXAMPLE_CORNER), [3, 3][1..]) == [0, 1]
  {
    assert Product([3]) == 3 * Product([]);
    assert [3, 3][1..] == [3];
    RowOffsets();
  }

  lemma CornerLeavesGap()
    ensures HasGap(EXAMPLE_CORNER, [3, 3])
  {
    var q := EXAMPLE_CORNER;
    CornerRows();
    var row := Offsets(Inner(q), [3, 3][1..]);
    assert row[0] == 0;
    InnerPosition(q, [3, 3], 0, 0);
    InnerPosition(q, [3, 3], 1, 0);
    NotAnElement(q, [3, 3], 1, 2);
    assert 3 in Offsets(q, [3, 3]) && 6 in Offsets(q, [3, 3]) && 5 !in Offsets(q, [3, 3]);
  }

  lemma CornerIsBelow(x: int)
    requires x in Offsets(EXAMPLE_CORNER, [3, 3])
    ensures x >= 3
  {
    var q := EXAMPLE_CORNER;
    CornerRows();
    var p :| 0 <= p < Product(q.count) && Offsets(q, [3, 3])[p] == x;
    var j, k := OffsetsSource(q, [3, 3], p);
    var row := Offsets(Inner(q), [3, 3][1..]);
    assert row[k] >= 0;
  }

  lemma ExampleIsValid()
    ensures ValidVard(EXAMPLE)
  {
    assert InBounds(EXAMPLE_FIRST, [3, 3]) && InBounds(EXAMPLE_CORNER, [3, 3]) && InBounds(EXAMPLE_NEXT, [3, 3]);
  }

  lemma ExampleItem(i: nat)
    requires i == 0 || i == 2
    ensures ValidVard(EXAMPLE) && ItemOf(EXAMPLE, i) == Item(EXAMPLE.reqs[i], true, i / 2, 1)
  {
    ExampleIsValid();
    OneElement(EXAMPLE.reqs[i]);
  }

  lemma ExampleCorner()
    ensures ValidVard(EXAMPLE) && !ItemOf(EXAMPLE, 1).contig
  {
    ExampleIsValid();
    CornerLeavesGap();
  }

  lemma ExampleIsMisplaced()
    ensures ValidVard(EXAMPLE) && Misplaced(Items(EXAMPLE), 3)
  {
    ExampleItem(0);
    ExampleCorner();
    ExampleItem(2);
    assert MisplacedRun(Items(EXAMPLE), 0, 2);
  }

  lemma FirstOffset(x: int)
    requires x in Offsets(EXAMPLE_FIRST, [3, 3])
    ensures x == 0
  {
    OneElement(EXAMPLE_FIRST);
  }

  lemma NextOffset(x: int)
    requires x in Offsets(EXAMPLE_NEXT, [3, 3])
    ensures x == 1
  {
    OneElement(EXAMPLE_NEXT);
  }

  lemma ExamplePair(i: nat, j: nat, x: int)
    requires i < j < 3 && |EXAMPLE.reqs[i].start| == |EXAMPLE.reqs[i].count| == 2
    requires |EXAMPLE.reqs[j].start| == |EXAMPLE.reqs[j].count| == 2 && x in Offsets(EXAMPLE.reqs[i], [3, 3])
    ensures x !in Offsets(EXAMPLE.reqs[j], [3, 3])
  {
    if x in Offsets(EXAMPLE_CORNER, [3, 3]) {
      CornerIsBelow(x);
    }
    if x in Offsets(EXAMPLE_FIRST, [3, 3]) {
      FirstOffset(x);
    }
    if x in Offsets(EXAMPLE_NEXT, [3, 3]) {
      NextOffset(x);
    }
  }

  lemma ExampleIsDisjoint()
    ensures ValidVard(EXAMPLE) && DisjointRequests(EXAMPLE)
  {
    ExampleIsValid();
    forall i, j, x | 0 <= i < j < 3 && x in Offsets(EXAMPLE.reqs[i], [3, 3])
      ensures x !in Offsets(EXAMPLE.reqs[j], [3, 3])
    {
      ExamplePair(i, j, x);
    }
  }

  /** The third request is merged into the second's block: the blocks name bytes that no request asks for. */
  lemma CoalescingLosesMeaning()
    ensures ValidVard(EXAMPLE) && DisjointRequests(EXAMPLE)
    ensures Enumerate(Coalesced(EXAMPLE), EXAMPLE.gdims, EXAMPLE.size) != Wanted(EXAMPLE, 3)
  {
    ExampleIsDisjoint();
    ExampleIsMisplaced();
    CoalescingExact(EXAMPLE);
  }

  // The code itself: three arrays of one slot for each request, filled from the front.

  /** The arrays hold `blocks`, and the slots after those still hold what every block starts with. */
  ghost predicate Holds(
    displacements: seq<int>, blocklengths: seq<nat>, subarray: seq<MpiType>, blocks: seq<Block>, rc: nat, base: int)
  {
    |displacements| == |blocklengths| == |subarray| && |blocks| <= rc <= |subarray| &&
    (forall j :: 0 <= j < |blocks| ==> blocks[j] == Block(subarray[j], displacements[j], blocklengths[j])) &&
    (forall j :: |blocks| <= j < rc ==> displacements[j] == base) &&
    (forall j :: |blocks| <= j < |subarray| ==> blocklengths[j] == 1)
  }

  lemma HoldsPush(d: seq<int>, b: seq<nat>, t: seq<MpiType>, blocks: seq<Block>, rc: nat, base: int, block: Block)
    requires Holds(d, b, t, blocks, rc, base) && |blocks| < rc
    ensures Holds(d[|blocks| := block.disp], b[|blocks| := block.blocklen], t[|blocks| := block.typ],
                  blocks + [block], rc, base)
  {
  }

  lemma HoldsMerge(d: seq<int>, b: seq<nat>, t: seq<MpiType>, blocks: seq<Block>, rc: nat, base: int, len: nat)
    requires Holds(d, b, t, blocks, rc, base) && blocks != []
    ensures b[|blocks| - 1] == blocks[|blocks| - 1].blocklen
    ensures Holds(d, b[|blocks| - 1 := b[|blocks| - 1] + len], t,
      blocks[..|blocks| - 1] + [blocks[|blocks| - 1].(blocklen := blocks[|blocks| - 1].blocklen + len)], rc, base)
  {
  }

  method CheckRequest(q: Request, gdims: seq<nat>, size: nat, ghost v: Vard, ghost rc: nat)
    returns (isContig: bool, blocklen: nat, disp: int)
    requires ValidVard(v) && rc < |v.reqs| && q == v.reqs[rc] && gdims == v.gdims && size == v.size
    ensures isContig <==> ItemOf(v, rc).contig
    ensures isContig ==> v.base + v.shift + disp == ItemOf(v, rc).disp && blocklen == ItemOf(v, rc).len
    ensures isContig ==> v.base + v.shift + disp >= 0
  {
    ItemIsGood(v, rc);
    isContig, blocklen, disp := CheckContiguous(q, gdims, size);
  }

  /** The struct type of the first `n` slots. */
  function TypeStruct(n: nat, blocklengths: seq<nat>, displacements: seq<int>, subarray: seq<MpiType>): (r: seq<Block>)
    requires n <= |blocklengths| == |displacements| == |subarray|
    ensures |r| == n && forall j :: 0 <= j < n ==> r[j] == Block(subarray[j], displacements[j], blocklengths[j])
  {
    seq(n, j requires 0 <= j < n => Block(subarray[j], displacements[j], blocklengths[j]))
  }

  /** The arrays and the loop variables hold what is known after some requests. */
  ghost predicate Loop(
    p: Progress, d: seq<int>, b: seq<nat>, t: seq<MpiType>, slots: nat, base: int, trueRrcnt: int, prevEnd: int)
  {
    Holds(d, b, t, p.blocks, slots, base) && trueRrcnt + 1 == |p.blocks| && prevEnd == p.prevEnd &&
    (p.blocks == [] ==> prevEnd == -1)
  }

  lemma SlotStep(
    p: Progress, d: seq<int>, b: seq<nat>, t: seq<MpiType>, rc: nat, base: int, trueRrcnt: int, prevEnd: int)
    requires Loop(p, d, b, t, rc, base, trueRrcnt, prevEnd) && rc < |d|
    ensures Loop(p, d[rc := base], b, t, rc + 1, base, trueRrcnt, prevEnd)
    ensures |b| == |t| == |d| && -1 <= trueRrcnt < rc
  {
  }

  lemma MergeStep(
    p: Progress, it: Item, d: seq<int>, b: seq<nat>, t: seq<MpiType>, slots: nat, base: int, trueRrcnt: int,
    prevEnd: int)
    requires Loop(p, d, b, t, slots, base, trueRrcnt, prevEnd) && it.contig && it.disp == prevEnd && prevEnd >= 0
    ensures 0 <= trueRrcnt < |b|
    ensures Loop(Step(p, it, base), d, b[trueRrcnt := b[trueRrcnt] + it.len], t, slots, base, trueRrcnt,
      prevEnd + it.len)
  {
    HoldsMerge(d, b, t, p.blocks, slots, base, it.len);
  }

  lemma PushStep(
    p: Progress, it: Item, d: seq<int>, b: seq<nat>, t: seq<MpiType>, slots: nat, base: int, trueRrcnt: int,
    prevEnd: int)
    requires Loop(p, d, b, t, slots, base, trueRrcnt, prevEnd) && it.contig && it.disp != prevEnd
    requires trueRrcnt + 1 < slots
    ensures -1 <= trueRrcnt < |b| - 1 && |b| == |d| == |t|
    ensures Loop(Step(p, it, base), d[trueRrcnt + 1 := it.disp], b[trueRrcnt + 1 := it.len],
      t[trueRrcnt + 1 := Element], slots, base, trueRrcnt + 1, it.disp + it.len)
  {
    HoldsPush(d, b, t, p.blocks, slots, base, Block(Element, it.disp, it.len));
  }

  lemma SubarrayStep(
    p: Progress, it: Item, d: seq<int>, b: seq<nat>, t: seq<MpiType>, slots: nat, base: int, trueRrcnt: int,
    prevEnd: int)
    requires Loop(p, d, b, t, slots, base, trueRrcnt, prevEnd) && !it.contig && trueRrcnt + 1 < slots
    ensures -1 <= trueRrcnt < |b| - 1 && |b| == |d| == |t|
    ensures Loop(Step(p, it, base), d, b, t[trueRrcnt + 1 := Subarray(it.request)], slots, base, trueRrcnt + 1, prevEnd)
  {
    HoldsPush(d, b, t, p.blocks, slots, base, Block(Subarray(it.request), base, 1));
    assert d[trueRrcnt + 1 := base] == d && b[trueRrcnt + 1 := 1] == b;
  }

  /** The three arrays. */
  datatype Slots = Slots(displacements: seq<int>, blocklengths: seq<nat>, subarray: seq<MpiType>)

  /** Merges a request into the block before it, or gives it the next slot. */
  method AddRequest(
    request: Request, isContig: bool, blocklen: nat, disp: int, slots: Slots, trueRrcnt: int, prevEnd: int,
    ghost p: Progress, ghost it: Item, ghost rc: nat, ghost base: int)
    returns (r: Slots, trueRrcnt': int, prevEnd': int)
    requires Loop(p, slots.displacements, slots.blocklengths, slots.subarray, rc + 1, base, trueRrcnt, prevEnd)
    requires it.request == request && it.contig == isContig && trueRrcnt < rc
    requires isContig ==> it.disp == disp && it.len == blocklen && disp >= 0
    ensures |r.displacements| == |slots.displacements|
    ensures Loop(Step(p, it, base), r.displacements, r.blocklengths, r.subarray, rc + 1, base, trueRrcnt', prevEnd')
  {
    r, trueRrcnt', prevEnd' := slots, trueRrcnt, prevEnd;
    if isContig {
      if prevEnd == disp {
        MergeStep(p, it, r.displacements, r.blocklengths, r.subarray, rc + 1, base, trueRrcnt, prevEnd);
        r := r.(blocklengths := r.blocklengths[trueRrcnt := r.blocklengths[trueRrcnt] + blocklen]);
        prevEnd' := prevEnd' + blocklen;
      } else {
        PushStep(p, it, r.displacements, r.blocklengths, r.subarray, rc + 1, base, trueRrcnt, prevEnd);
        trueRrcnt' := trueRrcnt' + 1;
        r := r.(subarray := r.subarray[trueRrcnt' := Element]);
        r := r.(displacements := r.displacements[trueRrcnt' := disp]);
        r := r.(blocklengths := r.blocklengths[trueRrcnt' := blocklen]);
        prevEnd' := disp + blocklen;
      }
    } else {
      SubarrayStep(p, it, r.displacements, r.blocklengths, r.subarray, rc + 1, base, trueRrcnt, prevEnd);
      trueRrcnt' := trueRrcnt' + 1;
      r := r.(subarray := r.subarray[trueRrcnt' := Subarray(request)]);
    }
  }

  // The arguments, and what the code takes from them.

  /**
   * Dimensions of the decomposition and of the file variable, the starts and counts of the requests in file
   * dimensions, and the record. `gdim0` is the length of a leading dimension that is not unlimited, else 0.
   */
  datatype Call = Call(
    gdim0: nat, unlimdimoffset: nat, ndims: nat, fndims: nat, dimlen: seq<nat>, size: nat, frame: int,
    startlist: seq<seq<int>>, countlist: seq<seq<nat>>)

  predicate ValidCall(c: Call) {
    |c.dimlen| == c.ndims && 0 < c.fndims && (c.gdim0 > 0 ==> c.fndims == c.ndims + 1) &&
    |c.startlist| == |c.countlist| &&
    forall i :: 0 <= i < |c.startlist| ==> |c.startlist[i]| == |c.countlist[i]| == c.fndims
  }

  function Frame(c: Call): nat {
    if c.frame > 0 then c.frame else 0
  }

  function DimOffset(c: Call): nat {
    if c.fndims > c.ndims && c.gdim0 == 0 then 1 else 0
  }

  /** The dimensions of the array that the requests lie in: without the unlimited dimension, if there is one. */
  function Gdims(c: Call): (r: seq<nat>)
    requires ValidCall(c)
    ensures |r| + DimOffset(c) <= c.fndims
  {
    if c.fndims > c.ndims then if c.gdim0 > 0 then [c.gdim0] + c.dimlen else c.dimlen
    else c.dimlen[..c.fndims]
  }

  function Sliced(c: Call, i: nat): Request
    requires ValidCall(c) && i < |c.startlist|
  {
    var n := |Gdims(c)|;
    var start := c.startlist[i][DimOffset(c)..DimOffset(c) + n];
    Request(if c.gdim0 > 0 then start[0 := Frame(c)] else start, c.countlist[i][DimOffset(c)..DimOffset(c) + n])
  }

  /** The offset of the record is where the array starts; with `gdim0` it is in the starts, and added as well. */
  function VardOf(c: Call): Vard
    requires ValidCall(c)
  {
    Vard(seq(|c.startlist|, i requires 0 <= i < |c.startlist| => Sliced(c, i)), Gdims(c), c.size,
         if c.gdim0 > 0 then 0 else c.unlimdimoffset * Frame(c),
         if c.gdim0 > 0 then c.unlimdimoffset * Frame(c) else 0)
  }

  /**
   * The byte offsets that one request asks for, in terms of the arguments: the record is where the array starts if
   * its dimension is unlimited, and otherwise the index of the leading dimension.
   */
  ghost function BytesOf(c: Call, i: nat): seq<int>
    requires ValidCall(c) && i < |c.startlist|
  {
    var start, count, record := c.startlist[i], c.countlist[i], if c.frame > 0 then c.frame else 0;
    if c.gdim0 > 0 then Places(Request(start[0 := record], count), [c.gdim0] + c.dimlen, c.size, 0)
    else if c.fndims > c.ndims then
      Places(Request(start[1..1 + c.ndims], count[1..1 + c.ndims]), c.dimlen, c.size, c.unlimdimoffset * record)
    else Places(Request(start, count), c.dimlen[..c.fndims], c.size, c.unlimdimoffset * record)
  }

  ghost function AskedBytes(c: Call, n: nat): seq<int>
    requires ValidCall(c) && n <= |c.startlist|
  {
    if n == 0 then [] else AskedBytes(c, n - 1) + BytesOf(c, n - 1)
  }

  /** Element `k` of a request: its index in the box, and its row-major position in the array. */
  lemma PlaceOf(q: Request, gdims: seq<nat>, size: nat, base: int, k: nat)
    requires |q.start| == |q.count| == |gdims| && k < Product(q.count)
    ensures k < |Indices(q.start, q.count)| && |Indices(q.start, q.count)[k]| == |gdims|
    ensures Places(q, gdims, size, base)[k] == base + size * Flat(Indices(q.start, q.count)[k], gdims)
  {
    OffsetAt(q, gdims, k);
  }

  lemma SlicedBytes(c: Call, i: nat)
    requires ValidCall(c) && i < |c.startlist|
    ensures |Sliced(c, i).start| == |Sliced(c, i).count| == |VardOf(c).gdims|
    ensures Places(Sliced(c, i), VardOf(c).gdims, VardOf(c).size, VardOf(c).base) == BytesOf(c, i)
  {
    var n := |Gdims(c)|;
    if DimOffset(c) == 0 {
      assert c.startlist[i][..n] == c.startlist[i][0..n] && c.countlist[i][..n] == c.countlist[i][0..n];
      if n == c.fndims {
        assert c.startlist[i][0..n] == c.startlist[i] && c.countlist[i][0..n] == c.countlist[i];
      }
    }
  }

  lemma RequestAsks(c: Call, v: Vard, i: nat)
    requires ValidCall(c) && v == VardOf(c) && ValidVard(v) && i < |v.reqs| == |c.startlist|
    ensures |v.reqs[i].start| == |v.reqs[i].count| == |v.gdims|
    ensures Places(v.reqs[i], v.gdims, v.size, v.base) == BytesOf(c, i)
  {
    SlicedBytes(c, i);
  }

  lemma WantedNext(v: Vard, n: nat, before: seq<int>, own: seq<int>, asked: seq<int>)
    requires ValidVard(v) && 0 < n <= |v.reqs| && own == Places(v.reqs[n - 1], v.gdims, v.size, v.base)
    requires Wanted(v, n - 1) == before && asked == before + own
    ensures Wanted(v, n) == asked
  {
  }

  /** For every number of requests up to `n`, what is wanted is what the arguments ask for. */
  ghost predicate AsksUpTo(c: Call, v: Vard, n: nat)
    requires ValidCall(c) && ValidVard(v) && n <= |v.reqs| == |c.startlist|
  {
    Wanted(v, n) == AskedBytes(c, n) && (n > 0 ==> AsksUpTo(c, v, n - 1))
  }

  lemma AsksNext(c: Call, v: Vard, n: nat)
    requires ValidCall(c) && v == VardOf(c) && ValidVard(v) && 0 < n <= |v.reqs| == |c.startlist|
    requires AsksUpTo(c, v, n - 1)
    ensures AsksUpTo(c, v, n)
  {
    RequestAsks(c, v, n - 1);
    WantedNext(v, n, AskedBytes(c, n - 1), BytesOf(c, n - 1), AskedBytes(c, n));
  }

  lemma {:induction false} AsksAll(c: Call, v: Vard, n: nat)
    requires ValidCall(c) && v == VardOf(c) && ValidVard(v) && n <= |v.reqs| == |c.startlist|
    ensures AsksUpTo(c, v, n)
  {
    if n == 0 {
    } else {
      AsksAll(c, v, n - 1);
      AsksNext(c, v, n);
    }
  }

  /** What is wanted is what the arguments ask for. */
  lemma WantedIsAsked(c: Call, n: nat)
    requires ValidCall(c) && ValidVard(VardOf(c)) && n <= |c.startlist|
    ensures Wanted(VardOf(c), n) == AskedBytes(c, n)
  {
    AsksAll(c, VardOf(c), n);
  }

  /** Coalescing is exact for what is asked, if that is what is wanted. */
  lemma ExactFor(v: Vard, asked: seq<int>, unshifted: bool)
    requires ValidVard(v) && DisjointRequests(v) && Wanted(v, |v.reqs|) == asked
    requires Unshifted(v, |v.reqs|) <==> unshifted
    ensures Enumerate(Coalesced(v), v.gdims, v.size) == asked <==> !Misplaced(Items(v), |v.reqs|) && unshifted
  {
    CoalescingExact(v);
  }

  lemma ShiftOf(c: Call)
    requires ValidCall(c) && ValidVard(VardOf(c))
    ensures Unshifted(VardOf(c), |c.startlist|) <==>
      c.gdim0 == 0 || c.unlimdimoffset == 0 || c.frame <= 0 ||
      forall i :: 0 <= i < |c.startlist| ==> !Contiguous(VardOf(c), i)
  {
    if c.unlimdimoffset > 0 && c.frame > 0 {
      RowBounds(0, c.unlimdimoffset, c.frame);
    }
  }

  /**
   * Apart from misplaced runs, the block list names the bytes asked for, in order, unless a leading dimension that
   * is not unlimited meets a positive record and a contiguous request.
   */
  lemma CallExact(c: Call)
    requires ValidCall(c) && ValidVard(VardOf(c)) && DisjointRequests(VardOf(c))
    ensures var v := VardOf(c);
      Enumerate(Coalesced(v), v.gdims, v.size) == AskedBytes(c, |c.startlist|) <==>
      !Misplaced(Items(v), |v.reqs|) &&
      (c.gdim0 == 0 || c.unlimdimoffset == 0 || c.frame <= 0 ||
       forall i :: 0 <= i < |c.startlist| ==> !Contiguous(v, i))
  {
    WantedIsAsked(c, |c.startlist|);
    ShiftOf(c);
    ExactFor(VardOf(c), AskedBytes(c, |c.startlist|),
      c.gdim0 == 0 || c.unlimdimoffset == 0 || c.frame <= 0 ||
      forall i :: 0 <= i < |c.startlist| ==> !Contiguous(VardOf(c), i));
  }

  /** One element of record 2 of an unlimited variable; a record holds three elements of four bytes. */
  const RECORD := Call(0, 12, 1, 2, [3], 4, 2, [[0, 1]], [[1, 1]])

  lemma RecordRequest()
    ensures ValidCall(RECORD) && VardOf(RECORD) == Vard([Request([1], [1])], [3], 4, 24, 0)
  {
    assert RECORD.startlist[0][1..2] == [1] && RECORD.countlist[0][1..2] == [1];
    assert Sliced(RECORD, 0) == Request([1], [1]);
  }

  /** The second element of record 2 is at byte 2 * 12 + 4, and so the block list says. */
  lemma RecordIsOffset()
    ensures ValidCall(RECORD) && ValidVard(VardOf(RECORD))
    ensures AskedBytes(RECORD, 1) == [28]
    ensures Coalesced(VardOf(RECORD)) == [Block(Element, 28, 1)]
  {
    RecordRequest();
    var v := VardOf(RECORD);
    var q := v.reqs[0];
    assert InBounds(q, [3]);
    assert Product([1]) == 1 * Product([]) && Product([3][1..]) == 1;
    SingleElement(q, [3]);
    assert Flat([1], [3]) == 1 * Product([]) + Flat([], []);
    assert ItemOf(v, 0) == Item(q, true, 28, 1);
    assert After(Items(v), 24, 1) == Step(Progress([], -1), ItemOf(v, 0), 24);
    assert Places(q, [3], 4, 24) == [28];
    WantedIsAsked(RECORD, 1);
    assert Wanted(v, 1) == Wanted(v, 0) + [28];
  }

  /** One element of record 1 of a variable with dimensions 3 by 3, four bytes each. */
  const DOUBLED := Call(3, 3, 1, 2, [3], 4, 1, [[0, 0]], [[1, 1]])

  lemma DoubledRequest()
    ensures ValidCall(DOUBLED) && VardOf(DOUBLED) == Vard([Request([1, 0], [1, 1])], [3, 3], 4, 0, 3)
  {
    assert Gdims(DOUBLED) == [3, 3];
    assert [0, 0][0..2] == [0, 0] && [0, 0][0 := 1] == [1, 0] && DOUBLED.countlist[0][0..2] == [1, 1];
    assert Sliced(DOUBLED, 0) == Request([1, 0], [1, 1]);
  }

  /** The element is at byte 12 of the variable; the block list adds the record offset once more and names byte 15. */
  lemma RecordAddedTwice()
    ensures ValidCall(DOUBLED) && ValidVard(VardOf(DOUBLED))
    ensures AskedBytes(DOUBLED, 1) == [12]
    ensures Coalesced(VardOf(DOUBLED)) == [Block(Element, 15, 1)]
    ensures Enumerate(Coalesced(VardOf(DOUBLED)), [3, 3], 4) == [15]
  {
    DoubledRequest();
    var v := VardOf(DOUBLED);
    var q := v.reqs[0];
    assert InBounds(q, [3, 3]);
    OneElement(q);
    assert ItemOf(v, 0) == Item(q, true, 15, 1);
    assert After(Items(v), 0, 1) == Step(Progress([], -1), ItemOf(v, 0), 0);
    assert Places(q, [3, 3], 4, 0) == [12];
    assert Wanted(v, 1) == Wanted(v, 0) + [12];
    WantedIsAsked(DOUBLED, 1);
    EnumerateSnoc([], Block(Element, 15, 1), [3, 3], 4);
  }

  method FindGdims(c: Call) returns (gdims: seq<nat>, dimOffset: nat)
    requires ValidCall(c)
    ensures gdims == Gdims(c) && dimOffset == DimOffset(c)
  {
    var dims := new nat[c.fndims];
    var saNdims;
    if c.fndims > c.ndims {
      if c.gdim0 > 0 {
        dims[0] := c.gdim0;
        saNdims, dimOffset := c.fndims, 0;
        for i := 1 to c.fndims
          invariant dims[0] == c.gdim0 && forall k :: 1 <= k < i ==> dims[k] == c.dimlen[k - 1]
        {
          dims[i] := c.dimlen[i - 1];
        }
      } else {
        saNdims, dimOffset := c.ndims, 1;
        for i := 0 to c.ndims
          invariant forall k :: 0 <= k < i ==> dims[k] == c.dimlen[k]
        {
          dims[i] := c.dimlen[i];
        }
      }
    } else {
      saNdims, dimOffset := c.fndims, 0;
      for i := 0 to c.fndims
        invariant forall k :: 0 <= k < i ==> dims[k] == c.dimlen[k]
      {
        dims[i] := c.dimlen[i];
      }
    }
    gdims := dims[..saNdims];
  }

  method SliceRequest(c: Call, rc: nat, dimOffset: nat, saNdims: nat) returns (q: Request)
    requires ValidCall(c) && rc < |c.startlist| && dimOffset == DimOffset(c) && saNdims == |Gdims(c)|
    ensures q == Sliced(c, rc)
  {
    var sastart, sacount := new int[c.fndims], new nat[c.fndims];
    for i := dimOffset to c.fndims
      invariant forall k :: 0 <= k < i - dimOffset ==> sacount[k] == c.countlist[rc][k + dimOffset]
      invariant forall k :: 0 <= k < i - dimOffset ==> sastart[k] == c.startlist[rc][k + dimOffset]
    {
      sacount[i - dimOffset] := c.countlist[rc][i];
      sastart[i - dimOffset] := c.startlist[rc][i];
    }
    assert sacount[..saNdims] == c.countlist[rc][dimOffset..dimOffset + saNdims];
    assert sastart[..saNdims] == c.startlist[rc][dimOffset..dimOffset + saNdims];
    if c.gdim0 > 0 {
      sastart[0] := if c.frame > 0 then c.frame else 0;
    }
    q := Request(sastart[..saNdims], sacount[..saNdims]);
  }

  /** What the loop knows after `rc` requests. */
  ghost predicate LoopAt(v: Vard, rc: nat, slots: Slots, trueRrcnt: int, prevEnd: int)
    requires ValidVard(v) && rc <= |v.reqs|
  {
    |slots.displacements| == |v.reqs| &&
    Loop(After(Items(v), v.base, rc), slots.displacements, slots.blocklengths, slots.subarray, rc, v.base,
         trueRrcnt, prevEnd)
  }

  /** One turn of the loop. */
  method NextRequest(
    c: Call, rc: nat, gdims: seq<nat>, dimOffset: nat, record: nat, slots: Slots, trueRrcnt: int, prevEnd: int)
    returns (r: Slots, trueRrcnt': int, prevEnd': int)
    requires ValidCall(c) && ValidVard(VardOf(c)) && rc < |c.startlist|
    requires gdims == Gdims(c) && dimOffset == DimOffset(c) && record == c.unlimdimoffset * Frame(c)
    requires LoopAt(VardOf(c), rc, slots, trueRrcnt, prevEnd)
    ensures LoopAt(VardOf(c), rc + 1, r, trueRrcnt', prevEnd')
  {
    ghost var v := VardOf(c);
    ghost var p := After(Items(v), v.base, rc);
    SlotStep(p, slots.displacements, slots.blocklengths, slots.subarray, rc, v.base, trueRrcnt, prevEnd);
    var request := SliceRequest(c, rc, dimOffset, |gdims|);
    r := slots.(displacements := slots.displacements[rc := if c.gdim0 > 0 then 0 else record]);
    var isContig, blocklen, disp := CheckRequest(request, gdims, c.size, v, rc);
    r, trueRrcnt', prevEnd' := AddRequest(
      request, isContig, blocklen, disp + record, r, trueRrcnt, prevEnd, p, ItemOf(v, rc), rc, v.base);
  }

  /** The blocks of one call are the coalesced blocks of its requests. */
  method GetVardMpiDatatype(c: Call) returns (filetype: seq<Block>)
    requires ValidCall(c) && ValidVard(VardOf(c))
    ensures filetype == Coalesced(VardOf(c))
  {
    var rrcnt := |c.startlist|;
    var slots := Slots(seq(rrcnt, _ => 0), seq(rrcnt, _ => 1), seq(rrcnt, _ => Element));
    var gdims, dimOffset := FindGdims(c);
    var record := c.unlimdimoffset * if c.frame > 0 then c.frame else 0;
    var trueRrcnt := -1;
    var prevEnd := -1;
    for rc := 0 to rrcnt
      invariant LoopAt(VardOf(c), rc, slots, trueRrcnt, prevEnd)
    {
      slots, trueRrcnt, prevEnd := NextRequest(c, rc, gdims, dimOffset, record, slots, trueRrcnt, prevEnd);
    }
    filetype := TypeStruct(trueRrcnt + 1, slots.blocklengths, slots.displacements, slots.subarray);
  }
}

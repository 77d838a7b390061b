/**
 * The block list of the "vard" code: a run of requests that follow each other becomes a single block.
 * A block list means what `MPI_Type_create_struct` makes of it: every block names a type, a byte
 * displacement, and how many consecutive copies it holds.
 */
module BlockList {
  import opened Sequences
  import opened Hyperslabs
  import opened Contiguity

  datatype MpiType = Element | Subarray(request: Request)
  datatype Block = Block(typ: MpiType, disp: int, blocklen: nat)

  /** What the loop finds out about one request; `disp` is the byte displacement of a contiguous one. */
  datatype Item = Item(request: Request, contig: bool, disp: int, len: nat)

  /** Byte offsets of a subarray's elements, in order. */
  ghost function Places(q: Request, gdims: seq<nat>, size: nat, base: int): (r: seq<int>)
    requires |q.start| == |q.count| == |gdims|
    ensures |r| == Product(q.count)
  {
    seq(Product(q.count), k requires 0 <= k < Product(q.count) => base + size * Offsets(q, gdims)[k])
  }

  ghost function Copies(q: Request, gdims: seq<nat>, size: nat, disp: int, n: nat): (r: seq<seq<int>>)
    requires |q.start| == |q.count| == |gdims|
    ensures |r| == n && forall c :: 0 <= c < n ==> |r[c]| == Product(q.count)
  {
    seq(n, c requires 0 <= c < n => Places(q, gdims, size, disp + c * (size * Product(gdims))))
  }

  ghost predicate ValidBlock(b: Block, gdims: seq<nat>) {
    b.typ.Subarray? ==> |b.typ.request.start| == |b.typ.request.count| == |gdims|
  }

  /** Byte offsets that a block describes; copies of a subarray lie one whole array apart. */
  ghost function Cover(b: Block, gdims: seq<nat>, size: nat): seq<int>
    requires ValidBlock(b, gdims)
  {
    match b.typ
    case Element => seq(b.blocklen, k => b.disp + size * k)
    case Subarray(q) => Flatten(Copies(q, gdims, size, b.disp, b.blocklen))
  }

  ghost predicate ValidBlocks(blocks: seq<Block>, gdims: seq<nat>) {
    forall i :: 0 <= i < |blocks| ==> ValidBlock(blocks[i], gdims)
  }

  ghost function Enumerate(blocks: seq<Block>, gdims: seq<nat>, size: nat): seq<int>
    requires ValidBlocks(blocks, gdims)
  {
    if blocks == [] then []
    else Enumerate(blocks[..|blocks| - 1], gdims, size) + Cover(blocks[|blocks| - 1], gdims, size)
  }

  lemma EnumerateSnoc(blocks: seq<Block>, b: Block, gdims: seq<nat>, size: nat)
    requires ValidBlocks(blocks, gdims) && ValidBlock(b, gdims)
    ensures ValidBlocks(blocks + [b], gdims)
    ensures Enumerate(blocks + [b], gdims, size) == Enumerate(blocks, gdims, size) + Cover(b, gdims, size)
  {
    assert (blocks + [b])[..|blocks|] == blocks;
  }

  // How many offsets a block list describes.

  function Size(b: Block): nat {
    if b.typ.Element? then b.blocklen else b.blocklen * Product(b.typ.request.count)
  }

  function TotalSize(blocks: seq<Block>): nat {
    if blocks == [] then 0 else TotalSize(blocks[..|blocks| - 1]) + Size(blocks[|blocks| - 1])
  }

  lemma TotalSnoc(blocks: seq<Block>, b: Block)
    ensures TotalSize(blocks + [b]) == TotalSize(blocks) + Size(b)
  {
    assert (blocks + [b])[..|blocks|] == blocks;
  }

  lemma CoverSize(b: Block, gdims: seq<nat>, size: nat)
    requires ValidBlock(b, gdims)
    ensures |Cover(b, gdims, size)| == Size(b)
  {
    if b.typ.Subarray? {
      FlattenWidth(Copies(b.typ.request, gdims, size, b.disp, b.blocklen), Product(b.typ.request.count));
    }
  }

  lemma {:induction false} EnumerateSize(blocks: seq<Block>, gdims: seq<nat>, size: nat)
    requires ValidBlocks(blocks, gdims)
    ensures |Enumerate(blocks, gdims, size)| == TotalSize(blocks)
  {
    if blocks == [] {
    } else {
      EnumerateSize(blocks[..|blocks| - 1], gdims, size);
      CoverSize(blocks[|blocks| - 1], gdims, size);
    }
  }

  // The loop, as a function of the number of requests it has looked at.

  /** The blocks so far, and the end of the latest contiguous request: bytes plus a number of elements. */
  datatype Progress = Progress(blocks: seq<Block>, prevEnd: int)

  function Step(p: Progress, it: Item, base: int): Progress {
    if !it.contig then
      Progress(p.blocks + [Block(Subarray(it.request), base, 1)], p.prevEnd)
    else if p.prevEnd == it.disp && p.blocks != [] then
      var last := p.blocks[|p.blocks| - 1];
      Progress(p.blocks[..|p.blocks| - 1] + [last.(blocklen := last.blocklen + it.len)], p.prevEnd + it.len)
    else
      Progress(p.blocks + [Block(Element, it.disp, it.len)], it.disp + it.len)
  }

  function After(items: seq<Item>, base: int, n: nat): (p: Progress)
    requires n <= |items|
    ensures n > 0 ==> p.blocks != []
  {
    if n == 0 then Progress([], -1) else Step(After(items, base, n - 1), items[n - 1], base)
  }

  function Last(items: seq<Item>, base: int, n: nat): Block
    requires 0 < n <= |items|
  {
    After(items, base, n).blocks[|After(items, base, n).blocks| - 1]
  }

  /** The end of the latest contiguous request among the first `n`, or -1. */
  function LatestEnd(items: seq<Item>, n: nat): int
    requires n <= |items|
  {
    if n == 0 then -1
    else if items[n - 1].contig then items[n - 1].disp + items[n - 1].len
    else LatestEnd(items, n - 1)
  }

  lemma {:induction false} PrevEndIsLatest(items: seq<Item>, base: int, n: nat)
    requires n <= |items|
    ensures After(items, base, n).prevEnd == LatestEnd(items, n)
    decreases n
  {
    if n == 0 {
    } else {
      PrevEndIsLatest(items, base, n - 1);
    }
  }

  lemma {:induction false} EndOfLatest(items: seq<Item>, n: nat, i: nat)
    requires i < n <= |items| && items[i].contig && forall j :: i < j < n ==> !items[j].contig
    ensures LatestEnd(items, n) == items[i].disp + items[i].len
    decreases n
  {
    if i == n - 1 {
    } else {
      EndOfLatest(items, n - 1, i);
    }
  }

  /** The latest contiguous request before `n`. */
  lemma {:induction false} LatestContiguous(items: seq<Item>, n: nat) returns (i: nat)
    requires n <= |items| && LatestEnd(items, n) != -1
    ensures i < n && items[i].contig && forall j :: i < j < n ==> !items[j].contig
    decreases n
  {
    if items[n - 1].contig {
      i := n - 1;
    } else {
      i := LatestContiguous(items, n - 1);
    }
  }

  /** Request `n - 1` gets a block of its own. */
  predicate Pushed(items: seq<Item>, n: nat)
    requires 0 < n <= |items|
  {
    !items[n - 1].contig || n == 1 || LatestEnd(items, n - 1) != items[n - 1].disp
  }

  /** The block of a request of its own. */
  function Own(it: Item, base: int): Block {
    if it.contig then Block(Element, it.disp, it.len) else Block(Subarray(it.request), base, 1)
  }

  lemma PushedBlocks(items: seq<Item>, base: int, n: nat)
    requires 0 < n <= |items| && Pushed(items, n)
    ensures After(items, base, n).blocks == After(items, base, n - 1).blocks + [Own(items[n - 1], base)]
    ensures Last(items, base, n) == Own(items[n - 1], base)
  {
    PrevEndIsLatest(items, base, n - 1);
  }

  /** A merge lets the last block grow. */
  lemma MergedBlocks(items: seq<Item>, base: int, n: nat) returns (front: seq<Block>, last: Block)
    requires 0 < n <= |items| && !Pushed(items, n)
    ensures n > 1 && After(items, base, n - 1).blocks == front + [last]
    ensures After(items, base, n).blocks == front + [last.(blocklen := last.blocklen + items[n - 1].len)]
  {
    PrevEndIsLatest(items, base, n - 1);
    var blocks := After(items, base, n - 1).blocks;
    front, last := blocks[..|blocks| - 1], blocks[|blocks| - 1];
  }

  /** Requests `i` and `k` are contiguous, those between them are not, and `k` seems to continue `i`. */
  predicate MisplacedRun(items: seq<Item>, i: nat, k: nat)
    requires k < |items|
  {
    i + 1 < k && items[i].contig && items[k].contig && (forall j :: i < j < k ==> !items[j].contig) &&
    items[i].disp + items[i].len == items[k].disp
  }

  ghost predicate Misplaced(items: seq<Item>, n: nat)
    requires n <= |items|
  {
    exists i: nat, k: nat :: k < n && MisplacedRun(items, i, k)
  }

  // When a misplaced run makes the description too long.

  predicate GoodItem(it: Item, gdims: seq<nat>) {
    |it.request.start| == |it.request.count| == |gdims| && it.len == Product(it.request.count) && it.len > 0 &&
    it.disp >= 0 && (!it.contig ==> it.len >= 2)
  }

  /** Requests are not empty, and one that is not contiguous has several elements. */
  ghost predicate GoodItems(items: seq<Item>, gdims: seq<nat>) {
    forall i :: 0 <= i < |items| ==> GoodItem(items[i], gdims)
  }

  function SumLen(items: seq<Item>, n: nat): nat
    requires n <= |items|
  {
    if n == 0 then 0 else SumLen(items, n - 1) + items[n - 1].len
  }

  lemma {:induction false} SubarraysAreLarge(items: seq<Item>, gdims: seq<nat>, base: int, n: nat)
    requires GoodItems(items, gdims) && 0 < n <= |items|
    ensures Last(items, base, n).typ.Subarray? ==> Product(Last(items, base, n).typ.request.count) >= 2
    decreases n
  {
    if Pushed(items, n) {
      PushedBlocks(items, base, n);
      assert GoodItem(items[n - 1], gdims);
    } else {
      var front, last := MergedBlocks(items, base, n);
      SubarraysAreLarge(items, gdims, base, n - 1);
    }
  }

  lemma ManyCopies(blocklen: nat, more: nat, n: nat)
    requires more > 0 && n >= 2
    ensures (blocklen + more) * n > blocklen * n + more
  {
    assert (blocklen + more) * n == blocklen * n + more + more * (n - 1);
    assert more * (n - 1) == more + more * (n - 2);
  }

  /** More copies cover more, and copies of a subarray more than the number of copies. */
  lemma SizeGrows(b: Block, more: nat)
    requires more > 0 && (b.typ.Subarray? ==> Product(b.typ.request.count) >= 2)
    ensures Size(b.(blocklen := b.blocklen + more)) >= Size(b) + more
    ensures b.typ.Subarray? ==> Size(b.(blocklen := b.blocklen + more)) > Size(b) + more
  {
    if b.typ.Subarray? {
      ManyCopies(b.blocklen, more, Product(b.typ.request.count));
    }
  }

  lemma SizeStep(items: seq<Item>, gdims: seq<nat>, base: int, n: nat)
    requires GoodItems(items, gdims) && 0 < n <= |items|
    ensures TotalSize(After(items, base, n).blocks) >= TotalSize(After(items, base, n - 1).blocks) + items[n - 1].len
    ensures !Pushed(items, n) && Last(items, base, n - 1).typ.Subarray? ==>
      TotalSize(After(items, base, n).blocks) > TotalSize(After(items, base, n - 1).blocks) + items[n - 1].len
  {
    assert GoodItem(items[n - 1], gdims);
    if Pushed(items, n) {
      PushedBlocks(items, base, n);
      TotalSnoc(After(items, base, n - 1).blocks, Own(items[n - 1], base));
    } else {
      var front, last := MergedBlocks(items, base, n);
      SubarraysAreLarge(items, gdims, base, n - 1);
      SizeGrows(last, items[n - 1].len);
      TotalSnoc(front, last);
      TotalSnoc(front, last.(blocklen := last.blocklen + items[n - 1].len));
    }
  }

  /** A run that is misplaced at request `n - 1` ends up in the block of a subarray. */
  lemma MisplacedIsMerged(items: seq<Item>, base: int, i: nat, n: nat)
    requires 0 < n <= |items| && MisplacedRun(items, i, n - 1)
    ensures !Pushed(items, n) && Last(items, base, n - 1).typ.Subarray?
  {
    EndOfLatest(items, n - 1, i);
    PushedBlocks(items, base, n - 1);
  }

  lemma MisplacedBefore(items: seq<Item>, base: int, n: nat)
    requires 0 < n <= |items| && Misplaced(items, n)
    ensures Misplaced(items, n - 1) || (!Pushed(items, n) && Last(items, base, n - 1).typ.Subarray?)
  {
    var i: nat, k: nat :| k < n && MisplacedRun(items, i, k);
    if k == n - 1 {
      MisplacedIsMerged(items, base, i, n);
    }
  }

  lemma {:induction false} MisplacedIsTooLong(items: seq<Item>, gdims: seq<nat>, base: int, n: nat)
    requires GoodItems(items, gdims) && n <= |items|
    ensures TotalSize(After(items, base, n).blocks) >= SumLen(items, n)
    ensures Misplaced(items, n) ==> TotalSize(After(items, base, n).blocks) > SumLen(items, n)
    decreases n
  {
    if n == 0 {
    } else {
      MisplacedIsTooLong(items, gdims, base, n - 1);
      SizeStep(items, gdims, base, n);
      if Misplaced(items, n) {
        MisplacedBefore(items, base, n);
      }
    }
  }

  // Without misplaced runs every merge continues the block before it.

  lemma FrontValid(front: seq<Block>, last: Block, gdims: seq<nat>)
    requires ValidBlocks(front + [last], gdims)
    ensures ValidBlocks(front, gdims) && ValidBlock(last, gdims)
  {
    assert (front + [last])[|front|] == last;
    forall i | 0 <= i < |front| ensures ValidBlock(front[i], gdims) {
      assert (front + [last])[i] == front[i];
    }
  }

  lemma {:induction false} AfterValid(items: seq<Item>, gdims: seq<nat>, base: int, n: nat)
    requires GoodItems(items, gdims) && n <= |items|
    ensures ValidBlocks(After(items, base, n).blocks, gdims)
    decreases n
  {
    if n == 0 {
    } else {
      AfterValid(items, gdims, base, n - 1);
      assert GoodItem(items[n - 1], gdims);
      if Pushed(items, n) {
        PushedBlocks(items, base, n);
      } else {
        var front, last := MergedBlocks(items, base, n);
        FrontValid(front, last, gdims);
      }
    }
  }

  ghost function Described(items: seq<Item>, gdims: seq<nat>, base: int, size: nat, n: nat): seq<int>
    requires GoodItems(items, gdims) && n <= |items|
  {
    AfterValid(items, gdims, base, n);
    Enumerate(After(items, base, n).blocks, gdims, size)
  }

  /** The offsets that the requests ask for, each on its own. */
  ghost function Asked(items: seq<Item>, gdims: seq<nat>, base: int, size: nat, n: nat): seq<int>
    requires GoodItems(items, gdims) && n <= |items|
  {
    if n == 0 then [] else
      assert GoodItem(items[n - 1], gdims);
      Asked(items, gdims, base, size, n - 1) + Cover(Own(items[n - 1], base), gdims, size)
  }

  lemma DescribedIs(items: seq<Item>, gdims: seq<nat>, base: int, size: nat, n: nat, blocks: seq<Block>)
    requires GoodItems(items, gdims) && n <= |items| && After(items, base, n).blocks == blocks
    ensures ValidBlocks(blocks, gdims) && Described(items, gdims, base, size, n) == Enumerate(blocks, gdims, size)
  {
    AfterValid(items, gdims, base, n);
  }

  lemma AskedSnoc(items: seq<Item>, gdims: seq<nat>, base: int, size: nat, n: nat)
    requires GoodItems(items, gdims) && 0 < n <= |items|
    ensures ValidBlock(Own(items[n - 1], base), gdims)
    ensures Asked(items, gdims, base, size, n) ==
      Asked(items, gdims, base, size, n - 1) + Cover(Own(items[n - 1], base), gdims, size)
  {
    assert GoodItem(items[n - 1], gdims);
  }

  /** Only elements of one byte can make a request seem to continue an earlier one. */
  ghost predicate ContinueInBytes(items: seq<Item>, size: nat) {
    forall i, k :: 0 <= i < k < |items| && items[i].contig && items[k].contig ==>
      items[i].disp + items[i].len == items[k].disp ==> size == 1
  }

  /** A merge, when no run is misplaced: the request before is contiguous too, and elements are bytes. */
  lemma MergeContinues(items: seq<Item>, size: nat, n: nat)
    requires 0 < n <= |items| && !Pushed(items, n) && !Misplaced(items, n)
    requires ContinueInBytes(items, size) && items[n - 1].disp >= 0
    ensures n >= 2 && items[n - 2].contig && size == 1
  {
    var i := LatestContiguous(items, n - 1);
    EndOfLatest(items, n - 1, i);
    if i < n - 2 {
      assert MisplacedRun(items, i, n - 1);
    }
  }

  /** The latest block ends where the latest request does. */
  ghost predicate EndsBlock(items: seq<Item>, base: int, n: nat)
    requires 0 < n <= |items|
  {
    Last(items, base, n).typ.Element? &&
    Last(items, base, n).disp + Last(items, base, n).blocklen == LatestEnd(items, n)
  }

  lemma ElementsJoin(b: Block, disp: int, len: nat, gdims: seq<nat>)
    requires b.typ.Element? && b.disp + b.blocklen == disp
    ensures Cover(b.(blocklen := b.blocklen + len), gdims, 1) ==
      Cover(b, gdims, 1) + Cover(Block(Element, disp, len), gdims, 1)
  {
  }

  lemma PushedDescribed(items: seq<Item>, gdims: seq<nat>, base: int, size: nat, n: nat)
    requires GoodItems(items, gdims) && 0 < n <= |items| && Pushed(items, n)
    requires Described(items, gdims, base, size, n - 1) == Asked(items, gdims, base, size, n - 1)
    ensures Described(items, gdims, base, size, n) == Asked(items, gdims, base, size, n)
    ensures items[n - 1].contig ==> EndsBlock(items, base, n)
  {
    var before, own := After(items, base, n - 1).blocks, Own(items[n - 1], base);
    PushedBlocks(items, base, n);
    AskedSnoc(items, gdims, base, size, n);
    DescribedIs(items, gdims, base, size, n - 1, before);
    DescribedIs(items, gdims, base, size, n, before + [own]);
    EnumerateSnoc(before, own, gdims, size);
  }

  /** A block list whose last block grows by a run. */
  lemma LastGrows(front: seq<Block>, last: Block, disp: int, len: nat, gdims: seq<nat>)
    requires ValidBlocks(front, gdims) && last.typ.Element? && last.disp + last.blocklen == disp
    ensures ValidBlocks(front + [last], gdims) && ValidBlocks(front + [last.(blocklen := last.blocklen + len)], gdims)
    ensures Enumerate(front + [last.(blocklen := last.blocklen + len)], gdims, 1) ==
      Enumerate(front + [last], gdims, 1) + Cover(Block(Element, disp, len), gdims, 1)
  {
    var longer := last.(blocklen := last.blocklen + len);
    ElementsJoin(last, disp, len, gdims);
    EnumerateSnoc(front, last, gdims, 1);
    EnumerateSnoc(front, longer, gdims, 1);
    AppendAssociative(Enumerate(front, gdims, 1), Cover(last, gdims, 1), Cover(Block(Element, disp, len), gdims, 1));
  }

  lemma MergedEndsBlock(items: seq<Item>, base: int, n: nat)
    requires 1 < n <= |items| && !Pushed(items, n) && EndsBlock(items, base, n - 1)
    ensures EndsBlock(items, base, n)
  {
    var front, last := MergedBlocks(items, base, n);
  }

  lemma RunJoins(front: seq<Block>, last: Block, it: Item, gdims: seq<nat>, base: int)
    requires ValidBlocks(front + [last], gdims) && last.typ.Element?
    requires it.contig && last.disp + last.blocklen == it.disp
    ensures ValidBlocks(front + [last.(blocklen := last.blocklen + it.len)], gdims)
    ensures Enumerate(front + [last.(blocklen := last.blocklen + it.len)], gdims, 1) ==
      Enumerate(front + [last], gdims, 1) + Cover(Own(it, base), gdims, 1)
  {
    FrontValid(front, last, gdims);
    LastGrows(front, last, it.disp, it.len, gdims);
  }

  /** The block list before and after a merge. */
  lemma MergedParts(items: seq<Item>, gdims: seq<nat>, base: int, n: nat) returns (front: seq<Block>, last: Block)
    requires GoodItems(items, gdims) && 1 < n <= |items| && !Pushed(items, n) && EndsBlock(items, base, n - 1)
    ensures last.typ.Element? && items[n - 1].contig && last.disp + last.blocklen == items[n - 1].disp
    ensures ValidBlocks(front + [last], gdims)
    ensures Described(items, gdims, base, 1, n - 1) == Enumerate(front + [last], gdims, 1)
    ensures ValidBlocks(front + [last.(blocklen := last.blocklen + items[n - 1].len)], gdims)
    ensures Described(items, gdims, base, 1, n) ==
      Enumerate(front + [last.(blocklen := last.blocklen + items[n - 1].len)], gdims, 1)
  {
    front, last := MergedBlocks(items, base, n);
    DescribedIs(items, gdims, base, 1, n - 1, front + [last]);
    DescribedIs(items, gdims, base, 1, n, front + [last.(blocklen := last.blocklen + items[n - 1].len)]);
  }

  lemma MergedGrows(items: seq<Item>, gdims: seq<nat>, base: int, n: nat)
    requires GoodItems(items, gdims) && 1 < n <= |items| && !Pushed(items, n) && EndsBlock(items, base, n - 1)
    ensures ValidBlock(Own(items[n - 1], base), gdims)
    ensures Described(items, gdims, base, 1, n) ==
      Described(items, gdims, base, 1, n - 1) + Cover(Own(items[n - 1], base), gdims, 1)
  {
    var front, last := MergedParts(items, gdims, base, n);
    RunJoins(front, last, items[n - 1], gdims, base);
  }

  lemma MergedDescribed(items: seq<Item>, gdims: seq<nat>, base: int, n: nat)
    requires GoodItems(items, gdims) && 1 < n <= |items| && !Pushed(items, n) && EndsBlock(items, base, n - 1)
    requires Described(items, gdims, base, 1, n - 1) == Asked(items, gdims, base, 1, n - 1)
    ensures Described(items, gdims, base, 1, n) == Asked(items, gdims, base, 1, n)
  {
    MergedGrows(items, gdims, base, n);
    AskedSnoc(items, gdims, base, 1, n);
  }

  lemma {:induction false} DescribesAsked(items: seq<Item>, gdims: seq<nat>, base: int, size: nat, n: nat)
    requires GoodItems(items, gdims) && ContinueInBytes(items, size) && n <= |items| && !Misplaced(items, n)
    ensures Described(items, gdims, base, size, n) == Asked(items, gdims, base, size, n)
    ensures n > 0 && items[n - 1].contig ==> EndsBlock(items, base, n)
    decreases n
  {
    if n == 0 {
    } else {
      assert !Misplaced(items, n - 1);
      DescribesAsked(items, gdims, base, size, n - 1);
      if Pushed(items, n) {
        PushedDescribed(items, gdims, base, size, n);
      } else {
        assert GoodItem(items[n - 1], gdims);
        MergeContinues(items, size, n);
        MergedDescribed(items, gdims, base, n);
        MergedEndsBlock(items, base, n);
      }
    }
  }

  lemma OwnLength(it: Item, gdims: seq<nat>, base: int, size: nat)
    requires GoodItem(it, gdims)
    ensures ValidBlock(Own(it, base), gdims) && |Cover(Own(it, base), gdims, size)| == it.len
  {
    CoverSize(Own(it, base), gdims, size);
  }

  lemma LengthSnoc(items: seq<Item>, gdims: seq<nat>, base: int, size: nat, n: nat)
    requires GoodItems(items, gdims) && 0 < n <= |items|
    ensures |Asked(items, gdims, base, size, n)| == |Asked(items, gdims, base, size, n - 1)| + items[n - 1].len
  {
    AskedSnoc(items, gdims, base, size, n);
    OwnLength(items[n - 1], gdims, base, size);
  }

  lemma {:induction false} AskedLength(items: seq<Item>, gdims: seq<nat>, base: int, size: nat, n: nat)
    requires GoodItems(items, gdims) && n <= |items|
    ensures |Asked(items, gdims, base, size, n)| == SumLen(items, n)
    decreases n
  {
    if n == 0 {
    } else {
      AskedLength(items, gdims, base, size, n - 1);
      LengthSnoc(items, gdims, base, size, n);
    }
  }

  /** Coalescing keeps the meaning of the requests exactly when no run is misplaced. */
  lemma DescriptionExact(items: seq<Item>, gdims: seq<nat>, base: int, size: nat)
    requires GoodItems(items, gdims) && ContinueInBytes(items, size)
    ensures Described(items, gdims, base, size, |items|) == Asked(items, gdims, base, size, |items|)
      <==> !Misplaced(items, |items|)
  {
    if Misplaced(items, |items|) {
      MisplacedIsTooLong(items, gdims, base, |items|);
      AfterValid(items, gdims, base, |items|);
      EnumerateSize(After(items, base, |items|).blocks, gdims, size);
      AskedLength(items, gdims, base, size, |items|);
    } else {
      DescribesAsked(items, gdims, base, size, |items|);
    }
  }
}

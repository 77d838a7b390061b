/**
 * The all-to-all exchange of the distributed sample sort: every rank computes, from
 * the gathered block sizes, what it sends to and receives from every other rank.
 */
module Exchange {
  import opened Sequences

  /** What one rank passes to `MPI_Alltoallv`. */
  datatype Layout = Layout(
    sendcounts: seq<nat>, sdispls: seq<nat>, recvcounts: seq<nat>, rdispls: seq<nat>, recvTotal: nat)

  /** `MPI_Allgather` of equally long contributions: every rank gets them in rank order. */
  function Allgather<T>(contributions: seq<seq<T>>): seq<T> {
    Flatten(contributions)
  }

  lemma {:induction false} SumOfEqual(s: seq<nat>, width: nat)
    requires forall i :: 0 <= i < |s| ==> s[i] == width
    ensures Sum(s) == |s| * width
  {
    if s == [] {
    } else {
      SumOfEqual(s[1..], width);
    }
  }

  /** Contribution `i` of a gather occupies the `i`-th row of the result. */
  lemma AllgatherRow<T>(rows: seq<seq<T>>, width: nat, i: nat, j: nat)
    requires forall r :: 0 <= r < |rows| ==> |rows[r]| == width
    requires i < |rows| && j < width
    ensures |Allgather(rows)| == |rows| * width
    ensures 0 <= i * width + j < |rows| * width
    ensures Allgather(rows)[i * width + j] == rows[i][j]
  {
    FlattenLength(rows);
    SumOfEqual(Lengths(rows), width);
    FlattenIndex(rows, i, j);
    SumOfEqual(Lengths(rows)[..i], width);
  }

  lemma RowIndex(i: nat, j: nat, size: nat)
    requires i < size && j < size
    ensures 0 <= i * size + j < size * size && i * size == size * i
  {
    assert i * size <= (size - 1) * size;
    assert (size - 1) * size + size == size * size;
  }

  /** The number of elements rank `from` sends to rank `to`. */
  function BlockSize(blockSizes: seq<nat>, size: nat, from: nat, to: nat): nat
    requires |blockSizes| == size * size && from < size && to < size
  {
    RowIndex(from, to, size);
    blockSizes[from * size + to]
  }

  /** The displacements of `displs` place blocks of sizes `counts` one after the other, without gap or overlap. */
  ghost predicate Tiles(counts: seq<nat>, displs: seq<nat>) {
    |displs| == |counts| && forall i :: 0 <= i < |counts| ==> displs[i] == Sum(counts[..i])
  }

  ghost predicate IsLayout(l: Layout, rank: nat, size: nat, blockSizes: seq<nat>)
    requires |blockSizes| == size * size && rank < size
  {
    |l.sendcounts| == |l.recvcounts| == size &&
    (forall i :: 0 <= i < size ==> l.sendcounts[i] == BlockSize(blockSizes, size, rank, i)) &&
    (forall i :: 0 <= i < size ==> l.recvcounts[i] == BlockSize(blockSizes, size, i, rank)) &&
    Tiles(l.sendcounts, l.sdispls) && Tiles(l.recvcounts, l.rdispls) &&
    l.recvTotal == Sum(l.recvcounts)
  }

  lemma TilesSnoc(counts: seq<nat>, displs: seq<nat>, n: nat)
    requires Tiles(counts, displs)
    ensures Tiles(counts + [n], displs + [Sum(counts)])
    ensures Sum(counts + [n]) == Sum(counts) + n
  {
    SumAppend(counts, [n]);
    forall i | 0 <= i <= |counts|
      ensures (displs + [Sum(counts)])[i] == Sum((counts + [n])[..i])
    {
      assert (counts + [n])[..i] == counts[..i];
      assert counts[..|counts|] == counts;
    }
  }

  /** The loop that fills one rank's count and displacement arrays with running positions. */
  method ExchangeLayout(rank: nat, size: nat, blockSizes: seq<nat>) returns (l: Layout)
    requires |blockSizes| == size * size && rank < size
    ensures IsLayout(l, rank, size, blockSizes)
  {
    var sendPos, recvPos := 0, 0;
    var sendcounts, sdispls, recvcounts, rdispls: seq<nat> := [], [], [], [];
    var i := 0;
    while i < size
      invariant 0 <= i <= size
      invariant |sendcounts| == |recvcounts| == i
      invariant forall j :: 0 <= j < i ==> sendcounts[j] == BlockSize(blockSizes, size, rank, j)
      invariant forall j :: 0 <= j < i ==> recvcounts[j] == BlockSize(blockSizes, size, j, rank)
      invariant Tiles(sendcounts, sdispls) && sendPos == Sum(sendcounts)
      invariant Tiles(recvcounts, rdispls) && recvPos == Sum(recvcounts)
    {
      RowIndex(rank, i, size);
      RowIndex(i, rank, size);
      TilesSnoc(sendcounts, sdispls, blockSizes[rank * size + i]);
      TilesSnoc(recvcounts, rdispls, blockSizes[rank + size * i]);
      sendcounts := sendcounts + [blockSizes[rank * size + i]];
      sdispls := sdispls + [sendPos];
      sendPos := sendPos + blockSizes[rank * size + i];
      recvcounts := recvcounts + [blockSizes[rank + size * i]];
      rdispls := rdispls + [recvPos];
      recvPos := recvPos + blockSizes[rank + size * i];
      i := i + 1;
    }
    l := Layout(sendcounts, sdispls, recvcounts, rdispls, recvPos);
  }

  /**
   * What `MPI_Alltoallv` demands: rank j sends to rank r as many elements as r expects
   * from j, out of its own buffer, and the receive buffer is exactly tiled.
   */
  ghost predicate WellMatched(send: seq<seq<int>>, layouts: seq<Layout>) {
    |layouts| == |send| &&
    (forall r :: 0 <= r < |send| ==>
      |layouts[r].sendcounts| == |layouts[r].sdispls| == |layouts[r].recvcounts| == |send| &&
      Tiles(layouts[r].recvcounts, layouts[r].rdispls) && layouts[r].recvTotal == Sum(layouts[r].recvcounts)) &&
    (forall r, j :: 0 <= r < |send| && 0 <= j < |send| ==>
      layouts[j].sendcounts[r] == layouts[r].recvcounts[j] &&
      layouts[j].sdispls[r] + layouts[j].sendcounts[r] <= |send[j]|)
  }

  function SentBlock(send: seq<seq<int>>, layouts: seq<Layout>, from: nat, to: nat): seq<int>
    requires WellMatched(send, layouts) && from < |send| && to < |send|
  {
    assert layouts[from].sendcounts[to] == layouts[to].recvcounts[from];
    send[from][layouts[from].sdispls[to]..layouts[from].sdispls[to] + layouts[from].sendcounts[to]]
  }

  function Received(send: seq<seq<int>>, layouts: seq<Layout>, rank: nat): seq<seq<int>>
    requires WellMatched(send, layouts) && rank < |send|
  {
    seq(|send|, j requires 0 <= j < |send| => SentBlock(send, layouts, j, rank))
  }

  /** The receive buffers after `MPI_Alltoallv`. */
  function Alltoallv(send: seq<seq<int>>, layouts: seq<Layout>): (recv: seq<seq<int>>)
    requires WellMatched(send, layouts)
    ensures |recv| == |send|
  {
    seq(|send|, r requires 0 <= r < |send| => Flatten(Received(send, layouts, r)))
  }

  /** The block from rank `j` lands at the receive displacement that rank `r` reserved for it. */
  lemma AlltoallvPlaces(send: seq<seq<int>>, layouts: seq<Layout>, r: nat, j: nat, k: nat)
    requires WellMatched(send, layouts) && r < |send| && j < |send|
    requires k < layouts[r].recvcounts[j]
    ensures |Alltoallv(send, layouts)[r]| == layouts[r].recvTotal
    ensures layouts[r].rdispls[j] + k < layouts[r].recvTotal
    ensures Alltoallv(send, layouts)[r][layouts[r].rdispls[j] + k] == send[j][layouts[j].sdispls[r] + k]
  {
    var blocks := Received(send, layouts, r);
    assert forall i :: 0 <= i < |send| ==> blocks[i] == SentBlock(send, layouts, i, r);
    assert Lengths(blocks) == layouts[r].recvcounts;
    FlattenLength(blocks);
    FlattenIndex(blocks, j, k);
  }
}

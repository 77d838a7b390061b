/**
 * The fill values that the box rearranger puts into the IO buffer before the data arrives: they are laid out
 * at the stride of the largest IO task, the data at the stride of the task itself.
 */
module BoxFill {
  import opened Hyperslabs
  import opened Sequences

  /** One row of equal values for every variable. */
  function Rows(fillvalue: seq<Value>, width: nat): (r: seq<seq<Value>>)
    ensures |r| == |fillvalue|
  {
    seq(|fillvalue|, nv requires 0 <= nv < |fillvalue| => seq(width, _ => fillvalue[nv]))
  }

  method InsertRow(iobuf: array<Value>, at: nat, width: nat, value: Value)
    requires at + width <= iobuf.Length
    modifies iobuf
    ensures iobuf[..at] == old(iobuf[..at]) && iobuf[at..at + width] == seq(width, _ => value)
  {
    for i := 0 to width
      invariant iobuf[..at] == old(iobuf[..at])
      invariant forall k :: at <= k < at + i ==> iobuf[k] == value
    {
      iobuf[i + at] := value;
    }
  }

  /** The rows of the first `nv` variables are in the buffer. */
  ghost predicate RowsInserted(buf: seq<Value>, fillvalue: seq<Value>, width: nat, nv: nat)
    requires nv <= |fillvalue|
  {
    0 <= nv * width <= |buf| && buf[..nv * width] == Flatten(Rows(fillvalue, width)[..nv])
  }

  lemma NextRowInserted(was: seq<Value>, buf: seq<Value>, fillvalue: seq<Value>, width: nat, nv: nat)
    requires nv < |fillvalue| && |was| == |buf| == |fillvalue| * width && RowsInserted(was, fillvalue, width, nv)
    requires 0 <= nv * width <= nv * width + width <= |buf|
    requires buf[..nv * width] == was[..nv * width]
    requires buf[nv * width..nv * width + width] == Rows(fillvalue, width)[nv]
    ensures RowsInserted(buf, fillvalue, width, nv + 1)
  {
    var rows := Rows(fillvalue, width);
    assert rows[..nv + 1] == rows[..nv] + [rows[nv]];
    FlattenSnoc(rows[..nv], rows[nv]);
    NextRow(nv + 1, width);
    assert buf[..nv * width + width] == buf[..nv * width] + buf[nv * width..nv * width + width];
  }

  /** The loops that insert the fill values. */
  method InsertFill(iobuf: array<Value>, fillvalue: seq<Value>, maxiobuflen: nat)
    requires iobuf.Length == |fillvalue| * maxiobuflen
    modifies iobuf
    ensures iobuf[..] == Flatten(Rows(fillvalue, maxiobuflen))
  {
    for nv := 0 to |fillvalue|
      invariant RowsInserted(iobuf[..], fillvalue, maxiobuflen, nv)
    {
      ghost var was := iobuf[..];
      RowBounds(nv, |fillvalue|, maxiobuflen);
      InsertRow(iobuf, nv * maxiobuflen, maxiobuflen, fillvalue[nv]);
      NextRowInserted(was, iobuf[..], fillvalue, maxiobuflen, nv);
    }
    assert Rows(fillvalue, maxiobuflen)[..|fillvalue|] == Rows(fillvalue, maxiobuflen);
  }

  function Place(nv: nat, llen: nat, k: nat): nat {
    nv * llen + k
  }

  /** Every element of every variable, where the writers look for it, holds the variable's fill value. */
  ghost predicate HolesFilled(buf: seq<Value>, fillvalue: seq<Value>, llen: nat) {
    forall nv, k :: 0 <= nv < |fillvalue| && 0 <= k < llen ==>
      Place(nv, llen, k) < |buf| && buf[Place(nv, llen, k)] == fillvalue[nv]
  }

  ghost predicate AlwaysFilled(nvars: nat, maxiobuflen: nat, llen: nat) {
    forall fillvalue: seq<Value> :: |fillvalue| == nvars ==>
      HolesFilled(Flatten(Rows(fillvalue, maxiobuflen)), fillvalue, llen)
  }

  lemma RowHolds(fillvalue: seq<Value>, width: nat, nv: nat, k: nat)
    requires nv < |fillvalue| && k < width
    ensures nv * width + k < |Flatten(Rows(fillvalue, width))|
    ensures Flatten(Rows(fillvalue, width))[nv * width + k] == fillvalue[nv]
  {
    var buf, at := Flatten(Rows(fillvalue, width)), nv * width;
    FlattenRow(Rows(fillvalue, width), width, nv);
    assert buf[at..at + width][k] == buf[at + k];
  }

  lemma SameStrideFilled(fillvalue: seq<Value>, maxiobuflen: nat, llen: nat)
    requires llen <= maxiobuflen && (|fillvalue| <= 1 || llen == maxiobuflen)
    ensures HolesFilled(Flatten(Rows(fillvalue, maxiobuflen)), fillvalue, llen)
  {
    forall nv, k | 0 <= nv < |fillvalue| && 0 <= k < llen
      ensures Place(nv, llen, k) < |Flatten(Rows(fillvalue, maxiobuflen))|
      ensures Flatten(Rows(fillvalue, maxiobuflen))[Place(nv, llen, k)] == fillvalue[nv]
    {
      RowHolds(fillvalue, maxiobuflen, nv, k);
      assert Place(nv, llen, k) == nv * maxiobuflen + k;
    }
  }

  lemma ShorterTaskMixed(nvars: nat, maxiobuflen: nat, llen: nat)
    requires nvars > 1 && 0 < llen < maxiobuflen
    ensures !AlwaysFilled(nvars, maxiobuflen, llen)
  {
    var fillvalue: seq<Value> := seq(nvars, nv => nv);
    RowHolds(fillvalue, maxiobuflen, 0, llen);
    assert Place(1, llen, 0) == llen;
    assert !HolesFilled(Flatten(Rows(fillvalue, maxiobuflen)), fillvalue, llen);
  }

  /**
   * A task's holes get the fill values of their own variables, whatever these are, exactly when one variable is
   * written, or the task has as much data as the largest one, or none.
   */
  lemma FillExact(nvars: nat, maxiobuflen: nat, llen: nat)
    requires llen <= maxiobuflen
    ensures AlwaysFilled(nvars, maxiobuflen, llen) <==> nvars <= 1 || llen == maxiobuflen || llen == 0
  {
    if nvars <= 1 || llen == maxiobuflen {
      forall fillvalue: seq<Value> | |fillvalue| == nvars
        ensures HolesFilled(Flatten(Rows(fillvalue, maxiobuflen)), fillvalue, llen)
      {
        SameStrideFilled(fillvalue, maxiobuflen, llen);
      }
    } else if llen > 0 {
      ShorterTaskMixed(nvars, maxiobuflen, llen);
    }
  }
}

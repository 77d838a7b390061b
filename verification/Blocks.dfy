/**
 * Redistribution of blocks: `m[j][r]` is the block that goes from rank j to rank r.
 * Reading the blocks by receiver yields the same elements as reading them by sender.
 */
module Blocks {
  import opened Sequences

  /** All elements of all members of `ss`. */
  ghost function Bag(ss: seq<seq<int>>): multiset<int> {
    if ss == [] then multiset{} else multiset(ss[0]) + Bag(ss[1..])
  }

  lemma {:induction false} FlattenBag(ss: seq<seq<int>>)
    ensures multiset(Flatten(ss)) == Bag(ss)
  {
    if ss == [] {
    } else {
      FlattenBag(ss[1..]);
    }
  }

  lemma {:induction false} BagSnoc(ss: seq<seq<int>>, x: seq<int>)
    ensures Bag(ss + [x]) == Bag(ss) + multiset(x)
  {
    if ss == [] {
      assert ss + [x] == [x];
      assert Bag([x]) == multiset(x) + Bag([]);
    } else {
      assert (ss + [x])[1..] == ss[1..] + [x];
      BagSnoc(ss[1..], x);
    }
  }

  lemma {:induction false} BagEqual(a: seq<seq<int>>, b: seq<seq<int>>)
    requires |a| == |b|
    requires forall r :: 0 <= r < |a| ==> multiset(a[r]) == multiset(b[r])
    ensures Bag(a) == Bag(b)
  {
    if a == [] {
    } else {
      BagEqual(a[1..], b[1..]);
    }
  }

  lemma {:induction false} BagPairwise(a: seq<seq<int>>, b: seq<seq<int>>, c: seq<seq<int>>)
    requires |a| == |b| == |c|
    requires forall i :: 0 <= i < |a| ==> multiset(c[i]) == multiset(a[i]) + multiset(b[i])
    ensures Bag(c) == Bag(a) + Bag(b)
  {
    if a == [] {
    } else {
      BagPairwise(a[1..], b[1..], c[1..]);
    }
  }

  lemma {:induction false} BagOfEmpties(a: seq<seq<int>>)
    requires forall i :: 0 <= i < |a| ==> a[i] == []
    ensures Bag(a) == multiset{}
  {
    if a == [] {
    } else {
      BagOfEmpties(a[1..]);
    }
  }

  ghost predicate Square(m: seq<seq<seq<int>>>, n: nat) {
    |m| <= n && forall j :: 0 <= j < |m| ==> |m[j]| == n
  }

  /** The blocks for rank `to`, in sender order. */
  function Column(m: seq<seq<seq<int>>>, n: nat, to: nat): (r: seq<seq<int>>)
    requires Square(m, n) && to < n
    ensures |r| == |m|
  {
    seq(|m|, j requires 0 <= j < |m| => m[j][to])
  }

  /** What every rank receives. */
  ghost function ByReceiver(m: seq<seq<seq<int>>>, n: nat): (r: seq<seq<int>>)
    requires Square(m, n)
    ensures |r| == n
  {
    seq(n, to requires 0 <= to < n => Flatten(Column(m, n, to)))
  }

  /** What every rank sends. */
  ghost function BySender(m: seq<seq<seq<int>>>): (r: seq<seq<int>>)
    ensures |r| == |m|
  {
    seq(|m|, j requires 0 <= j < |m| => Flatten(m[j]))
  }

  lemma ColumnSnoc(m: seq<seq<seq<int>>>, n: nat, to: nat)
    requires Square(m, n) && to < n && m != []
    ensures Flatten(Column(m, n, to)) == Flatten(Column(m[..|m| - 1], n, to)) + m[|m| - 1][to]
  {
    var k := |m| - 1;
    assert Column(m, n, to) == Column(m[..k], n, to) + [m[k][to]];
    FlattenSnoc(Column(m[..k], n, to), m[k][to]);
  }

  lemma ReceiversGain(m: seq<seq<seq<int>>>, n: nat)
    requires Square(m, n) && m != []
    ensures Bag(ByReceiver(m, n)) == Bag(ByReceiver(m[..|m| - 1], n)) + Bag(m[|m| - 1])
  {
    var k := |m| - 1;
    forall to | 0 <= to < n
      ensures multiset(ByReceiver(m, n)[to]) == multiset(ByReceiver(m[..k], n)[to]) + multiset(m[k][to])
    {
      ColumnSnoc(m, n, to);
    }
    BagPairwise(ByReceiver(m[..k], n), m[k], ByReceiver(m, n));
  }

  /** Whatever is sent is received: redistribution conserves the elements. */
  lemma {:induction false} RedistributionConserves(m: seq<seq<seq<int>>>, n: nat)
    requires Square(m, n)
    ensures Bag(ByReceiver(m, n)) == Bag(BySender(m))
    decreases |m|
  {
    if m == [] {
      BagOfEmpties(ByReceiver(m, n));
    } else {
      var k := |m| - 1;
      RedistributionConserves(m[..k], n);
      ReceiversGain(m, n);
      assert BySender(m) == BySender(m[..k]) + [Flatten(m[k])];
      BagSnoc(BySender(m[..k]), Flatten(m[k]));
      FlattenBag(m[k]);
    }
  }
}

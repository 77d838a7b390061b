/** The global duplicate check: sort across the ranks, then compare neighbours on each rank. */
module UniqueCheck {
  import opened Sequences
  import opened Partitioning
  import opened Blocks
  import opened SampleSort

  /** Some value other than 0 occurs more than once in `s`. */
  ghost predicate Repeats(s: seq<int>) {
    exists x :: x != 0 && multiset(s)[x] >= 2
  }

  lemma {:induction false} TwoPositions(s: seq<int>, x: int)
    ensures multiset(s)[x] >= 2 <==> exists i, j :: 0 <= i < j < |s| && s[i] == x && s[j] == x
  {
    if s == [] {
    } else {
      TwoPositions(s[1..], x);
      var t := s[1..];
      assert s == [s[0]] + t;
      if multiset(s)[x] >= 2 {
        if s[0] == x {
          assert x in multiset(t);
          var j :| 0 <= j < |t| && t[j] == x;
          assert s[0] == x && s[j + 1] == x;
        } else {
          var i, j :| 0 <= i < j < |t| && t[i] == x && t[j] == x;
          assert s[i + 1] == x && s[j + 1] == x;
        }
      }
      if i, j :| 0 <= i < j < |s| && s[i] == x && s[j] == x {
        assert t[j - 1] in multiset(t);
        if i > 0 {
          assert t[i - 1] == x && t[j - 1] == x;
        }
      }
    }
  }

  /** A non-zero element equals its left neighbour. */
  ghost predicate EqualNeighbours(s: seq<int>) {
    exists i :: 0 < i < |s| && s[i] != 0 && s[i] == s[i - 1]
  }

  /** In sorted data, repeated values are neighbours. */
  lemma RepeatsAreNeighbours(s: seq<int>)
    requires Sorted(s)
    ensures Repeats(s) <==> EqualNeighbours(s)
  {
    if Repeats(s) {
      var x :| x != 0 && multiset(s)[x] >= 2;
      TwoPositions(s, x);
      var i, j :| 0 <= i < j < |s| && s[i] == x && s[j] == x;
      assert s[i] <= s[j - 1] <= s[j];
    }
    if i :| 0 < i < |s| && s[i] != 0 && s[i] == s[i - 1] {
      TwoPositions(s, s[i]);
    }
  }

  /** Whether sorted local data has no repeated value, zeros aside. The assertion checks the order of neighbours. */
  method IsUnique(v: seq<int>) returns (unique: bool)
    requires Sorted(v)
    ensures unique <==> !Repeats(v)
  {
    RepeatsAreNeighbours(v);
    if |v| == 1 {
      return true;
    }
    var i := 1;
    while i < |v|
      invariant 1 <= i
      invariant forall k :: 0 < k < i && k < |v| && v[k] != 0 ==> v[k] != v[k - 1]
    {
      if v[i] != 0 {
        assert v[i] >= v[i - 1];
        if v[i] == v[i - 1] {
          return false;
        }
      }
      i := i + 1;
    }
    return true;
  }

  lemma {:induction false} CountAcrossRanks(out: seq<seq<int>>, x: int)
    ensures Bag(out)[x] >= 1 ==> exists r :: 0 <= r < |out| && x in out[r]
    ensures forall r :: 0 <= r < |out| ==> multiset(out[r])[x] <= Bag(out)[x]
  {
    if out == [] {
    } else {
      CountAcrossRanks(out[1..], x);
      if multiset(out[0])[x] >= 1 {
        assert x in out[0];
      } else if Bag(out)[x] >= 1 {
        var r :| 0 <= r < |out[1..]| && x in out[1..][r];
        assert x in out[r + 1];
      }
    }
  }

  lemma {:induction false} CountsMeetOnOneRank(out: seq<seq<int>>, x: int, r: nat)
    requires r < |out|
    requires forall j :: 0 <= j < |out| && j != r ==> x !in out[j]
    ensures Bag(out)[x] == multiset(out[r])[x]
  {
    if r > 0 {
      assert forall j :: 0 <= j < |out[1..]| && j != r - 1 ==> x !in out[1..][j];
      assert x !in multiset(out[0]);
      CountsMeetOnOneRank(out[1..], x, r - 1);
    } else {
      CountAcrossRanks(out[1..], x);
      assert forall j :: 0 <= j < |out[1..]| ==> x !in out[1..][j];
    }
  }

  /** A value repeats globally exactly when it repeats on some rank: bins keep equal values together. */
  lemma RepeatsLocally(out: seq<seq<int>>, pivots: seq<int>)
    requires RankHoldsBin(out, pivots)
    ensures Repeats(Flatten(out)) <==> exists r :: 0 <= r < |out| && Repeats(out[r])
  {
    FlattenBag(out);
    if x :| x != 0 && Bag(out)[x] >= 2 {
      CountAcrossRanks(out, x);
      var r :| 0 <= r < |out| && x in out[r];
      forall j | 0 <= j < |out| && j != r ensures x !in out[j] {
        if x in out[j] {
          BinIsUnique(pivots, x, r, j);
        }
      }
      CountsMeetOnOneRank(out, x, r);
      assert Repeats(out[r]);
    }
    if r :| 0 <= r < |out| && Repeats(out[r]) {
      var x :| x != 0 && multiset(out[r])[x] >= 2;
      CountAcrossRanks(out, x);
    }
  }

  /** `MPI_Allreduce` with `MPI_MAX`. */
  function AllreduceMax(contributions: seq<int>): int
    requires contributions != []
  {
    if |contributions| == 1 then contributions[0]
    else
      var rest := AllreduceMax(contributions[1..]);
      if contributions[0] < rest then rest else contributions[0]
  }

  lemma {:induction false} AllreduceMaxPositive(c: seq<int>)
    requires c != []
    ensures AllreduceMax(c) > 0 <==> exists r :: 0 <= r < |c| && c[r] > 0
  {
    if |c| > 1 {
      AllreduceMaxPositive(c[1..]);
      if r :| 0 <= r < |c| && c[r] > 0 {
        if r > 0 {
          assert c[1..][r - 1] > 0;
        }
      }
      if r :| 0 <= r < |c[1..]| && c[1..][r] > 0 {
        assert c[r + 1] > 0;
      }
    } else if AllreduceMax(c) > 0 {
      assert c[0] > 0;
    }
  }

  method LocalVerdicts(sorted: seq<seq<int>>) returns (verdicts: seq<int>)
    requires forall r :: 0 <= r < |sorted| ==> Sorted(sorted[r])
    ensures |verdicts| == |sorted|
    ensures forall r :: 0 <= r < |sorted| ==> (verdicts[r] > 0 <==> Repeats(sorted[r]))
  {
    verdicts := [];
    var r := 0;
    while r < |sorted|
      invariant 0 <= r <= |sorted| && |verdicts| == r
      invariant forall j :: 0 <= j < r ==> (verdicts[j] > 0 <==> Repeats(sorted[j]))
    {
      var unique := IsUnique(sorted[r]);
      verdicts := verdicts + [if unique then 0 else 1];
      r := r + 1;
    }
  }

  /** All ranks learn whether a non-zero value occurs at two different positions anywhere. */
  method RunUniqueCheck(v: seq<array<int>>, picks: seq<seq<nat>>) returns (hasDups: bool)
    requires Distributed(v, picks)
    modifies v
    ensures hasDups <==> Repeats(Flatten(old(Contents(v))))
  {
    var sorted, pivots := ParallelSort(v, picks);
    var verdicts := LocalVerdicts(sorted);
    RepeatsLocally(sorted, pivots);
    AllreduceMaxPositive(verdicts);
    hasDups := AllreduceMax(verdicts) > 0;
  }
}

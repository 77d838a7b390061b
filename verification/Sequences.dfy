/** Facts about sequences, and about rows of equal width, that several components share. */
module Sequences {
  /** The concatenation of the members of `ss`, in order. */
  function Flatten<T>(ss: seq<seq<T>>): seq<T> {
    if ss == [] then [] else ss[0] + Flatten(ss[1..])
  }

  function Sum(s: seq<nat>): nat {
    if s == [] then 0 else s[0] + Sum(s[1..])
  }

  /** The largest member; 0 for none. */
  function Max(s: seq<nat>): (r: nat)
    ensures forall i :: 0 <= i < |s| ==> s[i] <= r
    ensures s != [] ==> r in s
  {
    if s == [] then 0
    else
      var rest := Max(s[1..]);
      if |s| > 1 && rest >= s[0] then rest else s[0]
  }

  function Zeros(n: nat): (r: seq<nat>)
    ensures |r| == n && forall i :: 0 <= i < n ==> r[i] == 0
  {
    seq(n, _ => 0)
  }

  function Lengths<T>(ss: seq<seq<T>>): (r: seq<nat>)
    ensures |r| == |ss|
  {
    seq(|ss|, i requires 0 <= i < |ss| => |ss[i]|)
  }

  lemma AppendAssociative<T>(a: seq<T>, b: seq<T>, c: seq<T>)
    ensures a + (b + c) == (a + b) + c
  {
  }

  lemma {:induction false} SumAppend(s: seq<nat>, t: seq<nat>)
    ensures Sum(s + t) == Sum(s) + Sum(t)
  {
    if s == [] {
      assert s + t == t;
    } else {
      assert (s + t)[1..] == s[1..] + t;
      SumAppend(s[1..], t);
    }
  }

  lemma SumSnoc(s: seq<nat>, i: nat)
    requires i < |s|
    ensures Sum(s[..i + 1]) == Sum(s[..i]) + s[i]
  {
    assert s[..i + 1] == s[..i] + [s[i]];
    SumAppend(s[..i], [s[i]]);
  }

  lemma SumTakeMonotone(s: seq<nat>, i: nat, j: nat)
    requires i <= j <= |s|
    ensures Sum(s[..i]) <= Sum(s[..j])
    decreases j - i
  {
    if i == j {
    } else {
      SumSnoc(s, j - 1);
      SumTakeMonotone(s, i, j - 1);
    }
  }

  lemma {:induction false} FlattenAppend<T>(s: seq<seq<T>>, t: seq<seq<T>>)
    ensures Flatten(s + t) == Flatten(s) + Flatten(t)
  {
    if s == [] {
      assert s + t == t;
    } else {
      assert (s + t)[1..] == s[1..] + t;
      FlattenAppend(s[1..], t);
      assert s[0] + (Flatten(s[1..]) + Flatten(t)) == (s[0] + Flatten(s[1..])) + Flatten(t);
    }
  }

  lemma FlattenSnoc<T>(s: seq<seq<T>>, x: seq<T>)
    ensures Flatten(s + [x]) == Flatten(s) + x
  {
    FlattenAppend(s, [x]);
    assert Flatten([x]) == x + Flatten<T>([]);
    assert Flatten([x]) == x;
  }

  lemma {:induction false} FlattenLength<T>(ss: seq<seq<T>>)
    ensures |Flatten(ss)| == Sum(Lengths(ss))
  {
    if ss == [] {
    } else {
      assert Lengths(ss)[1..] == Lengths(ss[1..]);
      FlattenLength(ss[1..]);
    }
  }

  /** Element `k` of member `i` sits right after all earlier members. */
  lemma {:induction false} FlattenIndex<T>(ss: seq<seq<T>>, i: nat, k: nat)
    requires i < |ss| && k < |ss[i]|
    ensures Sum(Lengths(ss)[..i]) + k < |Flatten(ss)|
    ensures Flatten(ss)[Sum(Lengths(ss)[..i]) + k] == ss[i][k]
  {
    if i == 0 {
    } else {
      assert Lengths(ss)[1..] == Lengths(ss[1..]);
      assert Lengths(ss)[..i][1..] == Lengths(ss[1..])[..i - 1];
      FlattenIndex(ss[1..], i - 1, k);
    }
  }

  /** Every position of a flattened sequence comes from some member. */
  lemma {:induction false} FlattenSource<T>(ss: seq<seq<T>>, p: nat) returns (i: nat, k: nat)
    requires p < |Flatten(ss)|
    ensures i < |ss| && k < |ss[i]| && p == Sum(Lengths(ss)[..i]) + k
    ensures Flatten(ss)[p] == ss[i][k]
  {
    if p < |ss[0]| {
      i, k := 0, p;
    } else {
      var i', k' := FlattenSource(ss[1..], p - |ss[0]|);
      assert Lengths(ss)[1..] == Lengths(ss[1..]);
      assert Lengths(ss)[..i' + 1][1..] == Lengths(ss[1..])[..i'];
      i, k := i' + 1, k';
    }
  }

  lemma {:induction false} InFlatten<T>(ss: seq<seq<T>>, x: T)
    ensures x in Flatten(ss) <==> exists i :: 0 <= i < |ss| && x in ss[i]
  {
    if ss == [] {
    } else {
      InFlatten(ss[1..], x);
      assert ss == [ss[0]] + ss[1..];
      if x in Flatten(ss) {
        if x !in ss[0] {
          var i :| 0 <= i < |ss[1..]| && x in ss[1..][i];
          assert x in ss[i + 1];
        }
      }
      if i :| 0 <= i < |ss| && x in ss[i] {
        if i > 0 {
          assert x in ss[1..][i - 1];
        }
      }
    }
  }

  lemma MulMonotone(n: nat, a: nat, b: nat)
    requires a <= b
    ensures 0 <= n * a <= n * b
  {
  }

  lemma RowBounds(i: nat, n: nat, width: nat)
    requires i < n
    ensures 0 <= i * width <= i * width + width <= n * width
  {
    assert n * width == i * width + width + (n - i - 1) * width;
  }

  lemma NextRow(i: nat, width: nat)
    requires i > 0
    ensures 0 <= (i - 1) * width && i * width == width + (i - 1) * width
  {
  }

  lemma SliceOfSum<T>(a: seq<T>, b: seq<T>, i: nat, j: nat)
    requires i <= j <= |b|
    ensures (a + b)[|a| + i..|a| + j] == b[i..j]
  {
  }

  lemma {:induction false} FlattenWidth<T>(rows: seq<seq<T>>, width: nat)
    requires forall r :: 0 <= r < |rows| ==> |rows[r]| == width
    ensures |Flatten(rows)| == |rows| * width
  {
    if rows == [] {
    } else {
      FlattenWidth(rows[1..], width);
    }
  }

  /** Rows of equal width, stored one after the other, are found at multiples of the width. */
  lemma {:induction false} FlattenRow<T>(rows: seq<seq<T>>, width: nat, i: nat)
    requires forall r :: 0 <= r < |rows| ==> |rows[r]| == width
    requires i < |rows|
    ensures |Flatten(rows)| == |rows| * width
    ensures 0 <= i * width <= i * width + width <= |Flatten(rows)|
    ensures Flatten(rows)[i * width..i * width + width] == rows[i]
  {
    FlattenWidth(rows, width);
    RowBounds(i, |rows|, width);
    if i == 0 {
    } else {
      FlattenRow(rows[1..], width, i - 1);
      NextRow(i, width);
      SliceOfSum(rows[0], Flatten(rows[1..]), (i - 1) * width, (i - 1) * width + width);
    }
  }

  lemma SliceOfSlice<T>(a: seq<T>, lo: nat, hi: nat, i: nat, j: nat)
    requires lo <= hi <= |a| && i <= j <= hi - lo
    ensures a[lo..hi][i..j] == a[lo + i..lo + j]
  {
    var whole := a[lo..hi];
    forall k | 0 <= k < j - i ensures whole[i..j][k] == a[lo + i..lo + j][k] {
      assert whole[i + k] == a[lo + i + k];
    }
  }

  lemma TakeSnoc<T>(a: seq<T>, x: T)
    ensures (a + [x])[..|a|] == a
  {
  }

  lemma SliceOfPrefix<T>(a: seq<T>, n: nat, i: nat, j: nat)
    requires i <= j <= n <= |a|
    ensures a[..n][i..j] == a[i..j]
  {
  }
}

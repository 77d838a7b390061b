/**
 * Interleavings of the puts of several tasks. Each task's puts keep their order; what a file holds under a key
 * depends only on the puts that touch the key, in their order.
 */
module Interleaving {
  import opened Sequences
  import opened Hyperslabs
  import opened ParallelWriter

  ghost predicate AllPutsValid(puts: seq<Put>) {
    forall p :: p in puts ==> ValidPut(p)
  }

  ghost predicate Touches(p: Put, k: Key) {
    ValidPut(p) && k in Patch(p)
  }

  /** The puts that touch a key, in their order. */
  ghost function Touching(puts: seq<Put>, k: Key): seq<Put> {
    if puts == [] then []
    else Touching(puts[..|puts| - 1], k) + if Touches(puts[|puts| - 1], k) then [puts[|puts| - 1]] else []
  }

  lemma TouchingSnoc(puts: seq<Put>, p: Put, k: Key)
    ensures Touching(puts + [p], k) == Touching(puts, k) + if Touches(p, k) then [p] else []
  {
    assert (puts + [p])[..|puts|] == puts;
  }

  lemma {:induction false} TouchingAppend(a: seq<Put>, b: seq<Put>, k: Key)
    ensures Touching(a + b, k) == Touching(a, k) + Touching(b, k)
  {
    if b == [] {
      assert a + b == a;
    } else {
      var n := |b| - 1;
      assert a + b == (a + b[..n]) + [b[n]];
      TouchingAppend(a, b[..n], k);
      TouchingSnoc(a + b[..n], b[n], k);
    }
  }

  lemma {:induction false} TouchingMember(puts: seq<Put>, k: Key) returns (p: Put)
    requires Touching(puts, k) != []
    ensures p in puts && Touches(p, k)
  {
    var n := |puts| - 1;
    if Touches(puts[n], k) {
      p := puts[n];
    } else {
      p := TouchingMember(puts[..n], k);
    }
  }

  predicate EndsWith(puts: seq<Put>, p: Put) {
    puts != [] && puts[|puts| - 1] == p
  }

  /** The last put that touches a key ends the puts that touch it. */
  lemma {:induction false} LastToucher(puts: seq<Put>, i: nat, k: Key)
    requires i < |puts| && Touches(puts[i], k) && forall j :: i < j < |puts| ==> !Touches(puts[j], k)
    ensures EndsWith(Touching(puts, k), puts[i])
  {
    if i == |puts| - 1 {
    } else {
      LastToucher(puts[..|puts| - 1], i, k);
    }
  }

  lemma {:induction false} TouchingNonEmpty(puts: seq<Put>, k: Key)
    ensures Touching(NonEmpty(puts), k) == Touching(puts, k)
  {
    if puts == [] {
    } else {
      var n := |puts| - 1;
      TouchingNonEmpty(puts[..n], k);
      if EmptyPut(puts[n]) {
        assert NonEmpty(puts) == NonEmpty(puts[..n]);
        if ValidPut(puts[n]) {
          EmptyPatch(puts[n]);
        }
        assert Touching(puts, k) == Touching(puts[..n], k);
      } else {
        TouchingSnoc(NonEmpty(puts[..n]), puts[n], k);
      }
    }
  }

  lemma {:induction false} TouchingValid(puts: seq<Put>, k: Key)
    ensures AllPutsValid(Touching(puts, k))
  {
    if puts == [] {
    } else {
      TouchingValid(puts[..|puts| - 1], k);
    }
  }

  /** Two files agree on a key. */
  predicate AgreeOn(a: FileData, b: FileData, k: Key) {
    (k in a <==> k in b) && (k in a && k in b ==> a[k] == b[k])
  }

  lemma AgreeAfterPut(a: FileData, b: FileData, p: Put, k: Key)
    requires ValidPut(p) && AgreeOn(a, b, k)
    ensures k in Patch(p) ==> AgreeOn(a + Patch(p), b + Patch(p), k)
    ensures k !in Patch(p) ==> AgreeOn(a + Patch(p), b, k)
  {
  }

  lemma TouchingStep(file: FileData, puts: seq<Put>, p: Put, touching: seq<Put>, k: Key)
    requires AllPutsValid(puts) && AllPutsValid(touching) && ValidPut(p)
    requires AgreeOn(ApplyAll(file, puts), ApplyAll(file, touching), k)
    ensures AllPutsValid(puts + [p]) && AllPutsValid(touching + if Touches(p, k) then [p] else [])
    ensures AgreeOn(ApplyAll(file, puts + [p]), ApplyAll(file, touching + if Touches(p, k) then [p] else []), k)
  {
    AgreeAfterPut(ApplyAll(file, puts), ApplyAll(file, touching), p, k);
    ApplyAllSnoc(file, puts, p);
    if Touches(p, k) {
      ApplyAllSnoc(file, touching, p);
    } else {
      assert touching + [] == touching;
    }
  }

  /** The other puts make no difference to the key. */
  lemma {:induction false} TouchingDecides(file: FileData, puts: seq<Put>, k: Key)
    requires AllPutsValid(puts)
    ensures AllPutsValid(Touching(puts, k))
    ensures AgreeOn(ApplyAll(file, puts), ApplyAll(file, Touching(puts, k)), k)
  {
    TouchingValid(puts, k);
    if puts == [] {
    } else {
      var n := |puts| - 1;
      TouchingDecides(file, puts[..n], k);
      TouchingStep(file, puts[..n], puts[n], Touching(puts[..n], k), k);
      assert puts == puts[..n] + [puts[n]];
    }
  }

  lemma SameFile(a: FileData, b: FileData)
    requires forall k: Key :: AgreeOn(a, b, k)
    ensures a == b
  {
    assert forall k: Key :: AgreeOn(a, b, k) ==> (k in a <==> k in b);
  }

  /** Two sequences of puts that treat every key alike leave the same file. */
  lemma SameTouching(file: FileData, a: seq<Put>, b: seq<Put>)
    requires AllPutsValid(a) && AllPutsValid(b) && forall k: Key :: Touching(a, k) == Touching(b, k)
    ensures ApplyAll(file, a) == ApplyAll(file, b)
  {
    forall k: Key ensures AgreeOn(ApplyAll(file, a), ApplyAll(file, b), k) {
      TouchingDecides(file, a, k);
      TouchingDecides(file, b, k);
    }
    SameFile(ApplyAll(file, a), ApplyAll(file, b));
  }

  function WithoutLast(traces: seq<seq<Put>>, t: nat): seq<seq<Put>>
    requires t < |traces| && traces[t] != []
  {
    traces[t := traces[t][..|traces[t]| - 1]]
  }

  /** `merged` is an interleaving of the traces: every call of every task once, and each task's calls in order. */
  ghost predicate Merges(traces: seq<seq<Put>>, merged: seq<Put>)
    decreases |merged|
  {
    if merged == [] then forall t :: 0 <= t < |traces| ==> traces[t] == []
    else
      exists t :: 0 <= t < |traces| && EndsWith(traces[t], merged[|merged| - 1]) &&
        Merges(WithoutLast(traces, t), merged[..|merged| - 1])
  }

  /** If one task alone touches a key, the interleaving touches it as that task does. */
  lemma {:induction false} MergedTouching(traces: seq<seq<Put>>, merged: seq<Put>, k: Key, t: nat)
    requires Merges(traces, merged) && t < |traces|
    requires forall u :: 0 <= u < |traces| && u != t ==> Touching(traces[u], k) == []
    ensures Touching(merged, k) == Touching(traces[t], k)
    decreases |merged|
  {
    if merged == [] {
    } else {
      var n := |merged| - 1;
      var u :| 0 <= u < |traces| && EndsWith(traces[u], merged[n]) && Merges(WithoutLast(traces, u), merged[..n]);
      MergedTouching(WithoutLast(traces, u), merged[..n], k, t);
    }
  }

  lemma {:induction false} FlattenUntouched(parts: seq<seq<Put>>, k: Key)
    requires forall u :: 0 <= u < |parts| ==> Touching(parts[u], k) == []
    ensures Touching(Flatten(parts), k) == []
  {
    if parts == [] {
    } else {
      FlattenUntouched(parts[1..], k);
      TouchingAppend(parts[0], Flatten(parts[1..]), k);
    }
  }

  /** The same for the tasks one after the other. */
  lemma {:induction false} FlattenTouching(parts: seq<seq<Put>>, k: Key, t: nat)
    requires t < |parts| && forall u :: 0 <= u < |parts| && u != t ==> Touching(parts[u], k) == []
    ensures Touching(Flatten(parts), k) == Touching(parts[t], k)
  {
    TouchingAppend(parts[0], Flatten(parts[1..]), k);
    if t == 0 {
      FlattenUntouched(parts[1..], k);
    } else {
      FlattenTouching(parts[1..], k, t - 1);
    }
  }

  lemma {:induction false} MergedMembers(traces: seq<seq<Put>>, merged: seq<Put>, p: Put)
    requires Merges(traces, merged)
    ensures p in merged <==> exists t :: 0 <= t < |traces| && p in traces[t]
    decreases |merged|
  {
    if merged == [] {
    } else {
      var n := |merged| - 1;
      var u :| 0 <= u < |traces| && EndsWith(traces[u], merged[n]) && Merges(WithoutLast(traces, u), merged[..n]);
      var rest := WithoutLast(traces, u);
      MergedMembers(rest, merged[..n], p);
      assert traces[u] == rest[u] + [merged[n]] && merged == merged[..n] + [merged[n]];
      if t :| 0 <= t < |traces| && p in traces[t] {
        assert p == merged[n] || p in rest[t];
      }
      if t :| 0 <= t < |rest| && p in rest[t] {
        assert p in traces[t];
      }
    }
  }
}

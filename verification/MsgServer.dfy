/**
 * The message loop of the asynchronous IO server. Rank 0 keeps one receive outstanding for every
 * computation component; whatever receives `MPI_Waitsome` finds complete, their messages are
 * broadcast to all IO ranks, which handle them one by one, until every component has sent EXIT.
 *
 * A component's messages travel in order, so they are a sequence; it does not matter when they arrive,
 * because the loop is proved for every choice that `MPI_Waitsome` may make.
 */
module MsgServer {
  import opened Sequences

  /** All messages but EXIT are alike to the loop; `code` tells them apart. */
  datatype Msg = Request(code: int) | Exit

  /** A component sends requests and then EXIT, and nothing after that. */
  ghost predicate WellBehaved(sent: seq<Msg>) {
    |sent| > 0 && forall i :: 0 <= i < |sent| ==> (sent[i].Exit? <==> i == |sent| - 1)
  }

  ghost predicate AllWellBehaved(sends: seq<seq<Msg>>) {
    forall c :: 0 <= c < |sends| ==> WellBehaved(sends[c])
  }

  /** What was handled, by which component's message. */
  datatype Handled = Handled(component: nat, msg: Msg)

  /** The messages handled for one component, in order. */
  function Of(handled: seq<Handled>, c: nat): seq<Msg> {
    if handled == [] then []
    else
      var h := handled[|handled| - 1];
      if h.component == c then Of(handled[..|handled| - 1], c) + [h.msg] else Of(handled[..|handled| - 1], c)
  }

  lemma OfSnoc(handled: seq<Handled>, h: Handled, c: nat)
    ensures Of(handled + [h], c) == if h.component == c then Of(handled, c) + [h.msg] else Of(handled, c)
  {
    assert (handled + [h])[..|handled|] == handled;
  }

  function CountTrue(s: seq<bool>): nat {
    if s == [] then 0 else (if s[0] then 1 else 0) + CountTrue(s[1..])
  }

  lemma {:induction false} CountUpdate(s: seq<bool>, i: nat, b: bool)
    requires i < |s|
    ensures CountTrue(s[i := b]) == CountTrue(s) - (if s[i] then 1 else 0) + if b then 1 else 0
  {
    if i == 0 {
      assert s[i := b][1..] == s[1..];
    } else {
      assert s[i := b][1..] == s[1..][i - 1 := b];
      CountUpdate(s[1..], i - 1, b);
    }
  }

  lemma {:induction false} CountZero(s: seq<bool>)
    ensures CountTrue(s) == 0 <==> forall i :: 0 <= i < |s| ==> !s[i]
  {
    if s == [] {
    } else {
      CountZero(s[1..]);
      if forall i :: 0 <= i < |s| ==> !s[i] {
        assert forall i :: 0 <= i < |s[1..]| ==> !s[1..][i] by {
          assert forall i :: 0 <= i < |s[1..]| ==> s[1..][i] == s[i + 1];
        }
      } else {
        var i :| 0 <= i < |s| && s[i];
        if i > 0 {
          assert s[1..][i - 1];
        }
      }
    }
  }

  lemma {:induction false} CountAll(n: nat)
    ensures CountTrue(seq(n, _ => true)) == n
  {
    if n == 0 {
    } else {
      assert seq(n, _ => true)[1..] == seq(n - 1, _ => true);
      CountAll(n - 1);
    }
  }

  // The server between two calls of MPI_Waitsome.

  /** Outstanding receives, messages taken from each component, open components, and what was handled. */
  datatype Server = Server(req: seq<bool>, pos: seq<nat>, open: int, handled: seq<Handled>)

  function Start(components: nat): Server {
    Server(seq(components, _ => true), seq(components, _ => 0), components, [])
  }

  ghost predicate Valid(sends: seq<seq<Msg>>, s: Server) {
    |s.req| == |s.pos| == |sends| && s.open == CountTrue(s.req) &&
    forall c :: 0 <= c < |sends| ==>
      s.pos[c] <= |sends[c]| && (s.req[c] <==> s.pos[c] < |sends[c]|) && Of(s.handled, c) == sends[c][..s.pos[c]]
  }

  /** The next message of an open component is handled. */
  function HandleNext(sends: seq<seq<Msg>>, s: Server, c: nat): Server {
    if !(|s.req| == |s.pos| == |sends| && c < |sends| && s.pos[c] < |sends[c]|) then s else
    var msg := sends[c][s.pos[c]];
    Server(s.req[c := !msg.Exit?], s.pos[c := s.pos[c] + 1], if msg.Exit? then s.open - 1 else s.open,
           s.handled + [Handled(c, msg)])
  }

  lemma HandleNextValid(sends: seq<seq<Msg>>, s: Server, c: nat)
    requires AllWellBehaved(sends) && Valid(sends, s) && c < |sends| && s.req[c]
    ensures Valid(sends, HandleNext(sends, s, c))
  {
    var r := HandleNext(sends, s, c);
    CountUpdate(s.req, c, !sends[c][s.pos[c]].Exit?);
    forall k | 0 <= k < |sends| ensures Of(r.handled, k) == sends[k][..r.pos[k]] {
      OfSnoc(s.handled, Handled(c, sends[c][s.pos[c]]), k);
    }
    assert WellBehaved(sends[c]);
  }

  /** Any choice of outstanding receives, in any order, each once. */
  ghost predicate LegalBatch(s: Server, batch: seq<nat>) {
    batch != [] && (forall i :: 0 <= i < |batch| ==> batch[i] < |s.req| && s.req[batch[i]]) &&
    forall i, j :: 0 <= i < j < |batch| ==> batch[i] != batch[j]
  }

  /** The server after the first `n` messages of a batch. */
  function AfterSome(sends: seq<seq<Msg>>, s: Server, batch: seq<nat>, n: nat): Server
    requires n <= |batch|
  {
    if n == 0 then s else HandleNext(sends, AfterSome(sends, s, batch, n - 1), batch[n - 1])
  }

  /** What remains of a batch after `n` messages is from components that are still open. */
  ghost predicate RestOpen(s: Server, batch: seq<nat>, n: nat) {
    forall i :: n <= i < |batch| ==> batch[i] < |s.req| && s.req[batch[i]]
  }

  lemma RestStaysOpen(sends: seq<seq<Msg>>, s: Server, batch: seq<nat>, n: nat)
    requires n < |batch| && RestOpen(s, batch, n) && |s.req| == |s.pos| == |sends|
    requires forall i :: n < i < |batch| ==> batch[i] != batch[n]
    ensures RestOpen(HandleNext(sends, s, batch[n]), batch, n + 1)
  {
  }

  lemma {:induction false} AfterSomeValid(sends: seq<seq<Msg>>, s: Server, batch: seq<nat>, n: nat)
    requires AllWellBehaved(sends) && Valid(sends, s) && LegalBatch(s, batch) && n <= |batch|
    ensures Valid(sends, AfterSome(sends, s, batch, n)) && RestOpen(AfterSome(sends, s, batch, n), batch, n)
    decreases n
  {
    if n == 0 {
    } else {
      var before := AfterSome(sends, s, batch, n - 1);
      AfterSomeValid(sends, s, batch, n - 1);
      HandleNextValid(sends, before, batch[n - 1]);
      RestStaysOpen(sends, before, batch, n - 1);
    }
  }

  lemma NextIsOpen(sends: seq<seq<Msg>>, s: Server, batch: seq<nat>, n: nat)
    requires AllWellBehaved(sends) && Valid(sends, s) && LegalBatch(s, batch) && n < |batch|
    ensures Valid(sends, AfterSome(sends, s, batch, n)) && AfterSome(sends, s, batch, n).req[batch[n]]
    ensures AfterSome(sends, s, batch, n).open > 0
  {
    AfterSomeValid(sends, s, batch, n);
    CountZero(AfterSome(sends, s, batch, n).req);
  }

  ghost predicate IsStep(sends: seq<seq<Msg>>, s: Server, batch: seq<nat>, r: Server) {
    s.open > 0 && LegalBatch(s, batch) && r == AfterSome(sends, s, batch, |batch|)
  }

  /** `states[i]` is the server before batch `i`; the loop goes on as long as a component is open. */
  ghost predicate IsRun(sends: seq<seq<Msg>>, batches: seq<seq<nat>>, states: seq<Server>) {
    |states| == |batches| + 1 && states[0] == Start(|sends|) &&
    forall i :: 0 <= i < |batches| ==> IsStep(sends, states[i], batches[i], states[i + 1])
  }

  /**
   * At the top of the loop exactly the open components have a receive outstanding, and every component's
   * messages have been handled in the order sent, without loss.
   */
  lemma {:induction false} OutstandingAreOpen(
    sends: seq<seq<Msg>>, batches: seq<seq<nat>>, states: seq<Server>, n: nat)
    requires AllWellBehaved(sends) && IsRun(sends, batches, states) && n <= |batches|
    ensures Valid(sends, states[n])
    decreases n
  {
    if n == 0 {
      CountAll(|sends|);
    } else {
      OutstandingAreOpen(sends, batches, states, n - 1);
      assert IsStep(sends, states[n - 1], batches[n - 1], states[n]);
      AfterSomeValid(sends, states[n - 1], batches[n - 1], |batches[n - 1]|);
    }
  }

  /** No component is open exactly when every component's EXIT, and so everything it sent, has been handled. */
  lemma ClosedMeansAllHandled(sends: seq<seq<Msg>>, s: Server)
    requires AllWellBehaved(sends) && Valid(sends, s)
    ensures s.open == 0 <==> forall c :: 0 <= c < |sends| ==> Of(s.handled, c) == sends[c]
    ensures s.open == 0 <==> forall c :: 0 <= c < |sends| ==> Exit in Of(s.handled, c)
    ensures s.open == 0 ==> forall c :: 0 <= c < |sends| ==> !s.req[c]
  {
    CountZero(s.req);
    forall c | 0 <= c < |sends|
      ensures !s.req[c] <==> Of(s.handled, c) == sends[c]
      ensures !s.req[c] <==> Exit in Of(s.handled, c)
    {
      assert WellBehaved(sends[c]);
      if s.req[c] {
        assert |Of(s.handled, c)| < |sends[c]|;
      } else {
        assert sends[c][..s.pos[c]] == sends[c];
        assert sends[c][|sends[c]| - 1] == Exit;
      }
    }
  }

  /** When the last component closes, its message is the last of its batch: no completed receive is left over. */
  lemma ClosingEndsBatch(sends: seq<seq<Msg>>, s: Server, batch: seq<nat>, n: nat)
    requires AllWellBehaved(sends) && Valid(sends, s) && LegalBatch(s, batch) && n <= |batch|
    requires AfterSome(sends, s, batch, n).open == 0
    ensures n == |batch|
  {
    if n < |batch| {
      NextIsOpen(sends, s, batch, n);
    }
  }

  // How many messages are left; the loop ends because every batch takes some.

  function LeftOf(sends: seq<seq<Msg>>, pos: seq<nat>): (r: seq<nat>)
    requires |pos| == |sends|
    ensures |r| == |sends|
  {
    seq(|sends|, c requires 0 <= c < |sends| => if pos[c] <= |sends[c]| then |sends[c]| - pos[c] else 0)
  }

  lemma {:induction false} SumLess(s: seq<nat>, i: nat)
    requires i < |s| && s[i] > 0
    ensures Sum(s[i := s[i] - 1]) == Sum(s) - 1
  {
    if i == 0 {
      assert s[i := s[i] - 1][1..] == s[1..];
    } else {
      assert s[i := s[i] - 1][1..] == s[1..][i - 1 := s[i] - 1];
      SumLess(s[1..], i - 1);
    }
  }

  function Left(sends: seq<seq<Msg>>, s: Server): nat {
    if |s.pos| == |sends| then Sum(LeftOf(sends, s.pos)) else 0
  }

  lemma OneLess(sends: seq<seq<Msg>>, s: Server, c: nat)
    requires AllWellBehaved(sends) && Valid(sends, s) && c < |sends| && s.req[c]
    ensures Left(sends, HandleNext(sends, s, c)) == Left(sends, s) - 1
  {
    var left := LeftOf(sends, s.pos);
    assert LeftOf(sends, HandleNext(sends, s, c).pos) == left[c := left[c] - 1];
    SumLess(left, c);
  }

  lemma TakesNext(sends: seq<seq<Msg>>, s: Server, batch: seq<nat>, n: nat)
    requires AllWellBehaved(sends) && Valid(sends, s) && LegalBatch(s, batch) && 0 < n <= |batch|
    ensures Left(sends, AfterSome(sends, s, batch, n)) == Left(sends, AfterSome(sends, s, batch, n - 1)) - 1
  {
    NextIsOpen(sends, s, batch, n - 1);
    OneLess(sends, AfterSome(sends, s, batch, n - 1), batch[n - 1]);
  }

  lemma {:induction false} BatchTakesSome(sends: seq<seq<Msg>>, s: Server, batch: seq<nat>, n: nat)
    requires AllWellBehaved(sends) && Valid(sends, s) && LegalBatch(s, batch) && n <= |batch|
    ensures Left(sends, AfterSome(sends, s, batch, n)) == Left(sends, s) - n
    decreases n
  {
    if n == 0 {
    } else {
      BatchTakesSome(sends, s, batch, n - 1);
      TakesNext(sends, s, batch, n);
    }
  }

  // The loop as the IO ranks run it.

  /** The variables of one rank that every rank keeps for itself. */
  datatype IoRank = IoRank(openComponents: int, finalize: int, handled: seq<Handled>)

  /** Rank 0's receives: which are outstanding, what the others delivered, and how far each component is read. */
  datatype Receives = Receives(req: seq<bool>, messages: seq<Msg>, pos: seq<nat>)

  /** Receives in the middle of a batch: the rest of the batch is completed but not handled yet. */
  ghost predicate Mid(sends: seq<seq<Msg>>, a: Server, rest: seq<nat>, v: Receives) {
    |a.req| == |a.pos| == |v.req| == |v.messages| == |v.pos| == |sends| &&
    (forall c :: 0 <= c < |sends| && c !in rest ==> v.req[c] == a.req[c] && v.pos[c] == a.pos[c]) &&
    forall c :: 0 <= c < |sends| && c in rest ==>
      !v.req[c] && v.pos[c] == a.pos[c] + 1 && a.pos[c] < |sends[c]| && v.messages[c] == sends[c][a.pos[c]]
  }

  /**
   * Completes some outstanding receives. Only the contract matters: any choice, in any order, meets it; the
   * body makes the smallest choice.
   */
  method Waitsome(sends: seq<seq<Msg>>, ghost s: Server, v: Receives) returns (index: seq<nat>, r: Receives)
    requires Valid(sends, s) && s.open > 0 && Mid(sends, s, [], v)
    ensures LegalBatch(s, index) && Mid(sends, s, index, r)
  {
    CountZero(s.req);
    var c := 0;
    while !v.req[c]
      invariant 0 <= c < |v.req| && forall k :: 0 <= k < c ==> !v.req[k]
      decreases |v.req| - c
    {
      c := c + 1;
    }
    index := [c];
    r := Receives(v.req[c := false], v.messages[c := sends[c][v.pos[c]]], v.pos[c := v.pos[c] + 1]);
  }

  method HandleMessage(rank: IoRank, idx: nat, msg: Msg) returns (r: IoRank)
    ensures r == IoRank(rank.openComponents, if msg.Exit? then rank.finalize + 1 else rank.finalize,
                        rank.handled + [Handled(idx, msg)])
  {
    r := rank;
    r := r.(handled := r.handled + [Handled(idx, msg)]);
    match msg
    case Exit => r := r.(finalize := r.finalize + 1);
    case Request(_) =>
  }

  method NoteClosed(rank: IoRank) returns (r: IoRank)
    ensures r == if rank.finalize == 0 then rank
                 else rank.(openComponents := rank.openComponents - 1,
                            finalize := if rank.openComponents != 1 then 0 else rank.finalize)
  {
    r := rank;
    if r.finalize != 0 {
      r := r.(openComponents := r.openComponents - 1);
      if r.openComponents != 0 {
        r := r.(finalize := 0);
      }
    }
  }

  ghost predicate AllRanks(io: seq<IoRank>, rank: IoRank) {
    forall r :: 0 <= r < |io| ==> io[r] == rank
  }

  method HandleOnAll(io: seq<IoRank>, idx: nat, msg: Msg, ghost rank: IoRank) returns (r: seq<IoRank>)
    requires AllRanks(io, rank)
    ensures |r| == |io| && AllRanks(r, IoRank(rank.openComponents,
      if msg.Exit? then rank.finalize + 1 else rank.finalize, rank.handled + [Handled(idx, msg)]))
  {
    r := io;
    for k := 0 to |io|
      invariant |r| == |io| && forall j :: k <= j < |io| ==> r[j] == io[j]
      invariant forall j :: 0 <= j < k ==> r[j] == IoRank(rank.openComponents,
        if msg.Exit? then rank.finalize + 1 else rank.finalize, rank.handled + [Handled(idx, msg)])
    {
      var rk := HandleMessage(r[k], idx, msg);
      r := r[k := rk];
    }
  }

  method CloseOnAll(io: seq<IoRank>, ghost rank: IoRank) returns (r: seq<IoRank>)
    requires AllRanks(io, rank) && rank.openComponents > 0
    ensures |r| == |io| && AllRanks(r, if rank.finalize == 0 then rank else IoRank(rank.openComponents - 1,
      if rank.openComponents > 1 then 0 else rank.finalize, rank.handled))
  {
    r := io;
    for k := 0 to |io|
      invariant |r| == |io| && forall j :: k <= j < |io| ==> r[j] == io[j]
      invariant forall j :: 0 <= j < k ==> r[j] == if rank.finalize == 0 then rank else
        IoRank(rank.openComponents - 1, if rank.openComponents > 1 then 0 else rank.finalize, rank.handled)
    {
      var rk := NoteClosed(r[k]);
      r := r[k := rk];
    }
  }

  lemma NextMessage(sends: seq<seq<Msg>>, a: Server, idx: nat, rest: seq<nat>, v: Receives)
    requires idx < |sends| && idx in rest && Mid(sends, a, rest, v)
    ensures var msg := v.messages[idx];
      HandleNext(sends, a, idx) ==
      Server(a.req[idx := !msg.Exit?], a.pos[idx := a.pos[idx] + 1], if msg.Exit? then a.open - 1 else a.open,
             a.handled + [Handled(idx, msg)])
  {
  }

  /** Handling one message leaves the receives right for the rest of the batch. */
  lemma MidNext(sends: seq<seq<Msg>>, a: Server, idx: nat, rest: seq<nat>, v: Receives)
    requires idx < |sends| && idx !in rest && Mid(sends, a, [idx] + rest, v)
    ensures Mid(sends, HandleNext(sends, a, idx), rest,
      if v.messages[idx].Exit? then v else v.(req := v.req[idx := true]))
  {
    NextMessage(sends, a, idx, [idx] + rest, v);
    assert forall c :: c in [idx] + rest <==> c == idx || c in rest;
  }

  lemma RestOfBatch(s: Server, batch: seq<nat>, n: nat)
    requires LegalBatch(s, batch) && n < |batch|
    ensures batch[n..] == [batch[n]] + batch[n + 1..] && batch[n] !in batch[n + 1..]
  {
  }

  lemma MidStep(sends: seq<seq<Msg>>, s: Server, batch: seq<nat>, n: nat, v: Receives)
    requires AllWellBehaved(sends) && Valid(sends, s) && LegalBatch(s, batch) && n < |batch|
    requires Mid(sends, AfterSome(sends, s, batch, n), batch[n..], v)
    ensures var idx, a, b := batch[n], AfterSome(sends, s, batch, n), AfterSome(sends, s, batch, n + 1);
      idx < |sends| == |v.messages| == |v.req| && a.open > 0 &&
      b.handled == a.handled + [Handled(idx, v.messages[idx])] &&
      b.open == (if v.messages[idx].Exit? then a.open - 1 else a.open)
    ensures var idx := batch[n]; Mid(sends, AfterSome(sends, s, batch, n + 1), batch[n + 1..],
      if v.messages[idx].Exit? then v else v.(req := v.req[idx := true]))
  {
    var idx, a := batch[n], AfterSome(sends, s, batch, n);
    NextIsOpen(sends, s, batch, n);
    RestOfBatch(s, batch, n);
    NextMessage(sends, a, idx, batch[n..], v);
    MidNext(sends, a, idx, batch[n + 1..], v);
  }

  /** In the middle of a batch, the server `a` having handled what came before. */
  ghost predicate InBatch(sends: seq<seq<Msg>>, a: Server, rest: seq<nat>, io: seq<IoRank>, v: Receives) {
    Mid(sends, a, rest, v) && AllRanks(io, IoRank(a.open, 0, a.handled)) && a.open > 0
  }

  /** What one message does. */
  method HandleOne(
    sends: seq<seq<Msg>>, ghost s: Server, io: seq<IoRank>, index: seq<nat>, creq: nat, v: Receives)
    returns (io': seq<IoRank>, r: Receives, finalize: bool)
    requires AllWellBehaved(sends) && Valid(sends, s) && LegalBatch(s, index) && |io| > 0 && creq < |index|
    requires InBatch(sends, AfterSome(sends, s, index, creq), index[creq..], io, v)
    ensures |io'| == |io| && Mid(sends, AfterSome(sends, s, index, creq + 1), index[creq + 1..], r)
    ensures var b := AfterSome(sends, s, index, creq + 1);
      AllRanks(io', IoRank(b.open, if b.open == 0 then 1 else 0, b.handled)) && b.open >= 0 &&
      (finalize <==> b.open == 0)
  {
    ghost var a := AfterSome(sends, s, index, creq);
    MidStep(sends, s, index, creq, v);
    var idx := index[creq];
    var msg := v.messages[idx];
    io', r := io, v;
    io' := HandleOnAll(io', idx, msg, IoRank(a.open, 0, a.handled));
    if io'[0].finalize == 0 {
      r := r.(req := r.req[idx := true]);
    }
    io' := CloseOnAll(io', IoRank(a.open, if msg.Exit? then 1 else 0, a.handled + [Handled(idx, msg)]));
    finalize := io'[0].finalize != 0;
  }

  /** The messages of one batch, up to the one that closes the last component. */
  method HandleBatch(
    sends: seq<seq<Msg>>, ghost s: Server, io: seq<IoRank>, index: seq<nat>, v: Receives)
    returns (io': seq<IoRank>, r: Receives, finalize: bool)
    requires AllWellBehaved(sends) && Valid(sends, s) && LegalBatch(s, index) && |io| > 0
    requires InBatch(sends, s, index, io, v)
    ensures |io'| == |io| && Mid(sends, AfterSome(sends, s, index, |index|), [], r)
    ensures var a := AfterSome(sends, s, index, |index|);
      AllRanks(io', IoRank(a.open, if a.open == 0 then 1 else 0, a.handled)) && a.open >= 0 &&
      (finalize <==> a.open == 0)
  {
    io', r := io, v;
    finalize := false;
    var creq := 0;
    assert index[0..] == index;
    while creq < |index|
      invariant 0 <= creq <= |index| && |io'| == |io| && !finalize
      invariant InBatch(sends, AfterSome(sends, s, index, creq), index[creq..], io', r)
    {
      io', r, finalize := HandleOne(sends, s, io', index, creq, r);
      if finalize {
        ClosingEndsBatch(sends, s, index, creq + 1);
        return;
      }
      creq := creq + 1;
    }
  }

  /** The first receives, one for every component. */
  method PostReceives(sends: seq<seq<Msg>>) returns (v: Receives)
    ensures Mid(sends, Start(|sends|), [], v)
  {
    var componentCount := |sends|;
    v := Receives(seq(componentCount, _ => false), seq(componentCount, _ => Exit), seq(componentCount, _ => 0));
    for cmp := 0 to componentCount
      invariant |v.req| == componentCount && forall c :: 0 <= c < cmp ==> v.req[c]
      invariant v.messages == seq(componentCount, _ => Exit) && v.pos == seq(componentCount, _ => 0)
    {
      v := v.(req := v.req[cmp := true]);
    }
  }

  lemma RunSnoc(sends: seq<seq<Msg>>, batches: seq<seq<nat>>, states: seq<Server>, batch: seq<nat>, r: Server)
    requires IsRun(sends, batches, states) && IsStep(sends, states[|batches|], batch, r)
    ensures IsRun(sends, batches + [batch], states + [r])
  {
    var bs, ss := batches + [batch], states + [r];
    forall i | 0 <= i < |bs| ensures IsStep(sends, ss[i], bs[i], ss[i + 1]) {
      if i < |batches| {
        assert IsStep(sends, states[i], batches[i], states[i + 1]);
      }
    }
  }

  /**
   * The loop. Whatever `MPI_Waitsome` chooses, all IO ranks handle one common sequence of messages, and they
   * leave the loop together, when the last component is closed. `batches` are the choices made.
   */
  method PioMsgHandler2(sends: seq<seq<Msg>>, ranks: nat)
    returns (io: seq<IoRank>, batches: seq<seq<nat>>, ghost states: seq<Server>)
    requires AllWellBehaved(sends) && |sends| > 0 && ranks > 0
    ensures IsRun(sends, batches, states) && states[|batches|].open == 0
    ensures |io| == ranks && forall r :: 0 <= r < ranks ==> io[r].handled == states[|batches|].handled
    ensures forall r, c :: 0 <= r < ranks && 0 <= c < |sends| ==> Of(io[r].handled, c) == sends[c]
  {
    var v := PostReceives(sends);
    io := seq(ranks, _ => IoRank(|sends|, 0, []));
    ghost var s := Start(|sends|);
    batches, states := [], [s];
    OutstandingAreOpen(sends, batches, states, 0);
    var finalize := false;
    while !finalize
      invariant IsRun(sends, batches, states) && s == states[|batches|] && Valid(sends, s)
      invariant |io| == ranks && Mid(sends, s, [], v) && (finalize <==> s.open == 0) && s.open >= 0
      invariant AllRanks(io, IoRank(s.open, if finalize then 1 else 0, s.handled))
      decreases Left(sends, s), !finalize
    {
      var index;
      index, v := Waitsome(sends, s, v);
      io, v, finalize := HandleBatch(sends, s, io, index, v);
      AfterSomeValid(sends, s, index, |index|);
      BatchTakesSome(sends, s, index, |index|);
      RunSnoc(sends, batches, states, index, AfterSome(sends, s, index, |index|));
      s := AfterSome(sends, s, index, |index|);
      batches, states := batches + [index], states + [s];
    }
    ClosedMeansAllHandled(sends, s);
  }
}

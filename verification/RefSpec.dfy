/** Reference counting of dynamic events (qf_dyn.c, qf_actq.c, qf_qeq.c, qf_defer.c,
    qf_ps.c) as a state machine whose steps are the critical sections of the source.

    `holds` are the references in the hands of running code that the source accounts
    for with the counter: an event taken from a queue and not yet garbage-collected, an
    event being published, and those made by Q_NEW_REF.  A freshly allocated event has
    counter 0 and belongs to its creator until it is posted. */
module RefSpec {

  type Evt = nat

  /** The poolId_ and refCtr_ attributes. */
  datatype Attr = Attr(poolId: nat, refCtr: nat)

  /** `live` holds the allocated dynamic events, `free` the free blocks of each pool,
      and `queues` the contents of all event queues, raw ones included. */
  datatype Sys = Sys(live: map<Evt, Attr>, free: seq<set<Evt>>, queues: seq<seq<Evt>>, holds: multiset<Evt>)

  /** Occurrences in all queues. */
  ghost function Total(queues: seq<seq<Evt>>): multiset<Evt> {
    if queues == [] then multiset{} else multiset(queues[0]) + Total(queues[1..])
  }

  lemma {:induction false} TotalUpdate(queues: seq<seq<Evt>>, q: nat, items: seq<Evt>)
    requires q < |queues|
    ensures multiset(queues[q]) <= Total(queues)
    ensures Total(queues[q := items]) == Total(queues) - multiset(queues[q]) + multiset(items)
  {
    var queues' := queues[q := items];
    if q == 0 {
      assert queues'[1..] == queues[1..];
    } else {
      TotalUpdate(queues[1..], q - 1, items);
      assert queues'[1..] == queues[1..][q - 1 := items];
    }
  }

  ghost function Refs(s: Sys, e: Evt): nat {
    Total(s.queues)[e] + s.holds[e]
  }

  /** A block of pool `i` that is not allocated. */
  ghost predicate IsFree(s: Sys, e: Evt) {
    exists i :: 0 <= i < |s.free| && e in s.free[i]
  }

  /** Counters are exact; no free block can be reached through a queue or a holder; the
      free lists are disjoint from each other and from the live events. */
  ghost predicate Inv(s: Sys) {
    && (forall e <- s.live :: s.live[e].refCtr == Refs(s, e))
    && (forall e <- s.live :: 0 < s.live[e].poolId <= |s.free|)
    && (forall i :: 0 <= i < |s.free| ==> forall e <- s.free[i] :: e !in s.live && Refs(s, e) == 0)
    && (forall i, j :: 0 <= i < j < |s.free| ==> s.free[i] !! s.free[j])
  }

  /** Running code may touch an event it holds, one it created and has not posted, or a
      static event, which is neither live nor a pool block. */
  ghost predicate Access(s: Sys, mine: multiset<Evt>, e: Evt) {
    || (s.holds - mine)[e] > 0
    || (e in s.live && s.live[e].refCtr == 0)
    || (e !in s.live && !IsFree(s, e))
  }

  // ------------------------------------------------------------------
  // The critical sections

  /** QF_newX_ with a block of pool `i`. */
  function New(s: Sys, i: nat, e: Evt): Sys
    requires i < |s.free| && e in s.free[i]
  {
    s.(live := s.live[e := Attr(i + 1, 0)], free := s.free[i := s.free[i] - {e}])
  }

  /** QF_EVT_REF_CTR_INC_ on an 8-bit counter, for dynamic events only. */
  function Inc(s: Sys, e: Evt): Sys {
    if e in s.live then s.(live := s.live[e := s.live[e].(refCtr := (s.live[e].refCtr + 1) % 0x100)]) else s
  }

  /** A successful post, FIFO or LIFO. */
  function Enqueue(s: Sys, e: Evt, q: nat, lifo: bool): Sys
    requires q < |s.queues|
  {
    var t := Inc(s, e);
    t.(queues := s.queues[q := if lifo then [e] + s.queues[q] else s.queues[q] + [e]])
  }

  /** A counted reference without a queue: the start of a publication, Q_NEW_REF, and
      the first critical section of a failed QActive_post_. */
  function Hold(s: Sys, e: Evt): Sys {
    Inc(s, e).(holds := s.holds + multiset{e})
  }

  /** QActive_get_ and QEQueue_get on a non-empty queue. */
  function Dequeue(s: Sys, q: nat): Sys
    requires q < |s.queues| && s.queues[q] != []
  {
    s.(queues := s.queues[q := s.queues[q][1..]], holds := s.holds + multiset{s.queues[q][0]})
  }

  /** QF_gc. */
  function Gc(s: Sys, e: Evt): Sys
    requires e in s.live ==> 0 < s.live[e].poolId <= |s.free|
  {
    var t := s.(holds := s.holds - multiset{e});
    if e !in s.live then t
    else if s.live[e].refCtr > 1 then t.(live := s.live[e := s.live[e].(refCtr := s.live[e].refCtr - 1)])
    else
      var i := s.live[e].poolId - 1;
      t.(live := s.live - {e}, free := s.free[i := s.free[i] + {e}])
  }

  /** The last critical section of QActive_recall. */
  function Drop(s: Sys, e: Evt): Sys
    requires e in s.live ==> s.live[e].refCtr > 0
  {
    var t := s.(holds := s.holds - multiset{e});
    if e in s.live then t.(live := s.live[e := s.live[e].(refCtr := s.live[e].refCtr - 1)]) else t
  }

  // ------------------------------------------------------------------
  // Each keeps the counters exact

  lemma NewKeepsInv(s: Sys, i: nat, e: Evt)
    requires Inv(s) && i < |s.free| && e in s.free[i]
    ensures Inv(New(s, i, e))
    ensures !IsFree(New(s, i, e), e)
  {
    var t := New(s, i, e);
    forall x | x in t.live ensures t.live[x].refCtr == Refs(t, x) {
      assert x != e ==> x in s.live;
    }
  }

  lemma TotalAdd(queues: seq<seq<Evt>>, q: nat, e: Evt, lifo: bool)
    requires q < |queues|
    ensures var items := if lifo then [e] + queues[q] else queues[q] + [e];
            Total(queues[q := items]) == Total(queues) + multiset{e}
  {
    var items := if lifo then [e] + queues[q] else queues[q] + [e];
    TotalUpdate(queues, q, items);
    assert multiset(items) == multiset(queues[q]) + multiset{e};
  }

  /** Adding one reference keeps the counters exact if and only if the 8-bit counter
      does not wrap. */
  lemma EnqueueKeepsInv(s: Sys, e: Evt, q: nat, lifo: bool)
    requires Inv(s) && q < |s.queues| && !IsFree(s, e)
    ensures Inv(Enqueue(s, e, q, lifo)) <==> (e in s.live ==> s.live[e].refCtr < 0xFF)
  {
    TotalAdd(s.queues, q, e, lifo);
    AddRefKeepsInv(s, Enqueue(s, e, q, lifo), e);
  }

  lemma HoldKeepsInv(s: Sys, e: Evt)
    requires Inv(s) && !IsFree(s, e)
    ensures Inv(Hold(s, e)) <==> (e in s.live ==> s.live[e].refCtr < 0xFF)
  {
    AddRefKeepsInv(s, Hold(s, e), e);
  }

  lemma AddRefKeepsInv(s: Sys, t: Sys, e: Evt)
    requires Inv(s) && !IsFree(s, e)
    requires t.live == Inc(s, e).live && t.free == s.free
    requires Total(t.queues) + t.holds == Total(s.queues) + s.holds + multiset{e}
    ensures Inv(t) <==> (e in s.live ==> s.live[e].refCtr < 0xFF)
  {
    OneMoreRef(s, t, e);
    if e in s.live ==> s.live[e].refCtr < 0xFF {
      OneMoreKeepsInv(s, t, e);
    } else {
      assert t.live[e].refCtr != Refs(t, e);
    }
  }

  lemma OneMoreRef(s: Sys, t: Sys, e: Evt)
    requires Total(t.queues) + t.holds == Total(s.queues) + s.holds + multiset{e}
    ensures forall x :: Refs(t, x) == Refs(s, x) + if x == e then 1 else 0
  {
    forall x ensures Refs(t, x) == Refs(s, x) + if x == e then 1 else 0 {
      assert Refs(t, x) == (Total(t.queues) + t.holds)[x];
      assert Refs(s, x) == (Total(s.queues) + s.holds)[x];
    }
  }

  lemma OneMoreKeepsInv(s: Sys, t: Sys, e: Evt)
    requires Inv(s) && !IsFree(s, e) && (e in s.live ==> s.live[e].refCtr < 0xFF)
    requires t.live == Inc(s, e).live && t.free == s.free
    requires forall x :: Refs(t, x) == Refs(s, x) + if x == e then 1 else 0
    ensures Inv(t)
  {
    forall x | x in t.live ensures t.live[x].refCtr == Refs(t, x) {
      assert x in s.live;
    }
  }

  lemma DequeueKeepsInv(s: Sys, q: nat)
    requires Inv(s) && q < |s.queues| && s.queues[q] != []
    ensures Inv(Dequeue(s, q))
    ensures forall x :: Refs(Dequeue(s, q), x) == Refs(s, x)
  {
    DequeueKeepsRefs(s, q);
  }

  lemma DequeueKeepsRefs(s: Sys, q: nat)
    requires q < |s.queues| && s.queues[q] != []
    ensures forall x :: Refs(Dequeue(s, q), x) == Refs(s, x)
  {
    var items := s.queues[q];
    TotalUpdate(s.queues, q, items[1..]);
    assert items == [items[0]] + items[1..];
    assert multiset(items) == multiset{items[0]} + multiset(items[1..]);
  }

  /** Recycled exactly when this was the last reference, and then into the pool it came
      from. */
  lemma GcKeepsInv(s: Sys, e: Evt)
    requires Inv(s) && !IsFree(s, e) && (s.holds[e] > 0 || (e in s.live && s.live[e].refCtr == 0) || e !in s.live)
    ensures Inv(Gc(s, e))
    ensures e in s.live ==> (e in Gc(s, e).live <==> Refs(s, e) > 1)
    ensures e in s.live && e !in Gc(s, e).live ==> e in Gc(s, e).free[s.live[e].poolId - 1]
  {
    var t := Gc(s, e);
    assert forall x :: x != e ==> Refs(t, x) == Refs(s, x);
    forall x | x in t.live ensures t.live[x].refCtr == Refs(t, x) {
      assert x in s.live;
    }
  }

  /** Giving up a held reference that is not the last one. */
  lemma DropKeepsInv(s: Sys, e: Evt)
    requires Inv(s) && s.holds[e] > 0 && (e in s.live ==> s.live[e].refCtr >= 2)
    ensures Inv(Drop(s, e))
  {
    var t := Drop(s, e);
    assert forall x :: x != e ==> Refs(t, x) == Refs(s, x);
    forall x | x in t.live ensures t.live[x].refCtr == Refs(t, x) {
      assert x in s.live;
    }
  }

  /** An event found in a queue is never a recycled block. */
  lemma {:induction false} QueuedIsNotFree(s: Sys, q: nat, k: nat)
    requires Inv(s) && q < |s.queues| && k < |s.queues[q]|
    ensures !IsFree(s, s.queues[q][k])
    ensures s.queues[q][k] in s.live ==> s.live[s.queues[q][k]].refCtr > 0
  {
    var e := s.queues[q][k];
    TotalUpdate(s.queues, q, []);
    assert e in multiset(s.queues[q]);
    assert Refs(s, e) > 0;
  }

  // ------------------------------------------------------------------
  // Whole runs

  datatype Op =
    | OpNew(i: nat, e: Evt)
    | OpEnqueue(e: Evt, q: nat, lifo: bool)
    | OpHold(e: Evt)
    | OpDequeue(q: nat)
    | OpGc(e: Evt)
    | OpDrop(e: Evt)

  /** A step that respects the references in `mine`, which belong to someone else. */
  ghost predicate Enabled(s: Sys, mine: multiset<Evt>, op: Op) {
    match op
    case OpNew(i, e) => i < |s.free| && e in s.free[i]
    case OpEnqueue(e, q, _) =>
      q < |s.queues| && Access(s, mine, e) && (e in s.live ==> s.live[e].refCtr < 0xFF)
    case OpHold(e) => Access(s, mine, e) && (e in s.live ==> s.live[e].refCtr < 0xFF)
    case OpDequeue(q) => q < |s.queues| && s.queues[q] != []
    case OpGc(e) => (s.holds - mine)[e] > 0 || (e in s.live && s.live[e].refCtr == 0)
    case OpDrop(e) => (s.holds - mine)[e] > 0 && (e in s.live ==> s.live[e].refCtr >= 2)
  }

  ghost function Apply(s: Sys, mine: multiset<Evt>, op: Op): Sys
    requires Inv(s) && Enabled(s, mine, op)
  {
    match op
    case OpNew(i, e) => New(s, i, e)
    case OpEnqueue(e, q, lifo) => Enqueue(s, e, q, lifo)
    case OpHold(e) => Hold(s, e)
    case OpDequeue(q) => Dequeue(s, q)
    case OpGc(e) => Gc(s, e)
    case OpDrop(e) => Drop(s, e)
  }

  /** The blocks of pool `i`, free and allocated. */
  ghost function PoolBlocks(s: Sys, i: nat): set<Evt>
    requires i < |s.free|
  {
    s.free[i] + set e | e in s.live && s.live[e].poolId == i + 1
  }

  lemma AccessIsNotFree(s: Sys, mine: multiset<Evt>, e: Evt)
    requires Inv(s) && mine <= s.holds && Access(s, mine, e)
    ensures !IsFree(s, e)
  {
    if (s.holds - mine)[e] > 0 {
      assert Refs(s, e) > 0;
    }
  }

  /** One step keeps the counters exact, conserves the blocks of every pool, and leaves
      alone what others hold. */
  lemma StepKeepsInv(s: Sys, mine: multiset<Evt>, op: Op)
    requires Inv(s) && mine <= s.holds && Enabled(s, mine, op)
    ensures Inv(Apply(s, mine, op))
    ensures mine <= Apply(s, mine, op).holds
    ensures |Apply(s, mine, op).queues| == |s.queues| && |Apply(s, mine, op).free| == |s.free|
  {
    match op
    case OpNew(i, e) => NewKeepsInv(s, i, e);
    case OpEnqueue(e, q, lifo) => AccessIsNotFree(s, mine, e); EnqueueKeepsInv(s, e, q, lifo);
    case OpHold(e) => AccessIsNotFree(s, mine, e); HoldKeepsInv(s, e);
    case OpDequeue(q) => DequeueKeepsInv(s, q);
    case OpGc(e) => GcKeepsInv(s, e);
    case OpDrop(e) => DropKeepsInv(s, e);
  }

  lemma StepConservesBlocks(s: Sys, mine: multiset<Evt>, op: Op, i: nat)
    requires Inv(s) && mine <= s.holds && Enabled(s, mine, op) && i < |s.free|
    ensures |Apply(s, mine, op).free| == |s.free|
    ensures PoolBlocks(Apply(s, mine, op), i) == PoolBlocks(s, i)
  {
    match op
    case OpNew(j, e) =>
      if i == j {
        assert PoolBlocks(New(s, j, e), i) == PoolBlocks(s, i);
      }
    case OpEnqueue(e, q, lifo) => IncConservesBlocks(s, e, i);
    case OpHold(e) => IncConservesBlocks(s, e, i);
    case OpDequeue(q) =>
    case OpGc(e) => GcConservesBlocks(s, e, i);
    case OpDrop(e) =>
  }

  lemma IncConservesBlocks(s: Sys, e: Evt, i: nat)
    requires i < |s.free|
    ensures PoolBlocks(Inc(s, e), i) == PoolBlocks(s, i)
  {
  }

  lemma GcConservesBlocks(s: Sys, e: Evt, i: nat)
    requires (e in s.live ==> 0 < s.live[e].poolId <= |s.free|) && i < |s.free|
    ensures |Gc(s, e).free| == |s.free| && PoolBlocks(Gc(s, e), i) == PoolBlocks(s, i)
  {
    var t := Gc(s, e);
    assert t.live.Keys <= s.live.Keys;
    forall x ensures x in PoolBlocks(t, i) <==> x in PoolBlocks(s, i) {
      if x != e {
        assert x in t.live <==> x in s.live;
      }
    }
  }

  /** An event with a reference in `mine` is not recycled under its holder. */
  lemma StepKeepsHeldLive(s: Sys, mine: multiset<Evt>, op: Op, e: Evt)
    requires Inv(s) && mine <= s.holds && Enabled(s, mine, op) && mine[e] > 0
    ensures e in s.live <==> e in Apply(s, mine, op).live
  {
    if op.OpGc? && op.e == e && e in s.live {
      GcKeepsInv(s, e);
    }
    assert Refs(s, e) > 0;
  }

  ghost predicate RunOk(s: Sys, mine: multiset<Evt>, ops: seq<Op>)
    requires Inv(s) && mine <= s.holds
    decreases |ops|
  {
    ops == [] ||
    (Enabled(s, mine, ops[0]) && (StepKeepsInv(s, mine, ops[0]); RunOk(Apply(s, mine, ops[0]), mine, ops[1..])))
  }

  /** Over every run the counters stay exact: Inv is the postcondition. */
  ghost function Run(s: Sys, mine: multiset<Evt>, ops: seq<Op>): (t: Sys)
    requires Inv(s) && mine <= s.holds && RunOk(s, mine, ops)
    ensures Inv(t) && mine <= t.holds
    ensures |t.queues| == |s.queues| && |t.free| == |s.free|
    decreases |ops|
  {
    if ops == [] then s
    else
      StepKeepsInv(s, mine, ops[0]);
      Run(Apply(s, mine, ops[0]), mine, ops[1..])
  }

  /** Every run conserves the blocks of every pool. */
  lemma {:induction false} RunConservesBlocks(s: Sys, mine: multiset<Evt>, ops: seq<Op>, i: nat)
    requires Inv(s) && mine <= s.holds && RunOk(s, mine, ops) && i < |s.free|
    ensures PoolBlocks(Run(s, mine, ops), i) == PoolBlocks(s, i)
    decreases |ops|
  {
    if ops != [] {
      StepKeepsInv(s, mine, ops[0]);
      StepConservesBlocks(s, mine, ops[0], i);
      RunConservesBlocks(Apply(s, mine, ops[0]), mine, ops[1..], i);
    }
  }

  lemma StepKeepsQueued(s: Sys, mine: multiset<Evt>, op: Op, q: nat, e: Evt)
    requires Inv(s) && mine <= s.holds && Enabled(s, mine, op)
    requires q < |s.queues| && op != OpDequeue(q) && e in s.queues[q]
    ensures |Apply(s, mine, op).queues| == |s.queues| && e in Apply(s, mine, op).queues[q]
    ensures e in s.live <==> e in Apply(s, mine, op).live
  {
    StepKeepsInv(s, mine, op);
    QueuedHasReference(s, q, e);
    if op.OpGc? && op.e == e && e in s.live {
      GcKeepsInv(s, e);
    }
  }

  lemma QueuedHasReference(s: Sys, q: nat, e: Evt)
    requires Inv(s) && q < |s.queues| && e in s.queues[q]
    ensures Refs(s, e) > s.holds[e] && !IsFree(s, e)
  {
    var k :| 0 <= k < |s.queues[q]| && s.queues[q][k] == e;
    QueuedIsNotFree(s, q, k);
    TotalUpdate(s.queues, q, []);
    assert e in multiset(s.queues[q]);
  }

  /** Only its own active object takes events out of queue `q`, so what is in it stays,
      alive, whether or not anybody else has a reference to it. */
  lemma {:induction false} RunKeepsQueued(s: Sys, mine: multiset<Evt>, ops: seq<Op>, q: nat, e: Evt)
    requires Inv(s) && mine <= s.holds && RunOk(s, mine, ops)
    requires q < |s.queues| && forall op <- ops :: op != OpDequeue(q)
    requires e in s.queues[q]
    ensures e in Run(s, mine, ops).queues[q]
    ensures e in s.live <==> e in Run(s, mine, ops).live
    decreases |ops|
  {
    if ops != [] {
      assert ops[0] in ops && forall op <- ops[1..] :: op in ops;
      StepKeepsInv(s, mine, ops[0]);
      StepKeepsQueued(s, mine, ops[0], q, e);
      RunKeepsQueued(Apply(s, mine, ops[0]), mine, ops[1..], q, e);
    }
  }

  /** The events a run posts to queue `q`, in order, and those it takes out. */
  function Posted(ops: seq<Op>, q: nat): seq<Evt> {
    if ops == [] then []
    else (if ops[0].OpEnqueue? && ops[0].q == q then [ops[0].e] else []) + Posted(ops[1..], q)
  }

  ghost function TakenFrom(s: Sys, mine: multiset<Evt>, ops: seq<Op>, q: nat): seq<Evt>
    requires Inv(s) && mine <= s.holds && RunOk(s, mine, ops) && q < |s.queues|
    decreases |ops|
  {
    if ops == [] then []
    else
      StepKeepsInv(s, mine, ops[0]);
      (if ops[0] == OpDequeue(q) then [s.queues[q][0]] else []) + TakenFrom(Apply(s, mine, ops[0]), mine, ops[1..], q)
  }

  /** A queue is first in, first out over every run that does not post to its front: what
      was taken and what is left is what was there and what was posted, in order. */
  lemma {:induction false} RunIsFifo(s: Sys, mine: multiset<Evt>, ops: seq<Op>, q: nat)
    requires Inv(s) && mine <= s.holds && RunOk(s, mine, ops) && q < |s.queues|
    requires forall op <- ops :: op.OpEnqueue? && op.q == q ==> !op.lifo
    ensures TakenFrom(s, mine, ops, q) + Run(s, mine, ops).queues[q] == s.queues[q] + Posted(ops, q)
    decreases |ops|
  {
    if ops != [] {
      var op, rest := ops[0], ops[1..];
      assert op in ops && forall o <- rest :: o in ops;
      StepKeepsInv(s, mine, op);
      var t := Apply(s, mine, op);
      RunIsFifo(t, mine, rest, q);
      StepIsFifo(s, mine, op, q);
      FifoChain(if op == OpDequeue(q) then [s.queues[q][0]] else [], TakenFrom(t, mine, rest, q),
                Run(t, mine, rest).queues[q], t.queues[q], s.queues[q],
                if op.OpEnqueue? && op.q == q then [op.e] else [], Posted(rest, q));
    }
  }

  lemma StepIsFifo(s: Sys, mine: multiset<Evt>, op: Op, q: nat)
    requires Inv(s) && mine <= s.holds && Enabled(s, mine, op) && q < |s.queues|
    requires op.OpEnqueue? && op.q == q ==> !op.lifo
    ensures |Apply(s, mine, op).queues| == |s.queues|
    ensures (if op == OpDequeue(q) then [s.queues[q][0]] else []) + Apply(s, mine, op).queues[q]
         == s.queues[q] + if op.OpEnqueue? && op.q == q then [op.e] else []
  {
    StepKeepsInv(s, mine, op);
  }

  lemma FifoChain(out: seq<Evt>, outs: seq<Evt>, end: seq<Evt>, mid: seq<Evt>, start: seq<Evt>, in': seq<Evt>, ins: seq<Evt>)
    requires out + mid == start + in' && outs + end == mid + ins
    ensures (out + outs) + end == start + (in' + ins)
  {
    assert (out + outs) + end == out + (outs + end);
    assert out + (mid + ins) == (out + mid) + ins;
    assert (start + in') + ins == start + (in' + ins);
  }

  /** An event posted to the front is the next one taken, and then the queue is as before. */
  lemma LifoIsNext(s: Sys, e: Evt, q: nat)
    requires q < |s.queues|
    ensures var t := Enqueue(s, e, q, true);
            t.queues[q] != [] && t.queues[q][0] == e && Dequeue(t, q).queues == s.queues
  {
    var t := Enqueue(s, e, q, true);
    assert t.queues[q][1..] == s.queues[q];
    assert s.queues[q := s.queues[q]] == s.queues;
  }

  /** What other code does between the last two critical sections of QActive_recall,
      whose caller holds `e` and owns queue `ao`. */
  ghost predicate RecallRun(s: Sys, mine: multiset<Evt>, e: Evt, ao: nat, ops: seq<Op>)
    requires Inv(s) && multiset{e} <= mine <= s.holds && ao < |s.queues|
  {
    && (e in s.live ==> s.live[e].refCtr < 0xFF)
    && (HeldIsNotFree(s, e); EnqueueKeepsInv(s, e, ao, true); RunOk(Enqueue(s, e, ao, true), mine, ops))
    && forall op <- ops :: op != OpDequeue(ao)
  }

  lemma HeldIsNotFree(s: Sys, e: Evt)
    requires Inv(s) && s.holds[e] > 0
    ensures !IsFree(s, e)
  {
    assert Refs(s, e) > 0;
  }

  /** QActive_recall: after the deferred event has been put back in front of the active
      object's own queue, its counter is at least 2 (assertion 210), whatever other
      code did between the critical sections. */
  lemma RecallSeesTwoReferences(s: Sys, mine: multiset<Evt>, e: Evt, ao: nat, ops: seq<Op>)
    requires Inv(s) && multiset{e} <= mine <= s.holds && ao < |s.queues|
    requires RecallRun(s, mine, e, ao, ops)
    ensures var p := Enqueue(s, e, ao, true);
            && Inv(p) && RunOk(p, mine, ops)
            && var t := Run(p, mine, ops);
            && (e in s.live <==> e in t.live)
            && (e in t.live ==> t.live[e].refCtr >= 2)
  {
    HeldIsNotFree(s, e);
    EnqueueKeepsInv(s, e, ao, true);
    var p := Enqueue(s, e, ao, true);
    assert p.queues[ao] == [e] + s.queues[ao];
    RunKeepsQueued(p, mine, ops, ao, e);
    var t := Run(p, mine, ops);
    HeldAndQueued(t, e, ao);
  }

  /** What runs between taking the front event of queue `q` and collecting it. */
  ghost predicate RtcRun(s: Sys, mine: multiset<Evt>, q: nat, ops: seq<Op>)
    requires Inv(s) && mine <= s.holds && q < |s.queues| && s.queues[q] != []
  {
    DequeueKeepsInv(s, q);
    RunOk(Dequeue(s, q), mine + multiset{s.queues[q][0]}, ops)
  }

  /** One run-to-completion step of a kernel: take an event, let its handler and
      everything that preempts it run, collect the event.  Whatever else is held stays
      held, and the event cannot be recycled before its handler is done with it. */
  lemma RtcStepKeepsInv(s: Sys, mine: multiset<Evt>, q: nat, ops: seq<Op>)
    requires Inv(s) && mine <= s.holds && q < |s.queues| && s.queues[q] != []
    requires RtcRun(s, mine, q, ops)
    ensures var e := s.queues[q][0];
            var d := Dequeue(s, q);
            && Inv(d) && RunOk(d, mine + multiset{e}, ops)
            && var t := Run(d, mine + multiset{e}, ops);
            && (e in s.live <==> e in t.live)
            && (e in t.live ==> t.live[e].refCtr > 0)
            && Inv(Gc(t, e)) && mine <= Gc(t, e).holds
  {
    var e := s.queues[q][0];
    DequeueKeepsInv(s, q);
    var d := Dequeue(s, q);
    RunKeepsHeld(d, mine + multiset{e}, ops, e);
    var t := Run(d, mine + multiset{e}, ops);
    assert t.holds[e] > 0;
    GcKeepsInv(t, e);
  }

  lemma {:induction false} RunKeepsHeld(s: Sys, mine: multiset<Evt>, ops: seq<Op>, e: Evt)
    requires Inv(s) && mine <= s.holds && RunOk(s, mine, ops) && mine[e] > 0
    ensures e in s.live <==> e in Run(s, mine, ops).live
    decreases |ops|
  {
    if ops != [] {
      StepKeepsInv(s, mine, ops[0]);
      StepKeepsHeldLive(s, mine, ops[0], e);
      RunKeepsHeld(Apply(s, mine, ops[0]), mine, ops[1..], e);
    }
  }

  // ------------------------------------------------------------------
  // Publishing while other code runs

  /** The deliveries of QF_publish_ with arbitrary code after each, which respects the
      reference in `mine` that the publisher holds. */
  ghost predicate DeliveriesOk(s: Sys, mine: multiset<Evt>, e: Evt, to: seq<nat>, gaps: seq<seq<Op>>)
    requires Inv(s) && mine <= s.holds && mine[e] > 0
    decreases |to|
  {
    && |to| == |gaps|
    && (to != [] ==>
          && to[0] < |s.queues| && (e in s.live ==> s.live[e].refCtr < 0xFF)
          && (DeliveryKeepsInv(s, mine, e, to[0]);
              var t := Enqueue(s, e, to[0], false);
              RunOk(t, mine, gaps[0]) && DeliveriesOk(Run(t, mine, gaps[0]), mine, e, to[1..], gaps[1..])))
  }

  ghost function AfterDeliveries(s: Sys, mine: multiset<Evt>, e: Evt, to: seq<nat>, gaps: seq<seq<Op>>): (t: Sys)
    requires Inv(s) && mine <= s.holds && mine[e] > 0 && DeliveriesOk(s, mine, e, to, gaps)
    ensures Inv(t) && mine <= t.holds
    decreases |to|
  {
    if to == [] then s
    else
      DeliveryKeepsInv(s, mine, e, to[0]);
      AfterDeliveries(Run(Enqueue(s, e, to[0], false), mine, gaps[0]), mine, e, to[1..], gaps[1..])
  }

  lemma DeliveryKeepsInv(s: Sys, mine: multiset<Evt>, e: Evt, q: nat)
    requires Inv(s) && mine <= s.holds && mine[e] > 0 && q < |s.queues| && (e in s.live ==> s.live[e].refCtr < 0xFF)
    ensures Inv(Enqueue(s, e, q, false)) && mine <= Enqueue(s, e, q, false).holds
    ensures e in Enqueue(s, e, q, false).live <==> e in s.live
  {
    HeldIsNotFree(s, e);
    EnqueueKeepsInv(s, e, q, false);
  }

  /** The published event is not recycled between its deliveries, whatever runs there. */
  lemma {:induction false} DeliveriesKeepEvent(s: Sys, mine: multiset<Evt>, e: Evt, to: seq<nat>, gaps: seq<seq<Op>>)
    requires Inv(s) && mine <= s.holds && mine[e] > 0 && DeliveriesOk(s, mine, e, to, gaps)
    ensures e in AfterDeliveries(s, mine, e, to, gaps).live <==> e in s.live
    decreases |to|
  {
    if to != [] {
      DeliveryKeepsInv(s, mine, e, to[0]);
      var t := Enqueue(s, e, to[0], false);
      RunKeepsHeld(t, mine, gaps[0], e);
      DeliveriesKeepEvent(Run(t, mine, gaps[0]), mine, e, to[1..], gaps[1..]);
    }
  }

  /** A whole publication: the counters stay exact, and the event is recycled at the end
      exactly when no reference is left. */
  lemma InterleavedPublish(s: Sys, mine: multiset<Evt>, e: Evt, to: seq<nat>, gaps: seq<seq<Op>>)
    requires Inv(s) && mine <= s.holds && !IsFree(s, e) && (e in s.live ==> s.live[e].refCtr < 0xFF)
    requires PublicationOk(s, mine, e, to, gaps)
    ensures var h := Hold(s, e);
            && Inv(h) && mine + multiset{e} <= h.holds
            && var t := AfterDeliveries(h, mine + multiset{e}, e, to, gaps);
            && Inv(Gc(t, e)) && mine <= Gc(t, e).holds
            && (e in s.live ==> e in t.live && (e in Gc(t, e).live <==> Refs(t, e) > 1))
  {
    HoldKeepsInv(s, e);
    var h, all := Hold(s, e), mine + multiset{e};
    DeliveriesKeepEvent(h, all, e, to, gaps);
    var t := AfterDeliveries(h, all, e, to, gaps);
    assert t.holds[e] > 0;
    HeldIsNotFree(t, e);
    GcKeepsInv(t, e);
  }

  ghost predicate PublicationOk(s: Sys, mine: multiset<Evt>, e: Evt, to: seq<nat>, gaps: seq<seq<Op>>)
    requires Inv(s) && mine <= s.holds && !IsFree(s, e) && (e in s.live ==> s.live[e].refCtr < 0xFF)
  {
    HoldKeepsInv(s, e);
    DeliveriesOk(Hold(s, e), mine + multiset{e}, e, to, gaps)
  }

  /** A failed QActive_post_ recycles an event never posted before and leaves any other
      event as it was. */
  lemma FailedPostIsHarmless(s: Sys, e: Evt)
    requires Inv(s) && !IsFree(s, e) && (e in s.live ==> s.live[e].refCtr < 0xFF)
    ensures Inv(Gc(Hold(s, e), e))
    ensures e in s.live && s.live[e].refCtr == 0 ==> e !in Gc(Hold(s, e), e).live
    ensures !(e in s.live && s.live[e].refCtr == 0) ==> Gc(Hold(s, e), e) == s
  {
    HoldKeepsInv(s, e);
    var h := Hold(s, e);
    GcKeepsInv(h, e);
    assert h.holds - multiset{e} == s.holds;
    if e in s.live && s.live[e].refCtr > 0 {
      assert Gc(h, e).live == s.live;
    }
  }

  /** Beyond 255 references the counter wraps, and the next collection recycles an event
      that is still queued. */
  lemma WrappedCounterRecyclesTooEarly(s: Sys, e: Evt, q: nat)
    requires Inv(s) && e in s.live && s.live[e].refCtr == 0xFF && q < |s.queues|
    ensures var t := Gc(Enqueue(s, e, q, false), e);
            e in t.queues[q] && IsFree(t, e)
  {
    var t := Gc(Enqueue(s, e, q, false), e);
    assert e in t.free[s.live[e].poolId - 1];
  }

  /** The three critical sections of QActive_recall keep the counters exact, and its
      assertion holds. */
  lemma RecallKeepsInv(s: Sys, eq: nat, ao: nat)
    requires Inv(s) && eq < |s.queues| && ao < |s.queues| && s.queues[eq] != []
    requires s.queues[eq][0] in s.live ==> s.live[s.queues[eq][0]].refCtr < 0xFF
    ensures var e := s.queues[eq][0];
            var d := Dequeue(s, eq);
            var p := Enqueue(d, e, ao, true);
            && Inv(d) && !IsFree(d, e) && Inv(p)
            && (e in p.live ==> p.live[e].refCtr >= 2)
            && Inv(Drop(p, e))
  {
    var e := s.queues[eq][0];
    var d := Dequeue(s, eq);
    DequeueKeepsInv(s, eq);
    HeldIsNotFree(d, e);
    EnqueueKeepsInv(d, e, ao, true);
    var p := Enqueue(d, e, ao, true);
    HeldAndQueued(p, e, ao);
    DropKeepsInv(p, e);
  }

  lemma HeldAndQueued(s: Sys, e: Evt, q: nat)
    requires Inv(s) && s.holds[e] > 0 && q < |s.queues| && e in s.queues[q]
    ensures e in s.live ==> s.live[e].refCtr >= 2
  {
    TotalUpdate(s.queues, q, []);
    assert e in multiset(s.queues[q]);
  }

  /** Together they move the event and leave its counter where it was. */
  lemma RecallMovesEvent(s: Sys, eq: nat, ao: nat)
    requires eq < |s.queues| && ao < |s.queues| && eq != ao && s.queues[eq] != []
    requires s.queues[eq][0] in s.live ==> s.live[s.queues[eq][0]].refCtr < 0xFF
    ensures var e := s.queues[eq][0];
            Drop(Enqueue(Dequeue(s, eq), e, ao, true), e) ==
            s.(queues := s.queues[eq := s.queues[eq][1..]][ao := [e] + s.queues[ao]])
  {
    var e := s.queues[eq][0];
    var p := Enqueue(Dequeue(s, eq), e, ao, true);
    assert p.holds - multiset{e} == s.holds;
    assert Drop(p, e).live == s.live;
  }
}

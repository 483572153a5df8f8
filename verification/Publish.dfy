/** QF_publish_ of qf_ps.c on the queues and pools of RefCount. */
module Publish {
  import opened Basics
  import opened EventQueue
  import opened PrioSet
  import opened RefSpec
  import opened RefCount

  /** Inside the loop of QF_publish_: the n subscribers in `rest` are still to be served. */
  ghost predicate Publishing(sys: EventSystem, before: seq<seq<Evt>>, order: seq<nat>, all: set<nat>, rest: set<nat>,
                             n: nat, e: Evt, dynamic: bool)
    reads sys
  {
    && n == |rest| && sys.holds[e] > 0 && sys.HasRoom(rest)
    && Progress(before, sys.queues, order, all, rest, e)
    && (e in sys.live ==> sys.live[e].refCtr + n <= 0xFF)
    && (e in sys.live <==> dynamic)
  }

  /** One delivery of QF_publish_. */
  method DeliverTo(sys: EventSystem, p: nat, ghost rest: set<nat>, e: Evt)
    requires sys.Valid() && sys.holds[e] > 0 && p in rest && sys.HasRoom(rest)
    requires e in sys.live ==> sys.live[e].refCtr < 0xFF
    modifies sys, sys.eqs, sys.Rings(), sys.pools
    ensures sys.Valid() && sys.holds == old(sys.holds) && sys.queues == old(sys.queues)[p := old(sys.queues[p]) + [e]]
    ensures e in sys.live <==> e in old(sys.live)
    ensures e in sys.live ==> sys.live[e].refCtr == old(sys.live[e].refCtr) + 1
    ensures sys.HasRoom(rest - {p})
  {
    HeldIsNotFree(sys.State(), e);
    EnqueueCounts(sys.State(), e, p);
    var _ := sys.Post(p, e, NO_MARGIN);
  }

  /** The same as a step of the publication. */
  method Deliver(sys: EventSystem, p: nat, e: Evt,
                 ghost before: seq<seq<Evt>>, ghost order: seq<nat>, ghost all: set<nat>, ghost rest: set<nat>, ghost n: nat,
                 ghost dynamic: bool)
    requires sys.Valid() && Publishing(sys, before, order, all, rest, n, e, dynamic) && p in rest && IsMax(rest, p)
    modifies sys, sys.eqs, sys.Rings(), sys.pools
    ensures sys.Valid() && sys.holds == old(sys.holds)
    ensures n > 0 && Publishing(sys, before, order + [p], all, rest - {p}, n - 1, e, dynamic)
  {
    ProgressNext(before, sys.queues, order, all, rest, e, p);
    DeliverTo(sys, p, rest, e);
  }

  /** The local copy of the subscriber list and its highest element. */
  ghost predicate Lists(list: Bits, rest: set<nat>, p: nat) {
    TwoWords(list) && ElemsOf(list) == rest && IsMax(rest, p)
  }

  /** Take a subscriber off the list and find the next one. */
  method Drop(list: Bits, p: nat, ghost rest: set<nat>) returns (shorter: Bits, next: nat)
    requires Lists(list, rest, p) && p in rest
    ensures Lists(shorter, rest - {p}, next)
  {
    ElemsInRange(list, p);
    shorter := SetTo(list, p, false);
    next := FindMax(shorter);
  }

  /** One round of the loop.  The list is a local copy, which the delivery cannot touch, so
      it does not matter that the source delivers first. */
  method Round(sys: EventSystem, list: Bits, p: nat, e: Evt,
               ghost before: seq<seq<Evt>>, ghost order: seq<nat>, ghost all: set<nat>, ghost rest: set<nat>, ghost n: nat,
               ghost dynamic: bool)
    returns (shorter: Bits, next: nat)
    requires sys.Valid() && Publishing(sys, before, order, all, rest, n, e, dynamic) && Lists(list, rest, p) && p != 0
    modifies sys, sys.eqs, sys.Rings(), sys.pools
    ensures sys.Valid() && sys.holds == old(sys.holds) && Lists(shorter, rest - {p}, next)
    ensures n > 0 && Publishing(sys, before, order + [p], all, rest - {p}, n - 1, e, dynamic)
  {
    shorter, next := Drop(list, p, rest);
    Deliver(sys, p, e, before, order, all, rest, n, dynamic);
  }

  /** The loop of QF_publish_ over a local copy of the subscriber list. */
  method Multicast(sys: EventSystem, subscr: Bits, first: nat, e: Evt, ghost all: set<nat>, ghost count: nat,
                   ghost dynamic: bool)
    returns (order: seq<nat>)
    requires sys.Valid() && Publishing(sys, sys.queues, [], all, all, count, e, dynamic) && Lists(subscr, all, first)
    modifies sys, sys.eqs, sys.Rings(), sys.pools
    ensures sys.Valid() && sys.holds == old(sys.holds)
    ensures Progress(old(sys.queues), sys.queues, order, all, {}, e)
    ensures e in sys.live <==> dynamic
  {
    var list, p := subscr, first;
    ghost var rest, n := all, count;
    order := [];
    while p != 0
      invariant sys.Valid() && sys.holds == old(sys.holds)
      invariant Lists(list, rest, p) && Publishing(sys, old(sys.queues), order, all, rest, n, e, dynamic)
      decreases n
    {
      var shorter, next := Round(sys, list, p, e, old(sys.queues), order, all, rest, n, dynamic);
      order := order + [p];
      rest, n := rest - {p}, n - 1;
      list, p := shorter, next;
    }
  }

  /** QF_publish_: the event is posted once to every subscriber, highest priority
      first, and then collected: a dynamic event is left alive exactly if somebody had a
      reference to it or there is a subscriber.  Overflowing a subscriber's queue is
      assertion 110. */
  method Publish(sys: EventSystem, subscr: Bits, e: Evt) returns (order: seq<nat>)
    requires sys.Valid() && TwoWords(subscr) && !IsFree(sys.State(), e) && sys.HasRoom(ElemsOf(subscr))
    requires e in sys.live ==> sys.live[e].refCtr + 1 + |ElemsOf(subscr)| <= 0xFF
    modifies sys, sys.eqs, sys.Rings(), sys.pools
    ensures sys.Valid() && sys.holds == old(sys.holds)
    ensures Delivered(old(sys.queues), sys.queues, ElemsOf(subscr), e)
    ensures Ordered(order, ElemsOf(subscr), {})
    ensures e in sys.live <==> e in old(sys.live) && (old(sys.live)[e].refCtr > 0 || ElemsOf(subscr) != {})
  {
    ghost var all, n, s := ElemsOf(subscr), |ElemsOf(subscr)|, sys.State();
    sys.Protect(e);
    var p := FindMax(subscr);
    ProgressBegins(sys.queues, all, e);
    order := Multicast(sys, subscr, p, e, all, n, e in old(sys.live));
    ProgressEnds(old(sys.queues), sys.queues, order, all, e);
    LeftAlive(s, sys.State(), all, e);
    Unprotect(sys, e, old(sys.holds));
  }

  /** Before the final collection the event has more than its protecting reference exactly
      if somebody had one before or it was delivered. */
  lemma LeftAlive(s: Sys, t: Sys, all: set<nat>, e: Evt)
    requires Inv(s) && t.holds == s.holds + multiset{e} && Delivered(s.queues, t.queues, all, e)
    requires forall p <- all :: p < |s.queues|
    ensures e in s.live ==> (Refs(t, e) > 1 <==> s.live[e].refCtr > 0 || all != {})
  {
    TotalPositive(s.queues, e);
    TotalPositive(t.queues, e);
    if all != {} {
      var p :| p in all;
      assert t.queues[p] == s.queues[p] + [e];
      assert e in t.queues[p];
    }
    if q :| 0 <= q < |s.queues| && e in s.queues[q] {
      assert e in t.queues[q];
    }
    if q :| 0 <= q < |t.queues| && e in t.queues[q] && q !in all {
      assert t.queues[q] == s.queues[q] + [];
    }
  }

  lemma {:induction false} TotalPositive(queues: seq<seq<Evt>>, e: Evt)
    ensures Total(queues)[e] > 0 <==> exists q :: 0 <= q < |queues| && e in queues[q]
  {
    if queues != [] {
      TotalPositive(queues[1..], e);
      assert e in multiset(queues[0]) <==> e in queues[0];
      if q :| 0 <= q < |queues[1..]| && e in queues[1..][q] {
        assert e in queues[q + 1];
      }
      if q :| 0 < q < |queues| && e in queues[q] {
        assert e in queues[1..][q - 1];
      }
    }
  }

  /** The final collection step. */
  method Unprotect(sys: EventSystem, e: Evt, ghost before: multiset<Evt>)
    requires sys.Valid() && sys.holds == before + multiset{e}
    modifies sys, sys.pools
    ensures sys.Valid() && sys.holds == before && sys.queues == old(sys.queues)
    ensures e in sys.live <==> e in old(sys.live) && Refs(old(sys.State()), e) > 1
  {
    HeldIsNotFree(sys.State(), e);
    GcKeepsInv(sys.State(), e);
    sys.Gc(e);
    assert before + multiset{e} - multiset{e} == before;
  }

  ghost predicate Descends(s: seq<nat>) {
    forall i, j :: 0 <= i < j < |s| ==> s[i] > s[j]
  }

  /** `order` lists those of `all` that are not in `rest`, which come later. */
  ghost predicate Ordered(order: seq<nat>, all: set<nat>, rest: set<nat>) {
    && Descends(order)
    && (forall x :: x in order <==> x in all - rest)
    && (forall x, y :: x in order && y in rest ==> y < x)
  }

  lemma OrderNext(order: seq<nat>, all: set<nat>, rest: set<nat>, p: nat)
    requires Ordered(order, all, rest) && rest <= all && p in rest && forall y <- rest :: y <= p
    ensures Ordered(order + [p], all, rest - {p})
  {
    forall i, j | 0 <= i < j < |order + [p]| ensures (order + [p])[i] > (order + [p])[j] {
      assert order[i] in order;
    }
  }

  /** How far a publication has come: those not in `rest` have the event. */
  ghost predicate Progress(before: seq<seq<Evt>>, now: seq<seq<Evt>>, order: seq<nat>, all: set<nat>, rest: set<nat>, e: Evt) {
    rest <= all && Delivered(before, now, all - rest, e) && Ordered(order, all, rest)
  }

  lemma ProgressBegins(queues: seq<seq<Evt>>, all: set<nat>, e: Evt)
    ensures Progress(queues, queues, [], all, all, e)
  {
    assert all - all == {};
  }

  lemma ProgressEnds(before: seq<seq<Evt>>, now: seq<seq<Evt>>, order: seq<nat>, all: set<nat>, e: Evt)
    requires Progress(before, now, order, all, {}, e)
    ensures Delivered(before, now, all, e) && Ordered(order, all, {})
  {
    assert all - {} == all;
  }

  lemma ProgressNext(before: seq<seq<Evt>>, now: seq<seq<Evt>>, order: seq<nat>, all: set<nat>, rest: set<nat>, e: Evt, p: nat)
    requires Progress(before, now, order, all, rest, e) && p in rest && p < |now| && forall y <- rest :: y <= p
    ensures Progress(before, now[p := now[p] + [e]], order + [p], all, rest - {p}, e)
    ensures |rest - {p}| + 1 == |rest|
  {
    DeliverNext(before, now, all, rest, e, p);
    OrderNext(order, all, rest, p);
  }

  lemma EnqueueCounts(s: Sys, e: Evt, q: nat)
    requires q < |s.queues| && (e in s.live ==> s.live[e].refCtr < 0xFF)
    ensures e in Enqueue(s, e, q, false).live <==> e in s.live
    ensures e in s.live ==> Enqueue(s, e, q, false).live[e].refCtr == s.live[e].refCtr + 1
  {
  }

  lemma DeliverNext(before: seq<seq<Evt>>, now: seq<seq<Evt>>, all: set<nat>, rest: set<nat>, e: Evt, p: nat)
    requires rest <= all && p in rest && p < |now| && Delivered(before, now, all - rest, e)
    ensures Delivered(before, now[p := now[p] + [e]], all - (rest - {p}), e)
    ensures |rest - {p}| + 1 == |rest|
  {
    assert all - (rest - {p}) == (all - rest) + {p};
  }

  /** Exactly the queues in `to` got one more event. */
  ghost predicate Delivered(before: seq<seq<Evt>>, after: seq<seq<Evt>>, to: set<nat>, e: Evt) {
    && |before| == |after|
    && forall q :: 0 <= q < |after| ==> after[q] == before[q] + if q in to then [e] else []
  }
}

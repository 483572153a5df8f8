/** The operations of qf_dyn.c, qf_actq.c, qf_qeq.c and qf_defer.c that touch reference
    counters, as the callers see them.  Each is proved to be the composition of critical
    sections of RefSpec it claims to be, and to keep every counter exact. */
module RefCount {
  import opened Basics
  import opened EventQueue
  import opened MemPool
  import opened RefSpec

  /** QF_newX_, the search loop: the first pool whose blocks are large enough.  Pools are
      registered in ascending block size (precondition 201 of QF_poolInit), so it is the
      one that wastes least. */
  method FindPool(sizes: seq<nat>, evtSize: nat) returns (idx: nat)
    requires forall i, j :: 0 <= i < j < |sizes| ==> sizes[i] < sizes[j]
    ensures idx <= |sizes|
    ensures idx == |sizes| <==> forall i :: 0 <= i < |sizes| ==> sizes[i] < evtSize
    ensures idx < |sizes| ==>
              sizes[idx] >= evtSize && forall i :: 0 <= i < |sizes| && sizes[i] >= evtSize ==> sizes[idx] <= sizes[i]
  {
    idx := 0;
    while idx < |sizes|
      invariant idx <= |sizes|
      invariant forall i :: 0 <= i < idx ==> sizes[i] < evtSize
    {
      if evtSize <= sizes[idx] {
        break;
      }
      idx := idx + 1;
    }
  }

  class EventSystem {
    /** The event queues and, in QF_pool_, the event pools. */
    const eqs: seq<QEQueue<Evt>>
    const pools: seq<QMPool>
    /** poolId_ and refCtr_ of the allocated events. */
    var live: map<Evt, Attr>

    /** The contents of the queues and the free blocks of the pools. */
    ghost var queues: seq<seq<Evt>>
    ghost var free: seq<set<Evt>>
    ghost var holds: multiset<Evt>

    ghost function Rings(): set<object>
    {
      set q | q in eqs :: q.ring
    }

    ghost predicate Shaped()
      reads this, eqs, Rings(), pools
    {
      && |queues| == |eqs| && |free| == |pools|
      && Separate(eqs, pools)
      && (forall i :: 0 <= i < |eqs| ==> QueueOk(eqs[i], queues[i]))
      && (forall i :: 0 <= i < |pools| ==> PoolOk(pools[i], free[i]) && Owns(pools[i], i + 1, live))
    }

    ghost function State(): Sys
      reads this
    {
      Sys(live, free, queues, holds)
    }

    ghost predicate Valid()
      reads this, eqs, Rings(), pools
    {
      Shaped() && Inv(State())
    }

    /** Free slots of queue q. */
    ghost function Room(q: nat): (n: nat)
      requires Shaped() && q < |eqs|
      reads this, eqs, Rings(), pools
      ensures n == eqs[q].ring.Length + 1 - |queues[q]|
    {
      assert QueueOk(eqs[q], queues[q]);
      eqs[q].nFree
    }

    /** May the caller post `e` (it is not recycled) without wrapping its counter? */
    ghost predicate Postable(e: Evt)
      reads this
    {
      !IsFree(State(), e) && (e in live ==> live[e].refCtr < 0xFF)
    }

    constructor (eqs: seq<QEQueue<Evt>>, pools: seq<QMPool>)
      requires Separate(eqs, pools)
      requires forall q <- eqs :: q.Valid() && q.items == []
      requires forall i :: 0 <= i < |pools| ==> pools[i].Valid() && pools[i].taken == {}
      requires forall i, j :: 0 <= i < j < |pools| ==> FreeApart(pools[i], pools[j])
      ensures Valid() && this.eqs == eqs && this.pools == pools
      ensures holds == multiset{} && live == map[] && forall q <- queues :: q == []
    {
      this.eqs, this.pools := eqs, pools;
      live := map[];
      ghost var empty, blocks := seq(|eqs|, _ => []), FreeSets(pools);
      queues, free := empty, blocks;
      holds := multiset{};
      AllEmpty(eqs, empty);
      AllFull(pools, blocks);
      EmptyInv(blocks, empty);
    }

    /** QF_EVT_REF_CTR_INC_ under the test for a dynamic event. */
    method IncRef(e: Evt)
      requires Shaped()
      modifies this`live
      ensures Shaped() && State() == Inc(old(State()), e)
    {
      if e in live {
        live := live[e := live[e].(refCtr := (live[e].refCtr + 1) % 0x100)];
      }
    }

    /** QF_gc. */
    method Gc(e: Evt)
      requires Valid() && (holds[e] > 0 || (e in live && live[e].refCtr == 0) || e !in live) && !IsFree(State(), e)
      modifies this, pools
      ensures Valid() && State() == RefSpec.Gc(old(State()), e)
    {
      GcKeepsInv(State(), e);
      Collect(e);
    }

    method Collect(e: Evt)
      requires Shaped() && (e in live ==> 1 <= live[e].poolId <= |pools|)
      modifies this, pools
      ensures Shaped() && State() == RefSpec.Gc(old(State()), e)
    {
      if e in live {
        CountDown(e);
      }
      holds := holds - multiset{e};
    }

    /** A dynamic event loses a reference, and with the last one its block. */
    method CountDown(e: Evt)
      requires Shaped() && e in live && 1 <= live[e].poolId <= |pools|
      modifies this`live, this`free, pools
      ensures Shaped()
      ensures live == RefSpec.Gc(old(State()), e).live && free == RefSpec.Gc(old(State()), e).free
    {
      if live[e].refCtr > 1 {
        DecRef(e);
      } else {
        Recycle(e);
      }
    }

    /** QF_EVT_REF_CTR_DEC_ */
    method DecRef(e: Evt)
      requires Shaped() && e in live && live[e].refCtr > 0
      modifies this`live
      ensures Shaped() && live == old(live)[e := old(live)[e].(refCtr := old(live)[e].refCtr - 1)]
    {
      live := live[e := live[e].(refCtr := live[e].refCtr - 1)];
    }

    /** The block goes back to the pool it came from. */
    method Recycle(e: Evt)
      requires Shaped() && e in live && 1 <= live[e].poolId <= |pools|
      modifies this`live, this`free, pools
      ensures Shaped() && live == old(live) - {e}
      ensures var i := old(live)[e].poolId - 1; free == old(free)[i := old(free)[i] + {e}]
    {
      var idx := live[e].poolId - 1;
      // assertion 410
      assert 0 <= idx < |pools|;
      ghost var before := live;
      PutBlock(pools[idx], e, free[idx], idx + 1, live);
      free := free[idx := free[idx] + {e}];
      live := live - {e};
      forall i | 0 <= i < |pools|
        ensures PoolOk(pools[i], free[i]) && Owns(pools[i], i + 1, live)
      {
        if i != idx {
          OwnsOthers(pools[i], i + 1, before, e);
        }
      }
    }

    // The queues' own operations

    method Append(q: nat, e: Evt, margin: nat) returns (status: bool)
      requires Shaped() && q < |eqs| && margin <= NO_MARGIN && (margin == NO_MARGIN ==> Room(q) > 0)
      modifies this`queues, eqs[q], eqs[q].ring
      ensures Shaped() && (status <==> Accepts(old(Room(q)), margin, eqs[q].range))
      ensures queues == if status then old(queues)[q := old(queues[q]) + [e]] else old(queues)
    {
      assert QueueOk(eqs[q], queues[q]) && Room(q) == eqs[q].nFree;
      status := PostTo(eqs[q], e, margin, queues[q]);
      if status {
        queues := queues[q := queues[q] + [e]];
      }
    }

    method Prepend(q: nat, e: Evt)
      requires Shaped() && q < |eqs| && Room(q) > 0
      modifies this`queues, eqs[q], eqs[q].ring
      ensures Shaped() && queues == old(queues)[q := [e] + old(queues[q])]
    {
      assert QueueOk(eqs[q], queues[q]);
      eqs[q].PostLifo(e);
      queues := queues[q := [e] + queues[q]];
    }

    method Front(q: nat) returns (e: Option<Evt>)
      requires Shaped() && q < |eqs|
      modifies this`queues, eqs[q]
      ensures Shaped() && (e.None? <==> old(queues[q]) == [])
      ensures e.Some? ==> e.value == old(queues[q])[0] && queues == old(queues)[q := old(queues[q])[1..]]
      ensures e.None? ==> queues == old(queues)
    {
      assert QueueOk(eqs[q], queues[q]);
      e := eqs[q].Get();
      if e.Some? {
        queues := queues[q := queues[q][1..]];
      }
    }

    /** QActive_post_.  On failure the event is counted and collected again. */
    method Post(q: nat, e: Evt, margin: nat) returns (status: bool)
      requires Valid() && q < |eqs| && Postable(e)
      requires margin <= NO_MARGIN && (margin == NO_MARGIN ==> Room(q) > 0)
      modifies this, eqs[q], eqs[q].ring, pools
      ensures Valid()
      ensures status <==> Accepts(old(Room(q)), margin, eqs[q].range)
      ensures status ==> State() == Enqueue(old(State()), e, q, false)
      ensures !status && e in old(live) && old(live[e].refCtr) == 0 ==>
                e !in live && holds == old(holds) && queues == old(queues)
      ensures !status && !(e in old(live) && old(live[e].refCtr) == 0) ==> State() == old(State())
    {
      ghost var s := State();
      EnqueueKeepsInv(s, e, q, false);
      status := CountAndAppend(q, e, margin);
      if !status {
        CollectUnposted(s, e);
      }
    }

    /** The event was counted but not taken. */
    method CollectUnposted(ghost s: Sys, e: Evt)
      requires Shaped() && State() == Inc(s, e) && Inv(s) && !IsFree(s, e)
      requires e in s.live ==> s.live[e].refCtr < 0xFF
      modifies this, pools
      ensures Valid() && State() == RefSpec.Gc(Hold(s, e), e)
      ensures e in s.live && s.live[e].refCtr == 0 ==> e !in live && holds == s.holds && queues == s.queues
      ensures !(e in s.live && s.live[e].refCtr == 0) ==> State() == s
    {
      HoldKeepsInv(s, e);
      FailedPostIsHarmless(s, e);
      HeldIsNotFree(Hold(s, e), e);
      holds := holds + multiset{e};
      Gc(e);
      assert s.holds + multiset{e} - multiset{e} == s.holds;
    }

    method CountAndAppend(q: nat, e: Evt, margin: nat) returns (status: bool)
      requires Shaped() && q < |eqs| && margin <= NO_MARGIN && (margin == NO_MARGIN ==> Room(q) > 0)
      modifies this`live, this`queues, eqs[q], eqs[q].ring
      ensures Shaped() && (status <==> Accepts(old(Room(q)), margin, eqs[q].range))
      ensures State() == if status then Enqueue(old(State()), e, q, false) else Inc(old(State()), e)
    {
      IncRef(e);
      status := Append(q, e, margin);
    }

    /** QF_newX_ from pool `i`; failing with NO_MARGIN is assertion 320. */
    method New(i: nat, margin: nat) returns (e: Option<Evt>)
      requires Valid() && i < |pools|
      requires margin == NO_MARGIN ==> free[i] != {}
      modifies this`live, this`free, pools[i]
      ensures Valid()
      ensures e.Some? <==> Grants(old(pools[i].nFree), if margin == NO_MARGIN then 0 else margin, pools[i].range)
      ensures e.Some? ==> e.value in old(free)[i] && State() == RefSpec.New(old(State()), i, e.value)
      ensures e.None? ==> margin != NO_MARGIN && State() == old(State())
    {
      ghost var s := State();
      e := Allocate(i, if margin == NO_MARGIN then 0 else margin);
      if e.Some? {
        NewKeepsInv(s, i, e.value);
      }
    }

    method Allocate(i: nat, margin: nat) returns (e: Option<Evt>)
      requires Shaped() && i < |pools| && forall a <- free[i] :: a !in live
      modifies this`live, this`free, pools[i]
      ensures Shaped()
      ensures e.Some? <==> Grants(old(pools[i].nFree), margin, pools[i].range)
      ensures e.Some? ==> e.value in old(free)[i] && State() == RefSpec.New(old(State()), i, e.value)
      ensures e.None? ==> State() == old(State()) && (margin == 0 ==> free[i] == {})
    {
      ghost var before := live;
      e := TakeBlock(pools[i], margin, free[i], i + 1, live);
      if e.Some? {
        free := free[i := free[i] - {e.value}];
        live := live[e.value := Attr(i + 1, 0)];
        forall j | 0 <= j < |pools|
          ensures PoolOk(pools[j], free[j]) && Owns(pools[j], j + 1, live)
        {
          if j != i {
            OwnsOthersStill(pools[j], j + 1, before, e.value, Attr(i + 1, 0));
          }
        }
      }
    }

    /** QActive_postLIFO_ and QEQueue_postLIFO; overflow violates assertion 210. */
    method PostLifo(q: nat, e: Evt)
      requires Valid() && q < |eqs| && Postable(e) && Room(q) > 0
      modifies this, eqs[q], eqs[q].ring
      ensures Valid() && State() == Enqueue(old(State()), e, q, true)
    {
      EnqueueKeepsInv(State(), e, q, true);
      IncRef(e);
      Prepend(q, e);
    }

    /** QActive_get_ and QEQueue_get: the reference moves from the queue to the caller. */
    method Get(q: nat) returns (e: Option<Evt>)
      requires Valid() && q < |eqs|
      modifies this, eqs[q]
      ensures Valid()
      ensures old(queues[q]) == [] ==> e == None && State() == old(State())
      ensures old(queues[q]) != [] ==> e == Some(old(queues[q])[0]) && State() == Dequeue(old(State()), q)
    {
      ghost var s := State();
      e := Front(q);
      if e.Some? {
        DequeueKeepsInv(s, q);
        holds := holds + multiset{e.value};
      }
    }

    /** QF_newRef_. */
    method NewRef(e: Evt)
      requires Valid() && e in live && Postable(e)
      modifies this
      ensures Valid() && State() == Hold(old(State()), e)
    {
      HoldKeepsInv(State(), e);
      IncRef(e);
      holds := holds + multiset{e};
    }

    /** QF_deleteRef_. */
    method DeleteRef(e: Evt)
      requires Valid() && holds[e] > 0
      modifies this, pools
      ensures Valid() && State() == RefSpec.Gc(old(State()), e)
    {
      HeldIsNotFree(State(), e);
      Gc(e);
    }

    /** QActive_defer: QEQueue_post with margin 0; a full queue leaves the event alone. */
    method Defer(eq: nat, e: Evt) returns (status: bool)
      requires Valid() && eq < |eqs| && Postable(e)
      modifies this, eqs[eq], eqs[eq].ring
      ensures Valid()
      ensures status <==> old(Room(eq)) > 0
      ensures State() == if status then Enqueue(old(State()), e, eq, false) else old(State())
    {
      EnqueueKeepsInv(State(), e, eq, false);
      status := AppendAndCount(eq, e);
    }

    /** QEQueue_post counts an event only when it takes it. */
    method AppendAndCount(eq: nat, e: Evt) returns (status: bool)
      requires Shaped() && eq < |eqs|
      modifies this`live, this`queues, eqs[eq], eqs[eq].ring
      ensures Shaped() && (status <==> old(Room(eq)) > 0)
      ensures State() == if status then Enqueue(old(State()), e, eq, false) else old(State())
    {
      ghost var s := State();
      status := AppendIfRoom(eq, e);
      if status {
        assert State() == s.(queues := s.queues[eq := s.queues[eq] + [e]]);
        IncRef(e);
      }
    }

    /** QEQueue_post with margin 0. */
    method AppendIfRoom(q: nat, e: Evt) returns (status: bool)
      requires Shaped() && q < |eqs|
      modifies this`queues, eqs[q], eqs[q].ring
      ensures Shaped() && (status <==> old(Room(q)) > 0)
      ensures queues == if status then old(queues)[q := old(queues[q]) + [e]] else old(queues)
    {
      NoMarginNeeded(Room(q), eqs[q].range);
      status := Append(q, e, 0);
    }

    /** QActive_recall: the oldest deferred event moves to the front of the active
        object's queue and its counter ends where it was. */
    method Recall(ao: nat, eq: nat) returns (recalled: bool)
      requires Valid() && ao < |eqs| && eq < |eqs| && ao != eq && Room(ao) > 0
      requires queues[eq] != [] && queues[eq][0] in live ==> live[queues[eq][0]].refCtr < 0xFF
      modifies this, eqs[ao], eqs[eq], eqs[ao].ring
      ensures Valid()
      ensures recalled <==> old(queues[eq]) != []
      ensures !recalled ==> State() == old(State())
      ensures recalled ==> State() == old(State()).(queues := old(queues)[eq := old(queues[eq])[1..]]
                                                                         [ao := [old(queues[eq])[0]] + old(queues[ao])])
    {
      ghost var s := State();
      if queues[eq] != [] {
        RecallKeepsInv(s, eq, ao);
        RecallMovesEvent(s, eq, ao);
      }
      var e := Get(eq);
      if e == None {
        return false;
      }
      PostLifo(ao, e.value);
      // assertion 210
      assert e.value in live ==> live[e.value].refCtr >= 2;
      DropRef(e.value);
      recalled := true;
    }

    /** The final decrement of QActive_recall. */
    method DropRef(e: Evt)
      requires Shaped() && (e in live ==> live[e].refCtr > 0)
      modifies this
      ensures Shaped() && State() == Drop(old(State()), e)
    {
      if e in live {
        DecRef(e);
      }
      holds := holds - multiset{e};
    }

    /** Take one event out of a queue and collect it. */
    method FlushOne(eq: nat) returns (flushed: bool)
      requires Valid() && eq < |eqs|
      modifies this, eqs[eq], pools
      ensures Valid() && holds == old(holds)
      ensures FlushedOne(old(queues), old(live), queues, live, eq, flushed)
    {
      var e := Get(eq);
      flushed := e.Some?;
      if flushed {
        GcTakesOne(State(), e.value);
        HeldIsNotFree(State(), e.value);
        Gc(e.value);
        assert old(holds) + multiset{e.value} - multiset{e.value} == old(holds);
      }
    }

    /** QActive_flushDeferred.  Of the events that were deferred those are left alive that
        somebody else has a reference to. */
    method FlushDeferred(eq: nat) returns (n: nat)
      requires Valid() && eq < |eqs|
      modifies this, eqs[eq], pools
      ensures Valid()
      ensures n == |old(queues[eq])| && queues == old(queues)[eq := []] && holds == old(holds)
      ensures Fewer(old(live), live, old(queues[eq]))
    {
      n := 0;
      ghost var before, was, now, alive := queues, live, queues, live;
      var more := FlushOne(eq);
      while more
        invariant Valid() && holds == old(holds)
        invariant Flushing(before, was, now, alive, eq, n)
        invariant FlushedOne(now, alive, queues, live, eq, more)
        decreases |now[eq]|
      {
        FlushingNext(before, was, now, alive, queues, live, eq, n);
        n := n + 1;
        now, alive := queues, live;
        more := FlushOne(eq);
      }
      FlushingEnds(before, was, now, alive, eq, n);
    }

    /** Every queue in `ps` has a free slot. */
    ghost predicate HasRoom(ps: set<nat>)
      reads this
    {
      forall p <- ps :: p < |eqs| && p < |queues| && |queues[p]| <= eqs[p].ring.Length
    }

    /** The counted reference QF_publish_ holds while it delivers. */
    method Protect(e: Evt)
      requires Valid() && Postable(e)
      modifies this`live, this`holds
      ensures Valid() && holds == old(holds) + multiset{e} && queues == old(queues)
      ensures e in live <==> e in old(live)
      ensures e in live ==> live[e].refCtr == old(live[e].refCtr) + 1
    {
      HoldKeepsInv(State(), e);
      IncRef(e);
      holds := holds + multiset{e};
    }
  }

  /** n events of queue `eq` are gone, and nothing else. */
  ghost predicate Flushing(before: seq<seq<Evt>>, was: map<Evt, Attr>, now: seq<seq<Evt>>, alive: map<Evt, Attr>,
                           eq: nat, n: nat)
  {
    && eq < |before| == |now|
    && n <= |before[eq]| && now[eq] == before[eq][n..]
    && now == before[eq := now[eq]]
    && Fewer(was, alive, before[eq][..n])
  }

  /** The front event of queue `eq`, if there is one, has been taken out and collected. */
  ghost predicate FlushedOne(before: seq<seq<Evt>>, was: map<Evt, Attr>, now: seq<seq<Evt>>, alive: map<Evt, Attr>,
                             eq: nat, flushed: bool)
  {
    && eq < |before| && (flushed <==> before[eq] != [])
    && if flushed then now == before[eq := before[eq][1..]] && OneLess(was, alive, before[eq][0])
       else now == before && alive == was
  }

  lemma FlushingNext(before: seq<seq<Evt>>, was: map<Evt, Attr>, now: seq<seq<Evt>>, alive: map<Evt, Attr>,
                     next: seq<seq<Evt>>, left: map<Evt, Attr>, eq: nat, n: nat)
    requires Flushing(before, was, now, alive, eq, n) && FlushedOne(now, alive, next, left, eq, true)
    ensures Flushing(before, was, next, left, eq, n + 1) && |next[eq]| < |now[eq]|
  {
    FewerStep(was, alive, left, before[eq], n);
  }

  lemma FlushingEnds(before: seq<seq<Evt>>, was: map<Evt, Attr>, now: seq<seq<Evt>>, alive: map<Evt, Attr>,
                     eq: nat, n: nat)
    requires Flushing(before, was, now, alive, eq, n) && now[eq] == []
    ensures n == |before[eq]| && now == before[eq := []] && Fewer(was, alive, before[eq])
  {
    assert before[eq][..n] == before[eq];
  }

  /** `e` has lost a reference, and its block with the last one; nothing else changed. */
  ghost predicate OneLess(before: map<Evt, Attr>, after: map<Evt, Attr>, e: Evt) {
    && (forall x :: x != e ==> (x in after <==> x in before) && (x in after ==> after[x] == before[x]))
    && (e in after ==> e in before && 0 < after[e].refCtr == before[e].refCtr - 1)
    && (e in before && before[e].refCtr > 1 ==> e in after)
  }

  lemma GcTakesOne(s: Sys, e: Evt)
    requires e in s.live ==> 0 < s.live[e].poolId <= |s.free|
    ensures OneLess(s.live, RefSpec.Gc(s, e).live, e)
  {
  }

  /** Only events in `gone` may have been recycled, and those that are alive have a
      reference. */
  ghost predicate Fewer(before: map<Evt, Attr>, after: map<Evt, Attr>, gone: seq<Evt>) {
    && (forall x :: x in after ==> x in before)
    && (forall x :: x in before && x !in gone ==> x in after && after[x] == before[x])
    && (forall x <- gone :: x in after ==> after[x].refCtr > 0)
  }

  lemma FewerStep(before: map<Evt, Attr>, mid: map<Evt, Attr>, after: map<Evt, Attr>, items: seq<Evt>, n: nat)
    requires n < |items| && Fewer(before, mid, items[..n]) && OneLess(mid, after, items[n])
    ensures Fewer(before, after, items[..n + 1])
  {
    assert items[..n + 1] == items[..n] + [items[n]];
  }

  /** The queue is in order and holds `items`. */
  ghost predicate QueueOk(q: QEQueue<Evt>, items: seq<Evt>)
    reads q, q.ring
  {
    q.Valid() && q.items == items
  }

  /** The pool is in order and `free` are its free blocks. */
  ghost predicate PoolOk(p: QMPool, free: set<Evt>)
    reads p
  {
    p.Valid() && forall e :: e in p.free <==> e in free
  }

  /** The blocks the pool has handed out are the live events that carry its number. */
  ghost predicate Owns(p: QMPool, id: nat, live: map<Evt, Attr>)
    reads p
  {
    forall e :: e in p.taken <==> e in live && live[e].poolId == id
  }

  method PostTo(q: QEQueue<Evt>, e: Evt, margin: nat, ghost items: seq<Evt>) returns (status: bool)
    requires QueueOk(q, items) && margin <= NO_MARGIN && (margin == NO_MARGIN ==> q.nFree > 0)
    modifies q, q.ring
    ensures QueueOk(q, if status then items + [e] else items)
    ensures status <==> Accepts(old(q.nFree), margin, q.range)
  {
    status := q.Post(e, margin);
  }

  lemma NoMarginNeeded(nFree: nat, range: nat)
    requires range > 0
    ensures Grants(nFree, 0, range) <==> nFree > 0
    ensures Accepts(nFree, 0, range) <==> nFree > 0
  {
    assert 0 % range == 0;
  }

  lemma OwnsOthers(p: QMPool, id: nat, live: map<Evt, Attr>, e: Evt)
    requires Owns(p, id, live) && e in live && live[e].poolId != id
    ensures Owns(p, id, live - {e})
  {
  }

  lemma OwnsOthersStill(p: QMPool, id: nat, live: map<Evt, Attr>, e: Evt, x: Attr)
    requires Owns(p, id, live) && e !in live && x.poolId != id
    ensures Owns(p, id, live[e := x])
  {
  }

  method TakeBlock(p: QMPool, margin: nat, ghost free: set<Evt>, ghost id: nat, ghost live: map<Evt, Attr>)
    returns (e: Option<Evt>)
    requires PoolOk(p, free) && Owns(p, id, live) && (forall a <- free :: a !in live)
    modifies p
    ensures e.Some? <==> Grants(old(p.nFree), margin, p.range)
    ensures e.Some? ==> e.value in free && PoolOk(p, free - {e.value}) && Owns(p, id, live[e.value := Attr(id, 0)])
    ensures e.None? ==> PoolOk(p, free) && Owns(p, id, live) && (margin == 0 ==> free == {})
  {
    ghost var was, out := p.free, p.taken;
    e := p.Get(margin);
    if e.Some? {
      HeadTaken(was, out, free, id, live);
    } else {
      NoMarginNeeded(p.nFree, p.range);
    }
  }

  lemma HeadTaken(s: seq<Evt>, taken: set<Evt>, free: set<Evt>, id: nat, live: map<Evt, Attr>)
    requires s != [] && NoDup(s) && (forall e :: e in s <==> e in free) && (forall a <- free :: a !in live)
    requires forall e :: e in taken <==> e in live && live[e].poolId == id
    ensures forall e :: e in s[1..] <==> e in free - {s[0]}
    ensures forall e :: e in taken + {s[0]} <==> e in live[s[0] := Attr(id, 0)] && live[s[0] := Attr(id, 0)][e].poolId == id
  {
    HeadIsFirst(s);
  }

  lemma HeadIsFirst(s: seq<Evt>)
    requires s != [] && NoDup(s)
    ensures forall e :: e in s[1..] <==> e in s && e != s[0]
  {
    assert s == [s[0]] + s[1..];
  }

  method PutBlock(p: QMPool, e: Evt, ghost free: set<Evt>, ghost id: nat, ghost live: map<Evt, Attr>)
    requires PoolOk(p, free) && Owns(p, id, live) && e in live && live[e].poolId == id
    modifies p
    ensures PoolOk(p, free + {e}) && Owns(p, id, live - {e})
  {
    p.Put(e);
  }

  /** Different queues and pools are different objects. */
  ghost predicate Separate(eqs: seq<QEQueue<Evt>>, pools: seq<QMPool>) {
    && (forall i, j :: 0 <= i < j < |eqs| ==> eqs[i] != eqs[j] && eqs[i].ring != eqs[j].ring)
    && (forall i, j :: 0 <= i < j < |pools| ==> pools[i] != pools[j])
  }

  ghost predicate FreeApart(p: QMPool, r: QMPool)
    reads p, r
  {
    forall a <- p.free :: a !in r.free
  }

  ghost function FreeSets(pools: seq<QMPool>): (r: seq<set<Evt>>)
    reads pools
    ensures |r| == |pools| && forall i :: 0 <= i < |pools| ==> forall a :: a in r[i] <==> a in pools[i].free
  {
    if pools == [] then [] else [set a | a in pools[0].free] + FreeSets(pools[1..])
  }

  lemma AllEmpty(eqs: seq<QEQueue<Evt>>, queues: seq<seq<Evt>>)
    requires |queues| == |eqs| && forall i :: 0 <= i < |queues| ==> queues[i] == []
    requires forall q <- eqs :: q.Valid() && q.items == []
    ensures forall i :: 0 <= i < |eqs| ==> QueueOk(eqs[i], queues[i])
  {
  }

  lemma AllFull(pools: seq<QMPool>, free: seq<set<Evt>>)
    requires |free| == |pools| && forall i :: 0 <= i < |pools| ==> forall a :: a in free[i] <==> a in pools[i].free
    requires forall i :: 0 <= i < |pools| ==> pools[i].Valid() && pools[i].taken == {}
    requires forall i, j :: 0 <= i < j < |pools| ==> FreeApart(pools[i], pools[j])
    ensures forall i :: 0 <= i < |pools| ==> PoolOk(pools[i], free[i]) && Owns(pools[i], i + 1, map[])
    ensures forall i, j :: 0 <= i < j < |free| ==> free[i] !! free[j]
  {
    forall i, j | 0 <= i < j < |free| ensures free[i] !! free[j] {
      assert FreeApart(pools[i], pools[j]);
    }
  }

  lemma {:induction false} EmptyTotal(queues: seq<seq<Evt>>)
    requires forall i :: 0 <= i < |queues| ==> queues[i] == []
    ensures Total(queues) == multiset{}
  {
    if queues != [] {
      EmptyTotal(queues[1..]);
      assert multiset(queues[0]) == multiset{};
    }
  }

  lemma EmptyInv(free: seq<set<Evt>>, queues: seq<seq<Evt>>)
    requires forall i :: 0 <= i < |queues| ==> queues[i] == []
    requires forall i, j :: 0 <= i < j < |free| ==> free[i] !! free[j]
    ensures Inv(Sys(map[], free, queues, multiset{}))
  {
    EmptyTotal(queues);
  }
}

/** QXMutex_lock and QXMutex_unlock statement by statement, on the kernel's own data: the
    ready set and the waiting sets as bit sets, QF_active_ as a table.  State() abstracts
    from them; each operation is proved to be the step of MutexSpec it stands for, and the
    source's assertions are proved where they stand. */
module QxkMutex {
  import opened Basics
  import opened PrioSet
  import opened MutexSpec

  datatype QXThread = QXThread(dynPrio: nat, obj: Option<Id>)

  datatype QXMutex = QXMutex(ceiling: nat, lockNest: nat, holderPrio: nat, waitSet: Bits)

  // ------------------------------------------------------------------
  // Abstraction

  ghost function AbsThreads(ths: map<nat, QXThread>, calls: map<nat, Option<Id>>): Threads
    requires ths.Keys == calls.Keys
  {
    map t | t in ths :: Thread(ths[t].dynPrio, ths[t].obj, calls[t])
  }

  ghost function AbsMutex(x: QXMutex, inside: multiset<nat>): Mutex {
    Mutex(x.ceiling, x.lockNest, x.holderPrio, ElemsOf(x.waitSet), inside)
  }

  ghost function AbsMutexes(ms: map<Id, QXMutex>, inside: map<Id, multiset<nat>>): Mutexes
    requires ms.Keys == inside.Keys
  {
    map m | m in ms :: AbsMutex(ms[m], inside[m])
  }

  ghost function AbsActive(table: seq<Option<Slot>>): Active {
    map p: nat | p < |table| && table[p].Some? :: table[p].value
  }

  lemma ThreadSet(ths: map<nat, QXThread>, calls: map<nat, Option<Id>>, t: nat, x: QXThread, c: Option<Id>)
    requires ths.Keys == calls.Keys
    ensures AbsThreads(ths[t := x], calls[t := c]) == AbsThreads(ths, calls)[t := Thread(x.dynPrio, x.obj, c)]
  {
  }

  lemma MutexSet(ms: map<Id, QXMutex>, inside: map<Id, multiset<nat>>, m: Id, x: QXMutex, i: multiset<nat>)
    requires ms.Keys == inside.Keys
    ensures AbsMutexes(ms[m := x], inside[m := i]) == AbsMutexes(ms, inside)[m := AbsMutex(x, i)]
  {
  }

  lemma SlotSet(table: seq<Option<Slot>>, p: nat, x: Slot)
    requires p < |table|
    ensures AbsActive(table[p := Some(x)]) == AbsActive(table)[p := x]
  {
  }

  /** Priorities and ceilings are indices of QF_active_. */
  lemma ThreadInRange(s: Sys, n: nat, t: nat)
    requires Core(s) && (forall p <- s.active :: p < n) && t in s.threads
    ensures 1 <= t < n && 1 <= s.threads[t].dynPrio < n
  {
    assert ThreadOk(t, s.threads[t], s.mutexes);
    if s.threads[t].dynPrio != t {
      var m :| m in s.mutexes && Boosts(s.mutexes[m], t, s.threads[t].dynPrio);
      assert MutexOk(m, s.mutexes[m], s.threads, s.active);
    }
  }

  lemma MutexInRange(s: Sys, n: nat, m: Id)
    requires n >= 1 && Core(s) && (forall p <- s.active :: p < n) && m in s.mutexes
    ensures s.mutexes[m].ceiling < n && forall w <- s.mutexes[m].waitSet :: 1 <= w < n
  {
    assert MutexOk(m, s.mutexes[m], s.threads, s.active);
  }

  method SetOf(prios: set<nat>, maxActive: nat) returns (r: QPSet)
    requires maxActive <= 64 && forall p <- prios :: 1 <= p <= maxActive
    ensures fresh(r) && r.Valid() && r.Elems() == prios
  {
    r := new QPSet();
    var p := 1;
    while p <= maxActive
      invariant 1 <= p <= maxActive + 1 && r.Valid() && fresh(r)
      invariant r.Elems() == set x | x in prios && x < p
    {
      if p in prios {
        r.Insert(p);
      }
      p := p + 1;
    }
    assert r.Elems() == prios;
  }

  class Kernel {
    /** QF_active_, indexed by 0 .. QF_MAX_ACTIVE. */
    const active: array<Option<Slot>>
    const readySet: QPSet
    var threads: map<nat, QXThread>
    var mutexes: map<Id, QXMutex>

    ghost var calls: map<nat, Option<Id>>
    ghost var inside: map<Id, multiset<nat>>

    ghost predicate Shaped()
      reads this, active, readySet
    {
      && 1 <= active.Length <= 65 && readySet.Valid()
      && threads.Keys == calls.Keys && mutexes.Keys == inside.Keys
      && forall m <- mutexes :: TwoWords(mutexes[m].waitSet)
    }

    ghost function State(): Sys
      requires Shaped()
      reads this, active, readySet
    {
      Sys(AbsThreads(threads, calls), AbsMutexes(mutexes, inside), AbsActive(active[..]), readySet.Elems())
    }

    ghost predicate Valid()
      reads this, active, readySet
    {
      Shaped() && Inv(State())
    }

    /** Threads that are running and no mutex yet. */
    constructor (prios: set<nat>, maxActive: nat)
      requires maxActive <= 64 && forall p <- prios :: 1 <= p <= maxActive
      ensures Valid() && fresh(active) && fresh(readySet) && active.Length == maxActive + 1
      ensures threads.Keys == prios && mutexes == map[]
    {
      var ready := SetOf(prios, maxActive);
      var table := new Option<Slot>[maxActive + 1](q => if q in prios then Some(IsThread(q)) else None);
      active, readySet := table, ready;
      threads := map t | t in prios :: QXThread(t, None);
      mutexes := map[];
      calls := map t | t in prios :: None;
      inside := map[];
      new;
      FreshTable(active[..], prios);
      FreshState(threads, calls, prios);
    }

    /** QXMutex_init, with its precondition 100 on the ceiling. */
    method Init(m: Id, ceiling: nat)
      requires Valid() && m !in mutexes && ceiling < active.Length && (ceiling == 0 || active[ceiling] == None)
      modifies this`mutexes, this`inside, active
      ensures Valid() && State() == AfterInit(old(State()), m, ceiling)
      ensures mutexes == old(mutexes)[m := QXMutex(ceiling, 0, 0, EMPTY)]
      ensures ceiling != 0 ==> active[ceiling] == Some(IsMutex(m))
    {
      InitKeepsInv(State(), m, ceiling);
      Register(m, ceiling);
    }

    method Register(m: Id, ceiling: nat)
      requires Shaped() && ceiling < active.Length
      modifies this`mutexes, this`inside, active
      ensures Shaped() && State() == AfterInit(old(State()), m, ceiling)
      ensures mutexes == old(mutexes)[m := QXMutex(ceiling, 0, 0, EMPTY)]
      ensures ceiling != 0 ==> active[ceiling] == Some(IsMutex(m))
    {
      var x := QXMutex(ceiling, 0, 0, EMPTY);
      assert ElemsOf(EMPTY) == {};
      MutexSet(mutexes, inside, m, x, multiset{});
      mutexes := mutexes[m := x];
      inside := inside[m := multiset{}];
      if ceiling != 0 {
        SetSlot(ceiling, IsMutex(m));
      }
    }

    // The stores of lock and unlock, field by field

    method SetDynPrio(t: nat, p: nat)
      requires Shaped() && t in threads && 1 <= threads[t].dynPrio <= 64 && 1 <= p <= 64
      modifies this`threads, readySet
      ensures Shaped()
      ensures State() == old(State()).(
                threads := old(State()).threads[t := old(State()).threads[t].(dynPrio := p)],
                ready := old(State()).ready - {old(threads)[t].dynPrio} + {p})
    {
      ThreadSet(threads, calls, t, threads[t].(dynPrio := p), calls[t]);
      assert calls[t := calls[t]] == calls;
      readySet.Remove(threads[t].dynPrio);
      threads := threads[t := threads[t].(dynPrio := p)];
      readySet.Insert(threads[t].dynPrio);
    }

    method SetSlot(p: nat, x: Slot)
      requires Shaped() && p < active.Length
      modifies active
      ensures Shaped() && State() == old(State()).(active := old(State()).active[p := x])
      ensures active[p] == Some(x)
    {
      SlotSet(active[..], p, x);
      active[p] := Some(x);
      assert active[..] == old(active[..])[p := Some(x)];
    }

    method SetMutex(m: Id, x: QXMutex, ghost i: multiset<nat>)
      requires Shaped() && m in mutexes && TwoWords(x.waitSet)
      modifies this`mutexes, this`inside
      ensures Shaped() && State() == old(State()).(mutexes := old(State()).mutexes[m := AbsMutex(x, i)])
      ensures mutexes == old(mutexes)[m := x]
    {
      MutexSet(mutexes, inside, m, x, i);
      mutexes := mutexes[m := x];
      inside := inside[m := i];
    }

    /** The branch for a free mutex (qxk_mutex.c:162-187). */
    method TakeFree(curr: nat, m: Id)
      requires Shaped() && curr in threads && m in mutexes && mutexes[m].lockNest == 0
      requires 1 <= threads[curr].dynPrio <= 64
      requires mutexes[m].ceiling != 0 ==>
                 mutexes[m].ceiling < active.Length && active[mutexes[m].ceiling] == Some(IsMutex(m))
      modifies this, active, readySet
      ensures Shaped() && State() == Acquire(old(State()), curr, m)
    {
      var me := mutexes[m].(lockNest := 1);
      if me.ceiling != 0 {
        // assertion 210
        assert active[me.ceiling] == Some(IsMutex(m));
        SetDynPrio(curr, me.ceiling);
        SetSlot(me.ceiling, IsThread(curr));
      }
      SetMutex(m, me.(holderPrio := curr), inside[m] + multiset{curr});
    }

    /** The branch for a mutex held by another thread (qxk_mutex.c:196-223). */
    method WaitFor(curr: nat, m: Id)
      requires Shaped() && curr in threads && m in mutexes && 1 <= threads[curr].dynPrio <= 64
      requires 0 < mutexes[m].holderPrio < active.Length && mutexes[m].ceiling < active.Length
      requires mutexes[m].ceiling != 0 ==> active[mutexes[m].ceiling] == active[mutexes[m].holderPrio]
      modifies this, readySet
      ensures Shaped() && State() == Block(old(State()), curr, m)
    {
      var me := mutexes[m];
      // assertions 230 and 240
      assert 0 < me.holderPrio;
      assert me.ceiling != 0 ==> active[me.ceiling] == active[me.holderPrio];
      var p := threads[curr].dynPrio;
      readySet.Remove(p);
      SetMutex(m, me.(waitSet := SetTo(me.waitSet, p, true)), inside[m]);
      ThreadSet(threads, calls, curr, threads[curr].(obj := Some(m)), Some(m));
      threads := threads[curr := threads[curr].(obj := Some(m))];
      calls := calls[curr := Some(m)];
    }

    /** QXMutex_lock until it returns (true) or blocks (false). */
    method Lock(curr: nat, m: Id) returns (returned: bool)
      requires Valid() && CanLock(State(), curr, m)
      modifies this, active, readySet
      ensures Valid() && State() == MutexSpec.Lock(old(State()), curr, m)
      ensures returned <==> old(mutexes)[m].lockNest == 0 || old(mutexes)[m].holderPrio == curr
    {
      LockCases(State(), curr, m, active.Length);
      returned := LockBranches(curr, m);
    }

    method LockBranches(curr: nat, m: Id) returns (returned: bool)
      requires Shaped() && curr in threads && m in mutexes && MayLock(State(), curr, m, active.Length)
      modifies this, active, readySet
      ensures Shaped() && State() == MutexSpec.Lock(old(State()), curr, m)
      ensures returned <==> old(mutexes)[m].lockNest == 0 || old(mutexes)[m].holderPrio == curr
    {
      if mutexes[m].lockNest == 0 {
        TakeFree(curr, m);
        returned := true;
      } else if mutexes[m].holderPrio == curr {
        // assertion 220
        assert mutexes[m].lockNest < 0xFF;
        SetMutex(m, mutexes[m].(lockNest := mutexes[m].lockNest + 1), inside[m] + multiset{curr});
        returned := true;
      } else {
        WaitFor(curr, m);
        returned := false;
      }
    }

    /** QXMutex_lock of `m` after it has been unblocked. */
    method Resume(curr: nat, m: Id)
      requires Valid() && CanResume(State(), curr, m)
      modifies this
      ensures Valid() && State() == MutexSpec.Resume(old(State()), curr, m)
    {
      ResumeKeepsInv(State(), curr, m);
      ThreadInRange(State(), active.Length, curr);
      Unblock(curr, m);
    }

    /** The code behind the blocking point (qxk_mutex.c:225-242). */
    method Unblock(curr: nat, m: Id)
      requires Shaped() && curr in threads && m in mutexes && 1 <= curr <= 64
      requires threads[curr].obj == Some(m) && curr !in ElemsOf(mutexes[m].waitSet)
      modifies this
      ensures Shaped() && State() == MutexSpec.Resume(old(State()), curr, m)
    {
      // the second assertion 240 and assertion 250
      assert threads[curr].obj == Some(m);
      assert !Has(mutexes[m].waitSet, curr);
      ThreadSet(threads, calls, curr, threads[curr].(obj := None), None);
      threads := threads[curr := threads[curr].(obj := None)];
      calls := calls[curr := None];
      SetMutex(m, mutexes[m], inside[m] + multiset{curr});
    }

    /** The end of the last nesting level, up to the hand-over (qxk_mutex.c:388-399). */
    method GiveUp(curr: nat, m: Id)
      requires Shaped() && curr in threads && m in mutexes && 1 <= curr <= 64
      requires 1 <= threads[curr].dynPrio <= 64 && mutexes[m].ceiling < active.Length
      modifies this, active, readySet
      ensures Shaped() && State() == Release(old(State()), curr, m)
    {
      var me := mutexes[m];
      if me.ceiling != 0 {
        SetDynPrio(curr, curr);
        SetSlot(me.ceiling, IsMutex(m));
      }
      SetMutex(m, me.(lockNest := 0, holderPrio := 0), inside[m] - multiset{curr});
    }

    /** The hand-over to the highest-priority waiter (qxk_mutex.c:409-446).  The source
        leaves lockNest at 1 throughout. */
    method PassOn(m: Id, p: nat)
      requires Shaped() && m in mutexes && 1 <= p < active.Length && active[p] == Some(IsThread(p)) && p in threads
      requires mutexes[m].ceiling < active.Length && (mutexes[m].ceiling == 0 || p < mutexes[m].ceiling)
      requires threads[p].dynPrio == p && threads[p].obj == Some(m)
      modifies this, active, readySet
      ensures Shaped() && State() == HandOver(old(State()), m, p)
    {
      var me := mutexes[m];
      var thr := active[p].value.prio;
      // assertion 410
      assert me.ceiling == 0 || p < me.ceiling;
      assert threads[thr].dynPrio == thr && threads[thr].obj == Some(m);
      if me.ceiling != 0 {
        ThreadSet(threads, calls, thr, threads[thr].(dynPrio := me.ceiling), calls[thr]);
        assert calls[thr := calls[thr]] == calls;
        threads := threads[thr := threads[thr].(dynPrio := me.ceiling)];
        SetSlot(me.ceiling, IsThread(thr));
      }
      readySet.Insert(threads[thr].dynPrio);
      SetMutex(m, me.(lockNest := 1, holderPrio := thr, waitSet := SetTo(me.waitSet, p, false)), inside[m]);
    }

    /** QXMutex_unlock. */
    method Unlock(curr: nat, m: Id)
      requires Valid() && CanUnlock(State(), curr, m)
      modifies this, active, readySet
      ensures Valid() && State() == Apply(old(State()), OpUnlock(curr, m))
    {
      UnlockKeepsInv(State(), curr, m);
      UnlockCases(State(), curr, m, active.Length);
      UnlockBranches(curr, m);
    }

    method UnlockBranches(curr: nat, m: Id)
      requires Shaped() && curr in threads && m in mutexes && mutexes[m].lockNest > 0
      requires MayUnlock(State(), curr, m, active.Length)
      modifies this, active, readySet
      ensures Shaped() && State() == MutexSpec.Unlock(old(State()), curr, m)
    {
      if mutexes[m].lockNest == 1 {
        var waiting := mutexes[m].waitSet;
        GiveUp(curr, m);
        if !NoBits(waiting) {
          var p := FindMax(waiting);
          MaxUnique(ElemsOf(waiting), p);
          PassOn(m, p);
        }
      } else {
        SetMutex(m, mutexes[m].(lockNest := mutexes[m].lockNest - 1), inside[m] - multiset{curr});
      }
    }
  }

  /** What the assertions of QXMutex_lock say. */
  ghost predicate MayLock(s: Sys, t: nat, m: Id, n: nat)
    requires t in s.threads && m in s.mutexes
  {
    var x := s.mutexes[m];
    && 1 <= s.threads[t].dynPrio < n && x.ceiling < n
    && (x.lockNest == 0 && x.ceiling != 0 ==> x.ceiling in s.active && s.active[x.ceiling] == IsMutex(m))
    && (x.lockNest > 0 && x.holder == t ==> x.lockNest < 0xFF)
    && (x.lockNest > 0 && x.holder != t ==>
          && 0 < x.holder < n && x.holder in s.active
          && (x.ceiling != 0 ==> x.ceiling in s.active && s.active[x.ceiling] == s.active[x.holder]))
  }

  lemma LockCases(s: Sys, t: nat, m: Id, n: nat)
    requires Inv(s) && CanLock(s, t, m) && n >= 1 && forall p <- s.active :: p < n
    ensures Inv(MutexSpec.Lock(s, t, m)) && MayLock(s, t, m, n)
  {
    StepKeepsInv(s, OpLock(t, m));
    ThreadInRange(s, n, t);
    MutexInRange(s, n, m);
    assert MutexOk(m, s.mutexes[m], s.threads, s.active);
    if s.mutexes[m].lockNest == 0 {
      AcquireKeepsInv(s, t, m);
    } else if s.mutexes[m].holder != t {
      BlockKeepsInv(s, t, m);
    }
  }

  /** What the assertions of QXMutex_unlock say. */
  ghost predicate MayUnlock(s: Sys, t: nat, m: Id, n: nat)
    requires t in s.threads && m in s.mutexes
  {
    var q, p := Release(s, t, m), MaxOf(s.mutexes[m].waitSet);
    && 1 <= t < n && 1 <= s.threads[t].dynPrio < n && s.mutexes[m].ceiling < n
    && (forall w <- s.mutexes[m].waitSet :: w in s.threads)
    && (s.mutexes[m].lockNest == 1 && s.mutexes[m].waitSet != {} ==>
          && 1 <= p < n && p in q.threads && p in q.active && q.active[p] == IsThread(p)
          && (q.mutexes[m].ceiling == 0 || p < q.mutexes[m].ceiling)
          && q.threads[p].dynPrio == p && q.threads[p].obj == Some(m))
  }

  lemma UnlockCases(s: Sys, t: nat, m: Id, n: nat)
    requires Inv(s) && CanUnlock(s, t, m) && n >= 1 && forall p <- s.active :: p < n
    ensures MayUnlock(s, t, m, n)
  {
    UnlockKeepsInv(s, t, m);
    ThreadInRange(s, n, t);
    MutexInRange(s, n, m);
    if s.mutexes[m].lockNest == 1 && s.mutexes[m].waitSet != {} {
      ReleaseKeepsCore(s, t, m);
      HandOverKeepsCore(Release(s, t, m), m, MaxOf(s.mutexes[m].waitSet));
    }
  }

  function Fresh(prios: set<nat>): map<nat, Thread> {
    map t | t in prios :: Thread(t, None, None)
  }

  function Slots(prios: set<nat>): map<nat, Slot> {
    map t | t in prios :: IsThread(t)
  }

  lemma FreshTable(table: seq<Option<Slot>>, prios: set<nat>)
    requires forall p <- prios :: p < |table|
    requires forall p: nat :: p < |table| ==> table[p] == if p in prios then Some(IsThread(p)) else None
    ensures AbsActive(table) == Slots(prios)
  {
    assert forall p: nat :: p in AbsActive(table) <==> p in Slots(prios);
  }

  lemma FreshState(ths: map<nat, QXThread>, calls: map<nat, Option<Id>>, prios: set<nat>)
    requires 0 !in prios && ths.Keys == calls.Keys == prios
    requires forall t <- prios :: ths[t] == QXThread(t, None) && calls[t] == None
    ensures Inv(Sys(AbsThreads(ths, calls), AbsMutexes(map[], map[]), Slots(prios), prios))
  {
    assert AbsThreads(ths, calls) == Fresh(prios);
    assert AbsMutexes(map[], map[]) == map[];
    FreshInv(prios);
  }

  lemma FreshInv(prios: set<nat>)
    requires 0 !in prios
    ensures Inv(Sys(Fresh(prios), map[], Slots(prios), prios))
  {
    var ths := Fresh(prios);
    forall p | p in prios ensures SomeoneAt(ths, p) {
      assert p in ths && ths[p].dynPrio == p;
    }
  }

  ghost function AfterInit(s: Sys, m: Id, ceiling: nat): Sys {
    s.(mutexes := s.mutexes[m := Mutex(ceiling, 0, 0, {}, multiset{})],
       active := if ceiling == 0 then s.active else s.active[ceiling := IsMutex(m)])
  }

  lemma InitKeepsInv(s: Sys, m: Id, ceiling: nat)
    requires Inv(s) && m !in s.mutexes && (ceiling == 0 || ceiling !in s.active)
    ensures Inv(AfterInit(s, m, ceiling))
  {
    var r := AfterInit(s, m, ceiling);
    forall n | n in r.mutexes ensures MutexOk(n, r.mutexes[n], r.threads, r.active) {
      InitMutexOk(s, m, ceiling, n);
    }
    forall t | t in r.threads
      ensures ThreadOk(t, r.threads[t], r.mutexes)
      ensures Blocked(t, r.threads[t], r.mutexes) <==> Blocked(t, s.threads[t], s.mutexes)
    {
      InitThreadOk(s, m, ceiling, t);
    }
  }

  lemma InitMutexOk(s: Sys, m: Id, ceiling: nat, n: Id)
    requires Inv(s) && m !in s.mutexes && (ceiling == 0 || ceiling !in s.active) && n in AfterInit(s, m, ceiling).mutexes
    ensures var r := AfterInit(s, m, ceiling); MutexOk(n, r.mutexes[n], r.threads, r.active)
  {
    if n != m {
      assert MutexOk(n, s.mutexes[n], s.threads, s.active);
    }
  }

  lemma InitThreadOk(s: Sys, m: Id, ceiling: nat, t: nat)
    requires Inv(s) && m !in s.mutexes && t in s.threads
    ensures var r := AfterInit(s, m, ceiling);
            && ThreadOk(t, s.threads[t], r.mutexes)
            && (Blocked(t, s.threads[t], r.mutexes) <==> Blocked(t, s.threads[t], s.mutexes))
  {
    assert ThreadOk(t, s.threads[t], s.mutexes);
    if s.threads[t].dynPrio != t {
      var n :| n in s.mutexes && Boosts(s.mutexes[n], t, s.threads[t].dynPrio);
      assert n in AfterInit(s, m, ceiling).mutexes && Boosts(AfterInit(s, m, ceiling).mutexes[n], t, s.threads[t].dynPrio);
    }
  }
}

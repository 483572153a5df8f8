/** The priority-ceiling mutex of the QXK kernel (qxk_mutex.c) as a protocol between
    extended threads that wait without time-out.  QXMutex_lock is one step when it does
    not block, and otherwise a blocking step and, after the hand-over, a resuming step.

    A thread is known by its base priority.  `obj` is the object it blocks on
    (temp.obj), which stays set after the hand-over until the thread resumes.  `call` is
    where the thread's control is: inside QXMutex_lock of that mutex, at the point where
    it blocks.  `inside` counts the returned locks not yet unlocked, per thread: it is
    what mutual exclusion is about.  No step of the source reads `inside`, and `call`
    only says which code a thread executes next; the kernel lets a thread execute when
    its dynamic priority is in the ready set. */
module MutexSpec {
  import opened Basics
  import opened PrioSet

  type Id = nat

  datatype Thread = Thread(dynPrio: nat, obj: Option<Id>, call: Option<Id>)

  datatype Mutex = Mutex(ceiling: nat, lockNest: nat, holder: nat, waitSet: set<nat>, inside: multiset<nat>)

  /** An entry of QF_active_. */
  datatype Slot = IsThread(prio: nat) | IsMutex(id: Id)

  datatype Sys = Sys(threads: map<nat, Thread>, mutexes: map<Id, Mutex>, active: map<nat, Slot>, ready: set<nat>)

  // ------------------------------------------------------------------
  // Steps

  /** The kernel lets the thread execute, outside QXMutex_lock. */
  ghost predicate Running(s: Sys, t: nat) {
    t in s.threads && s.threads[t].dynPrio in s.ready && s.threads[t].call == None
  }

  /** What the preconditions of QXMutex_lock demand, and that a thread holding a ceiling
      mutex locks no other.  That the thread is not blocked on any object is proved. */
  ghost predicate CanLock(s: Sys, t: nat, m: Id) {
    && Running(s, t) && m in s.mutexes
    && (s.mutexes[m].ceiling == 0 || t < s.mutexes[m].ceiling)
    && (s.threads[t].dynPrio == t || s.mutexes[m].holder == t)
    && (s.mutexes[m].holder == t ==> s.mutexes[m].lockNest < 0xFF)
  }

  /** QXMutex_lock of a free mutex. */
  function Acquire(s: Sys, t: nat, m: Id): Sys
    requires t in s.threads && m in s.mutexes
  {
    var x, th := s.mutexes[m], s.threads[t];
    var u := s.(mutexes := s.mutexes[m := x.(lockNest := 1, holder := t, inside := x.inside + multiset{t})]);
    if x.ceiling == 0 then u
    else
      u.(threads := s.threads[t := th.(dynPrio := x.ceiling)],
         ready := s.ready - {th.dynPrio} + {x.ceiling},
         active := s.active[x.ceiling := IsThread(t)])
  }

  /** Nested locking by the holder. */
  function Nest(s: Sys, t: nat, m: Id): Sys
    requires m in s.mutexes
  {
    var x := s.mutexes[m];
    s.(mutexes := s.mutexes[m := x.(lockNest := x.lockNest + 1, inside := x.inside + multiset{t})])
  }

  /** The mutex is held by another thread: block. */
  function Block(s: Sys, t: nat, m: Id): Sys
    requires t in s.threads && m in s.mutexes
  {
    var x, th := s.mutexes[m], s.threads[t];
    s.(mutexes := s.mutexes[m := x.(waitSet := x.waitSet + {th.dynPrio})],
       threads := s.threads[t := th.(obj := Some(m), call := Some(m))],
       ready := s.ready - {th.dynPrio})
  }

  /** QXMutex_lock up to its return or to the point where it blocks. */
  function Lock(s: Sys, t: nat, m: Id): Sys
    requires t in s.threads && m in s.mutexes
  {
    if s.mutexes[m].lockNest == 0 then Acquire(s, t, m)
    else if s.mutexes[m].holder == t then Nest(s, t, m)
    else Block(s, t, m)
  }

  /** The kernel lets a thread that blocked in QXMutex_lock of `m` execute again. */
  ghost predicate CanResume(s: Sys, t: nat, m: Id) {
    t in s.threads && m in s.mutexes && s.threads[t].call == Some(m) && s.threads[t].dynPrio in s.ready
  }

  /** QXMutex_lock of `m` after blocking. */
  function Resume(s: Sys, t: nat, m: Id): Sys
    requires t in s.threads && m in s.mutexes
  {
    s.(threads := s.threads[t := s.threads[t].(obj := None, call := None)],
       mutexes := s.mutexes[m := s.mutexes[m].(inside := s.mutexes[m].inside + multiset{t})])
  }

  /** Preconditions 401 and 402 of QXMutex_unlock, for a running thread. */
  ghost predicate CanUnlock(s: Sys, t: nat, m: Id) {
    Running(s, t) && m in s.mutexes && s.mutexes[m].lockNest > 0 && s.mutexes[m].holder == t
  }

  /** The last unlock: the caller's priority is restored and the mutex is free. */
  function Release(s: Sys, t: nat, m: Id): Sys
    requires t in s.threads && m in s.mutexes
  {
    var x, th := s.mutexes[m], s.threads[t];
    var u := s.(mutexes := s.mutexes[m := x.(lockNest := 0, holder := 0, inside := x.inside - multiset{t})]);
    if x.ceiling == 0 then u
    else
      u.(threads := s.threads[t := th.(dynPrio := t)],
         ready := s.ready - {th.dynPrio} + {t},
         active := s.active[x.ceiling := IsMutex(m)])
  }

  /** The mutex passes to the waiting thread `p`, locked once. */
  function HandOver(s: Sys, m: Id, p: nat): Sys
    requires m in s.mutexes && p in s.threads
  {
    var x, thr := s.mutexes[m], s.threads[p];
    var u := s.(mutexes := s.mutexes[m := x.(lockNest := 1, holder := p, waitSet := x.waitSet - {p})]);
    if x.ceiling == 0 then u.(ready := s.ready + {thr.dynPrio})
    else
      u.(threads := s.threads[p := thr.(dynPrio := x.ceiling)],
         ready := s.ready + {x.ceiling},
         active := s.active[x.ceiling := IsThread(p)])
  }

  function Unnest(s: Sys, t: nat, m: Id): Sys
    requires m in s.mutexes && s.mutexes[m].lockNest > 0
  {
    var x := s.mutexes[m];
    s.(mutexes := s.mutexes[m := x.(lockNest := x.lockNest - 1, inside := x.inside - multiset{t})])
  }

  /** QXMutex_unlock. */
  ghost function Unlock(s: Sys, t: nat, m: Id): Sys
    requires t in s.threads && m in s.mutexes && s.mutexes[m].lockNest > 0
    requires forall w <- s.mutexes[m].waitSet :: w in s.threads
  {
    if s.mutexes[m].lockNest > 1 then Unnest(s, t, m)
    else if s.mutexes[m].waitSet == {} then Release(s, t, m)
    else HandOver(Release(s, t, m), m, MaxOf(s.mutexes[m].waitSet))
  }

  // ------------------------------------------------------------------
  // The invariant

  type Threads = map<nat, Thread>
  type Mutexes = map<Id, Mutex>
  type Active = map<nat, Slot>

  /** Priorities and ceilings are unique and positive. */
  ghost predicate Distinct(ths: Threads, ms: Mutexes, act: Active) {
    && 0 !in ths
    && (forall m <- ms :: ms[m].ceiling !in ths)
    && (forall m, n :: m in ms && n in ms && m != n && ms[m].ceiling == ms[n].ceiling ==> ms[m].ceiling == 0)
    && (forall t <- ths :: t in act && act[t] == IsThread(t))
  }

  ghost function Repeat(t: nat, n: nat): multiset<nat> {
    multiset{}[t := n]
  }

  /** lockNest is positive iff there is a holder, who does not wait; the holder is inside
      lockNest times, or about to resume; nobody else is inside. */
  ghost predicate HolderOk(m: Id, x: Mutex, ths: Threads) {
    && (x.lockNest > 0 <==> x.holder != 0) && x.lockNest <= 0xFF
    && (x.holder == 0 ==> x.inside == multiset{})
    && (x.holder != 0 ==>
          && x.holder in ths && x.holder !in x.waitSet
          && if ths[x.holder].obj == Some(m) then x.lockNest == 1 && x.inside == multiset{}
             else x.inside == Repeat(x.holder, x.lockNest))
  }

  /** The ceiling slot of QF_active_ is the mutex when free and otherwise the holder, who
      runs at the ceiling. */
  ghost predicate CeilingOk(m: Id, x: Mutex, ths: Threads, act: Active) {
    x.ceiling != 0 ==>
      && x.ceiling in act && act[x.ceiling] == (if x.holder == 0 then IsMutex(m) else IsThread(x.holder))
      && (x.holder != 0 ==> x.holder < x.ceiling && x.holder in ths && ths[x.holder].dynPrio == x.ceiling)
  }

  ghost predicate WaitersOk(m: Id, x: Mutex, ths: Threads) {
    forall w <- x.waitSet ::
      w in ths && ths[w].obj == Some(m) && ths[w].dynPrio == w && (x.ceiling == 0 || w < x.ceiling)
  }

  ghost predicate MutexOk(m: Id, x: Mutex, ths: Threads, act: Active) {
    HolderOk(m, x, ths) && CeilingOk(m, x, ths, act) && WaitersOk(m, x, ths)
  }

  /** Blocked and not yet handed the mutex. */
  ghost predicate Blocked(t: nat, th: Thread, ms: Mutexes) {
    th.obj.Some? && th.obj.value in ms && t in ms[th.obj.value].waitSet
  }

  ghost predicate Boosts(x: Mutex, t: nat, p: nat) {
    x.ceiling == p != 0 && x.holder == t
  }

  /** A boosted thread holds the mutex whose ceiling it runs at, and a thread suspended in
      QXMutex_lock has that mutex as its blocking object and either waits for it or holds
      it. */
  ghost predicate ThreadOk(t: nat, th: Thread, ms: Mutexes) {
    && (th.dynPrio == t || exists m <- ms :: Boosts(ms[m], t, th.dynPrio))
    && th.obj == th.call
    && (th.obj.Some? ==>
          th.obj.value in ms && (t in ms[th.obj.value].waitSet || ms[th.obj.value].holder == t))
  }

  ghost predicate SomeoneAt(ths: Threads, p: nat) {
    exists t <- ths :: ths[t].dynPrio == p
  }

  ghost predicate ReadyOk(ths: Threads, ms: Mutexes, ready: set<nat>) {
    && (forall t <- ths :: ths[t].dynPrio in ready <==> !Blocked(t, ths[t], ms))
    && (forall p <- ready :: SomeoneAt(ths, p))
  }

  ghost predicate Core(s: Sys) {
    && Distinct(s.threads, s.mutexes, s.active)
    && (forall m <- s.mutexes :: MutexOk(m, s.mutexes[m], s.threads, s.active))
    && (forall t <- s.threads :: ThreadOk(t, s.threads[t], s.mutexes))
    && ReadyOk(s.threads, s.mutexes, s.ready)
  }

  /** Nobody waits for a free mutex. */
  ghost predicate NoIdleWaiters(ms: Mutexes) {
    forall m <- ms :: ms[m].holder == 0 ==> ms[m].waitSet == {}
  }

  ghost predicate Inv(s: Sys) {
    Core(s) && NoIdleWaiters(s.mutexes)
  }

  /** No two threads are inside the same mutex. */
  lemma MutualExclusion(s: Sys, m: Id, t: nat, u: nat)
    requires Inv(s) && m in s.mutexes && s.mutexes[m].inside[t] > 0 && s.mutexes[m].inside[u] > 0
    ensures t == u == s.mutexes[m].holder && s.mutexes[m].inside[t] == s.mutexes[m].lockNest
  {
    assert MutexOk(m, s.mutexes[m], s.threads, s.active);
  }

  /** Dynamic priorities identify threads. */
  lemma DynPrioUnique(ths: Threads, ms: Mutexes, act: Active, t: nat, u: nat)
    requires Distinct(ths, ms, act) && t in ths && u in ths && ths[t].dynPrio == ths[u].dynPrio
    requires ThreadOk(t, ths[t], ms) && ThreadOk(u, ths[u], ms)
    ensures t == u
  {
    if ths[t].dynPrio != t {
      var m :| m in ms && Boosts(ms[m], t, ths[t].dynPrio);
      if ths[u].dynPrio != u {
        var n :| n in ms && Boosts(ms[n], u, ths[u].dynPrio);
      }
    }
  }

  /** The ready set is exactly the dynamic priorities of the threads that are not
      blocked. */
  lemma ReadyIsExact(s: Sys)
    requires Inv(s)
    ensures s.ready == set t | t in s.threads && !Blocked(t, s.threads[t], s.mutexes) :: s.threads[t].dynPrio
  {
    var ths := s.threads;
    forall p | p in s.ready ensures exists t <- ths :: !Blocked(t, ths[t], s.mutexes) && ths[t].dynPrio == p {
      assert SomeoneAt(ths, p);
      var t :| t in ths && ths[t].dynPrio == p;
    }
  }

  // ------------------------------------------------------------------
  // Every step keeps it

  /** A step that changes one mutex `m`, though not its ceiling, one thread `t`, the
      ceiling slot of `m`, and the place of `t` in the ready set. */
  ghost predicate Local(s: Sys, r: Sys, t: nat, m: Id) {
    && t in s.threads && m in s.mutexes && t in r.threads && m in r.mutexes
    && var th, th', x, x' := s.threads[t], r.threads[t], s.mutexes[m], r.mutexes[m];
    && r.threads == s.threads[t := th']
    && r.mutexes == s.mutexes[m := x']
    && x'.ceiling == x.ceiling
    // only t may stop holding or waiting for m
    && (x.holder != 0 && x.holder != t ==> x'.holder == x.holder)
    && (forall u :: u != t ==> (u in x'.waitSet <==> u in x.waitSet))
    && (th'.obj == th.obj || (th.obj in {None, Some(m)} && th'.obj in {None, Some(m)}))
    && (th'.dynPrio == th.dynPrio || (th.obj in {None, Some(m)} && th.dynPrio in {t, x.ceiling}))
    && (r.active == s.active || (x.ceiling != 0 && x.ceiling in r.active && r.active == s.active[x.ceiling := r.active[x.ceiling]]))
    && r.ready == (s.ready - {th.dynPrio}) + if Blocked(t, th', r.mutexes) then {} else {th'.dynPrio}
  }

  lemma OtherMutexesKept(s: Sys, r: Sys, t: nat, m: Id, n: Id)
    requires Core(s) && Local(s, r, t, m) && n in s.mutexes && n != m
    ensures MutexOk(n, r.mutexes[n], r.threads, r.active)
  {
    assert MutexOk(n, s.mutexes[n], s.threads, s.active);
  }

  lemma OtherThreadsKept(s: Sys, r: Sys, t: nat, m: Id, u: nat)
    requires Core(s) && Local(s, r, t, m) && u in s.threads && u != t
    ensures ThreadOk(u, r.threads[u], r.mutexes)
    ensures Blocked(u, r.threads[u], r.mutexes) <==> Blocked(u, s.threads[u], s.mutexes)
  {
    assert ThreadOk(u, s.threads[u], s.mutexes);
    if s.threads[u].dynPrio != u {
      var n :| n in s.mutexes && Boosts(s.mutexes[n], u, s.threads[u].dynPrio);
      assert Boosts(r.mutexes[n], u, r.threads[u].dynPrio);
    }
  }

  lemma DistinctKept(s: Sys, r: Sys, t: nat, m: Id)
    requires Core(s) && Local(s, r, t, m)
    ensures Distinct(r.threads, r.mutexes, r.active)
  {
    forall n, o | n in r.mutexes && o in r.mutexes && n != o && r.mutexes[n].ceiling == r.mutexes[o].ceiling
      ensures r.mutexes[n].ceiling == 0
    {
      assert r.mutexes[n].ceiling == s.mutexes[n].ceiling && r.mutexes[o].ceiling == s.mutexes[o].ceiling;
    }
  }

  lemma ReadyKeptFor(s: Sys, r: Sys, t: nat, m: Id, u: nat)
    requires Core(s) && Local(s, r, t, m) && u in s.threads && u != t
    requires ThreadOk(t, r.threads[t], r.mutexes) && Distinct(r.threads, r.mutexes, r.active)
    ensures r.threads[u].dynPrio in r.ready <==> !Blocked(u, r.threads[u], r.mutexes)
  {
    OtherThreadsKept(s, r, t, m, u);
    assert r.threads[u] == s.threads[u];
    if s.threads[u].dynPrio == s.threads[t].dynPrio {
      DynPrioUnique(s.threads, s.mutexes, s.active, u, t);
      assert false;
    }
    if r.threads[u].dynPrio == r.threads[t].dynPrio {
      DynPrioUnique(r.threads, r.mutexes, r.active, u, t);
      assert false;
    }
  }

  lemma ReadyHasOwners(s: Sys, r: Sys, t: nat, m: Id, p: nat)
    requires Core(s) && Local(s, r, t, m) && p in r.ready
    ensures SomeoneAt(r.threads, p)
  {
    if p == r.threads[t].dynPrio {
      assert t in r.threads;
    } else {
      assert SomeoneAt(s.threads, p);
      var u :| u in s.threads && s.threads[u].dynPrio == p;
      assert u in r.threads && r.threads[u].dynPrio == p;
    }
  }

  lemma ReadyKept(s: Sys, r: Sys, t: nat, m: Id)
    requires Core(s) && Local(s, r, t, m)
    requires ThreadOk(t, r.threads[t], r.mutexes) && Distinct(r.threads, r.mutexes, r.active)
    ensures ReadyOk(r.threads, r.mutexes, r.ready)
  {
    forall u | u in r.threads ensures r.threads[u].dynPrio in r.ready <==> !Blocked(u, r.threads[u], r.mutexes) {
      if u != t {
        ReadyKeptFor(s, r, t, m, u);
      }
    }
    forall p | p in r.ready ensures SomeoneAt(r.threads, p) {
      ReadyHasOwners(s, r, t, m, p);
    }
  }

  /** Then only the changed mutex and the changed thread need a look. */
  lemma LocalKeepsCore(s: Sys, r: Sys, t: nat, m: Id)
    requires Core(s) && Local(s, r, t, m)
    requires MutexOk(m, r.mutexes[m], r.threads, r.active)
    requires ThreadOk(t, r.threads[t], r.mutexes)
    ensures Core(r)
  {
    DistinctKept(s, r, t, m);
    ReadyKept(s, r, t, m);
    forall n | n in r.mutexes ensures MutexOk(n, r.mutexes[n], r.threads, r.active) {
      if n != m {
        OtherMutexesKept(s, r, t, m, n);
      }
    }
    forall u | u in r.threads ensures ThreadOk(u, r.threads[u], r.mutexes) {
      if u != t {
        OtherThreadsKept(s, r, t, m, u);
      }
    }
  }

  lemma RepeatMore(t: nat, n: nat)
    ensures Repeat(t, n) + multiset{t} == Repeat(t, n + 1)
    ensures n > 0 ==> Repeat(t, n) - multiset{t} == Repeat(t, n - 1)
    ensures Repeat(t, 0) == multiset{}
  {
  }

  ghost predicate Unblocked(s: Sys, t: nat) {
    t in s.threads && s.threads[t].dynPrio in s.ready && s.threads[t].obj == None
  }

  /** A thread the kernel lets execute is not blocked on any object: the last conjunct of
      precondition 200. */
  lemma RunningIsUnblocked(s: Sys, t: nat)
    requires Core(s) && Running(s, t)
    ensures Unblocked(s, t) && !Blocked(t, s.threads[t], s.mutexes) && t != 0
  {
    assert ThreadOk(t, s.threads[t], s.mutexes);
  }

  /** A running thread is in the ready set at its dynamic priority, and waits nowhere. */
  lemma RunningIsReady(s: Sys, t: nat)
    requires Core(s) && t in s.threads && !Blocked(t, s.threads[t], s.mutexes)
    ensures s.threads[t].dynPrio in s.ready
    ensures (s.ready - {s.threads[t].dynPrio}) + {s.threads[t].dynPrio} == s.ready
    ensures t != 0 && ThreadOk(t, s.threads[t], s.mutexes)
  {
  }

  /** Locking a free mutex; assertion 210 holds. */
  lemma AcquireKeepsInv(s: Sys, t: nat, m: Id)
    requires Inv(s) && CanLock(s, t, m) && s.mutexes[m].lockNest == 0
    ensures s.mutexes[m].ceiling != 0 ==>
              s.mutexes[m].ceiling in s.active && s.active[s.mutexes[m].ceiling] == IsMutex(m)
    ensures Inv(Acquire(s, t, m))
  {
    RunningIsUnblocked(s, t);
    assert MutexOk(m, s.mutexes[m], s.threads, s.active);
    AcquireIsLocal(s, t, m);
    AcquireMutexOk(s, t, m);
    LocalKeepsCore(s, Acquire(s, t, m), t, m);
  }

  lemma AcquireIsLocal(s: Sys, t: nat, m: Id)
    requires Unblocked(s, t) && m in s.mutexes && s.mutexes[m].holder == 0 && s.threads[t].dynPrio == t
    ensures Local(s, Acquire(s, t, m), t, m)
  {
    var r := Acquire(s, t, m);
    assert r.threads == s.threads[t := r.threads[t]];
    assert s.ready - {t} + {t} == s.ready;
  }

  lemma AcquireMutexOk(s: Sys, t: nat, m: Id)
    requires Inv(s) && CanLock(s, t, m) && s.mutexes[m].lockNest == 0
    ensures var r := Acquire(s, t, m);
            MutexOk(m, r.mutexes[m], r.threads, r.active) && ThreadOk(t, r.threads[t], r.mutexes)
  {
    RunningIsUnblocked(s, t);
    var r := Acquire(s, t, m);
    assert MutexOk(m, s.mutexes[m], s.threads, s.active);
    RunningIsReady(s, t);
    RepeatMore(t, 0);
    assert s.mutexes[m].ceiling != 0 ==> Boosts(r.mutexes[m], t, r.threads[t].dynPrio);
    if s.mutexes[m].ceiling == 0 && s.threads[t].dynPrio != t {
      BoostElsewhere(s, r, t, m);
    }
  }

  /** Nested locking. */
  lemma NestKeepsInv(s: Sys, t: nat, m: Id)
    requires Inv(s) && CanLock(s, t, m) && s.mutexes[m].lockNest > 0 && s.mutexes[m].holder == t
    ensures Inv(Nest(s, t, m))
  {
    RunningIsUnblocked(s, t);
    assert MutexOk(m, s.mutexes[m], s.threads, s.active);
    RepeatMore(t, s.mutexes[m].lockNest);
    CountKeepsInv(s, t, m, Nest(s, t, m).mutexes[m]);
  }

  /** Only the nesting count of the running holder changes. */
  lemma CountKeepsInv(s: Sys, t: nat, m: Id, x: Mutex)
    requires Inv(s) && t in s.threads && m in s.mutexes && s.threads[t].obj == None
    requires x.ceiling == s.mutexes[m].ceiling && x.holder == s.mutexes[m].holder && x.waitSet == s.mutexes[m].waitSet
    requires MutexOk(m, x, s.threads, s.active)
    ensures Inv(s.(mutexes := s.mutexes[m := x]))
  {
    var r := s.(mutexes := s.mutexes[m := x]);
    RunningIsReady(s, t);
    CountIsLocal(s, t, m, x);
    if s.threads[t].dynPrio != t {
      BoostKept(s, r, t, m);
    }
    LocalKeepsCore(s, r, t, m);
  }

  lemma CountIsLocal(s: Sys, t: nat, m: Id, x: Mutex)
    requires Unblocked(s, t) && m in s.mutexes
    requires x.ceiling == s.mutexes[m].ceiling && x.holder == s.mutexes[m].holder && x.waitSet == s.mutexes[m].waitSet
    ensures Local(s, s.(mutexes := s.mutexes[m := x]), t, m)
  {
    assert s.threads == s.threads[t := s.threads[t]];
    assert s.ready - {s.threads[t].dynPrio} + {s.threads[t].dynPrio} == s.ready;
  }

  lemma BoostKept(s: Sys, r: Sys, t: nat, m: Id)
    requires t in s.threads && m in s.mutexes && ThreadOk(t, s.threads[t], s.mutexes)
    requires m in r.mutexes && r.mutexes == s.mutexes[m := r.mutexes[m]]
    requires r.mutexes[m].ceiling == s.mutexes[m].ceiling && r.mutexes[m].holder == s.mutexes[m].holder
    requires s.threads[t].dynPrio != t
    ensures exists n <- r.mutexes :: Boosts(r.mutexes[n], t, s.threads[t].dynPrio)
  {
    var n :| n in s.mutexes && Boosts(s.mutexes[n], t, s.threads[t].dynPrio);
    assert n in r.mutexes && Boosts(r.mutexes[n], t, s.threads[t].dynPrio);
  }

  /** Blocking; assertions 230 and 240 hold. */
  lemma BlockKeepsInv(s: Sys, t: nat, m: Id)
    requires Inv(s) && CanLock(s, t, m) && s.mutexes[m].lockNest > 0 && s.mutexes[m].holder != t
    ensures s.mutexes[m].holder in s.threads && s.mutexes[m].holder in s.active
    ensures s.mutexes[m].ceiling != 0 ==>
              s.mutexes[m].ceiling in s.active && s.active[s.mutexes[m].ceiling] == s.active[s.mutexes[m].holder]
    ensures Inv(Block(s, t, m))
  {
    RunningIsUnblocked(s, t);
    var r := Block(s, t, m);
    assert MutexOk(m, s.mutexes[m], s.threads, s.active);
    BlockIsLocal(s, t, m);
    BlockMutexOk(s, t, m);
    LocalKeepsCore(s, r, t, m);
  }

  lemma BlockIsLocal(s: Sys, t: nat, m: Id)
    requires Unblocked(s, t) && m in s.mutexes && s.mutexes[m].holder != t && s.threads[t].dynPrio == t
    ensures Local(s, Block(s, t, m), t, m)
    ensures ThreadOk(t, Block(s, t, m).threads[t], Block(s, t, m).mutexes)
  {
  }

  lemma BlockMutexOk(s: Sys, t: nat, m: Id)
    requires Inv(s) && CanLock(s, t, m) && s.mutexes[m].lockNest > 0 && s.mutexes[m].holder != t
    ensures MutexOk(m, Block(s, t, m).mutexes[m], Block(s, t, m).threads, Block(s, t, m).active)
  {
    RunningIsUnblocked(s, t);
    assert MutexOk(m, s.mutexes[m], s.threads, s.active);
  }

  /** A thread that blocked executes again only when it holds the mutex; the second
      assertion 240 and assertion 250 hold. */
  lemma ResumeKeepsInv(s: Sys, t: nat, m: Id)
    requires Inv(s) && CanResume(s, t, m)
    ensures s.threads[t].obj == Some(m) && t !in s.mutexes[m].waitSet && s.mutexes[m].holder == t
    ensures Inv(Resume(s, t, m))
  {
    assert ThreadOk(t, s.threads[t], s.mutexes);
    var r := Resume(s, t, m);
    assert MutexOk(m, s.mutexes[m], s.threads, s.active);
    RunningIsReady(s, t);
    RepeatMore(t, 0);
    if s.threads[t].dynPrio != t {
      BoostKept(s, r, t, m);
    }
    LocalKeepsCore(s, r, t, m);
  }

  lemma UnnestKeepsInv(s: Sys, t: nat, m: Id)
    requires Inv(s) && CanUnlock(s, t, m) && s.mutexes[m].lockNest > 1
    ensures Inv(Unnest(s, t, m))
  {
    RunningIsUnblocked(s, t);
    assert MutexOk(m, s.mutexes[m], s.threads, s.active);
    RepeatMore(t, s.mutexes[m].lockNest);
    CountKeepsInv(s, t, m, Unnest(s, t, m).mutexes[m]);
  }

  /** Precondition 400 holds of the holder: it runs at the ceiling. */
  lemma ReleaseKeepsCore(s: Sys, t: nat, m: Id)
    requires Inv(s) && CanUnlock(s, t, m) && s.mutexes[m].lockNest == 1
    ensures s.mutexes[m].ceiling != 0 ==> s.threads[t].dynPrio == s.mutexes[m].ceiling
    ensures Core(Release(s, t, m))
  {
    RunningIsUnblocked(s, t);
    assert MutexOk(m, s.mutexes[m], s.threads, s.active);
    ReleaseIsLocal(s, t, m);
    ReleaseMutexOk(s, t, m);
    ReleaseThreadOk(s, t, m);
    LocalKeepsCore(s, Release(s, t, m), t, m);
  }

  lemma ReleaseMutexOk(s: Sys, t: nat, m: Id)
    requires Inv(s) && CanUnlock(s, t, m) && s.mutexes[m].lockNest == 1
    ensures MutexOk(m, Release(s, t, m).mutexes[m], Release(s, t, m).threads, Release(s, t, m).active)
  {
    RunningIsUnblocked(s, t);
    assert MutexOk(m, s.mutexes[m], s.threads, s.active);
    RepeatMore(t, 1);
  }

  lemma ReleaseIsLocal(s: Sys, t: nat, m: Id)
    requires Unblocked(s, t) && m in s.mutexes && s.mutexes[m].holder == t
    requires s.mutexes[m].ceiling != 0 ==> s.threads[t].dynPrio == s.mutexes[m].ceiling
    ensures Local(s, Release(s, t, m), t, m)
  {
    var r := Release(s, t, m);
    assert r.threads == s.threads[t := r.threads[t]];
    assert s.ready - {s.threads[t].dynPrio} + {s.threads[t].dynPrio} == s.ready;
  }

  lemma ReleaseThreadOk(s: Sys, t: nat, m: Id)
    requires Inv(s) && CanUnlock(s, t, m) && s.mutexes[m].lockNest == 1
    ensures ThreadOk(t, Release(s, t, m).threads[t], Release(s, t, m).mutexes)
  {
    RunningIsUnblocked(s, t);
    assert ThreadOk(t, s.threads[t], s.mutexes);
    if s.mutexes[m].ceiling == 0 && s.threads[t].dynPrio != t {
      BoostElsewhere(s, Release(s, t, m), t, m);
    }
  }

  lemma BoostElsewhere(s: Sys, r: Sys, t: nat, m: Id)
    requires t in s.threads && m in s.mutexes && ThreadOk(t, s.threads[t], s.mutexes)
    requires m in r.mutexes && r.mutexes == s.mutexes[m := r.mutexes[m]] && s.mutexes[m].ceiling == 0
    requires s.threads[t].dynPrio != t
    ensures exists n <- r.mutexes :: Boosts(r.mutexes[n], t, s.threads[t].dynPrio)
  {
    var n :| n in s.mutexes && Boosts(s.mutexes[n], t, s.threads[t].dynPrio);
    assert n in r.mutexes && Boosts(r.mutexes[n], t, s.threads[t].dynPrio);
  }

  /** Assertion 410 holds of any waiter, and handing over keeps everything in order. */
  lemma HandOverKeepsCore(s: Sys, m: Id, p: nat)
    requires Core(s) && m in s.mutexes && s.mutexes[m].holder == 0 && p in s.mutexes[m].waitSet
    ensures p in s.threads && p in s.active && s.active[p] == IsThread(p)
    ensures s.mutexes[m].ceiling == 0 || p < s.mutexes[m].ceiling
    ensures s.threads[p].dynPrio == p && s.threads[p].obj == Some(m)
    ensures Core(HandOver(s, m, p))
  {
    assert MutexOk(m, s.mutexes[m], s.threads, s.active);
    assert ThreadOk(p, s.threads[p], s.mutexes);
    var r := HandOver(s, m, p);
    assert r.threads == s.threads[p := r.threads[p]];
    assert s.mutexes[m].ceiling != 0 ==> Boosts(r.mutexes[m], p, r.threads[p].dynPrio);
    BlockedNotReady(s, p);
    LocalKeepsCore(s, r, p, m);
  }

  lemma BlockedNotReady(s: Sys, t: nat)
    requires Core(s) && t in s.threads && Blocked(t, s.threads[t], s.mutexes)
    ensures s.ready - {s.threads[t].dynPrio} == s.ready
  {
  }

  /** The last unlock hands the mutex to the highest-priority waiter, or frees it. */
  lemma UnlockKeepsInv(s: Sys, t: nat, m: Id)
    requires Inv(s) && CanUnlock(s, t, m)
    ensures forall w <- s.mutexes[m].waitSet :: w in s.threads && w != 0
    ensures Inv(Unlock(s, t, m))
    ensures s.mutexes[m].lockNest == 1 ==>
              var x := Unlock(s, t, m).mutexes[m];
              IsMax(s.mutexes[m].waitSet, x.holder) && x.waitSet == s.mutexes[m].waitSet - {x.holder}
  {
    RunningIsUnblocked(s, t);
    assert MutexOk(m, s.mutexes[m], s.threads, s.active);
    if s.mutexes[m].lockNest > 1 {
      UnnestKeepsInv(s, t, m);
    } else {
      UnlockLastKeepsInv(s, t, m);
    }
  }

  lemma UnlockLastKeepsInv(s: Sys, t: nat, m: Id)
    requires Inv(s) && CanUnlock(s, t, m) && s.mutexes[m].lockNest == 1
    requires forall w <- s.mutexes[m].waitSet :: w in s.threads && w != 0
    ensures Inv(Unlock(s, t, m))
  {
    RunningIsUnblocked(s, t);
    assert s.threads.Keys == Release(s, t, m).threads.Keys;
    ReleaseKeepsCore(s, t, m);
    var q := Release(s, t, m);
    UnlockLeavesNoIdleWaiters(s, t, m);
    if s.mutexes[m].waitSet != {} {
      HandOverKeepsCore(q, m, MaxOf(s.mutexes[m].waitSet));
    }
  }

  lemma UnlockLeavesNoIdleWaiters(s: Sys, t: nat, m: Id)
    requires t in s.threads && m in s.mutexes && s.mutexes[m].lockNest == 1 && NoIdleWaiters(s.mutexes)
    requires forall w <- s.mutexes[m].waitSet :: w in s.threads && w != 0
    ensures NoIdleWaiters(Unlock(s, t, m).mutexes)
  {
    var ms := Unlock(s, t, m).mutexes;
    assert ms == s.mutexes[m := ms[m]];
  }

  // ------------------------------------------------------------------
  // Whole runs

  datatype Op = OpLock(t: nat, m: Id) | OpResume(t: nat, m: Id) | OpUnlock(t: nat, m: Id)

  ghost predicate Enabled(s: Sys, op: Op) {
    match op
    case OpLock(t, m) => CanLock(s, t, m)
    case OpResume(t, m) => CanResume(s, t, m)
    case OpUnlock(t, m) => CanUnlock(s, t, m)
  }

  ghost function Apply(s: Sys, op: Op): (r: Sys)
    requires Inv(s) && Enabled(s, op)
  {
    match op
    case OpLock(t, m) => Lock(s, t, m)
    case OpResume(t, m) => Resume(s, t, m)
    case OpUnlock(t, m) => UnlockKeepsInv(s, t, m); Unlock(s, t, m)
  }

  lemma StepKeepsInv(s: Sys, op: Op)
    requires Inv(s) && Enabled(s, op)
    ensures Inv(Apply(s, op))
  {
    match op
    case OpLock(t, m) =>
      assert MutexOk(m, s.mutexes[m], s.threads, s.active);
      if s.mutexes[m].lockNest == 0 {
        AcquireKeepsInv(s, t, m);
      } else if s.mutexes[m].holder == t {
        NestKeepsInv(s, t, m);
      } else {
        BlockKeepsInv(s, t, m);
      }
    case OpResume(t, m) => ResumeKeepsInv(s, t, m);
    case OpUnlock(t, m) => UnlockKeepsInv(s, t, m);
  }

  ghost predicate RunOk(s: Sys, ops: seq<Op>)
    requires Inv(s)
    decreases |ops|
  {
    ops == [] || (Enabled(s, ops[0]) && (StepKeepsInv(s, ops[0]); RunOk(Apply(s, ops[0]), ops[1..])))
  }

  ghost function Run(s: Sys, ops: seq<Op>): (r: Sys)
    requires Inv(s) && RunOk(s, ops)
    ensures Inv(r)
    decreases |ops|
  {
    if ops == [] then s else StepKeepsInv(s, ops[0]); Run(Apply(s, ops[0]), ops[1..])
  }

  // ------------------------------------------------------------------
  // `inside` counts what the threads did

  /** A lock returns at once, one deeper, if the mutex is free or the caller's; otherwise
      the caller is not inside, and waits. */
  lemma LockCounts(s: Sys, t: nat, m: Id)
    requires Inv(s) && CanLock(s, t, m)
    ensures var r := Lock(s, t, m);
            && t in r.threads && m in r.mutexes
            && if s.mutexes[m].holder == 0 || s.mutexes[m].holder == t then
                 r.mutexes[m].inside == s.mutexes[m].inside + multiset{t} && r.threads[t].call == None
               else
                 r.mutexes[m].inside == s.mutexes[m].inside && r.threads[t].call == Some(m) && t in r.mutexes[m].waitSet
  {
    assert MutexOk(m, s.mutexes[m], s.threads, s.active);
  }

  /** A lock that blocked returns one deeper. */
  lemma ResumeCounts(s: Sys, t: nat, m: Id)
    requires Inv(s) && CanResume(s, t, m)
    ensures Resume(s, t, m).mutexes[m].inside == s.mutexes[m].inside + multiset{t}
    ensures Resume(s, t, m).threads[t].call == None
  {
  }

  /** An unlock takes one level away, and the mutex changes hands only with the last. */
  lemma UnlockCounts(s: Sys, t: nat, m: Id)
    requires Inv(s) && CanUnlock(s, t, m)
    ensures s.mutexes[m].inside[t] == s.mutexes[m].lockNest > 0
    ensures forall w <- s.mutexes[m].waitSet :: w in s.threads
    ensures Aside(s, Unlock(s, t, m), t, m)
    ensures Unlock(s, t, m).threads[t].call == s.threads[t].call
    ensures Unlock(s, t, m).mutexes[m].inside == s.mutexes[m].inside - multiset{t}
    ensures Unlock(s, t, m).mutexes[m].holder == t <==> s.mutexes[m].inside[t] > 1
  {
    RunningIsUnblocked(s, t);
    HolderInside(s, t, m);
    UnlockEffect(s, t, m);
  }

  lemma HolderInside(s: Sys, t: nat, m: Id)
    requires Inv(s) && t in s.threads && m in s.mutexes && s.threads[t].obj == None && s.mutexes[m].holder == t != 0
    ensures s.mutexes[m].inside[t] == s.mutexes[m].lockNest > 0
    ensures t !in s.mutexes[m].waitSet && forall w <- s.mutexes[m].waitSet :: w in s.threads && w != 0
  {
    assert MutexOk(m, s.mutexes[m], s.threads, s.active);
  }

  lemma UnlockEffect(s: Sys, t: nat, m: Id)
    requires t in s.threads && m in s.mutexes && s.mutexes[m].lockNest > 0 && s.mutexes[m].holder == t != 0
    requires t !in s.mutexes[m].waitSet && forall w <- s.mutexes[m].waitSet :: w in s.threads && w != 0
    ensures Aside(s, Unlock(s, t, m), t, m)
    ensures Unlock(s, t, m).threads[t].call == s.threads[t].call
    ensures Unlock(s, t, m).mutexes[m].inside == s.mutexes[m].inside - multiset{t}
    ensures Unlock(s, t, m).mutexes[m].holder == t <==> s.mutexes[m].lockNest > 1
  {
  }

  /** A step of thread `t` on mutex `m` leaves the other mutexes alone, and where the
      control of the other threads is. */
  ghost predicate Aside(s: Sys, r: Sys, t: nat, m: Id) {
    && t in s.threads && m in s.mutexes
    && (forall u <- s.threads :: u in r.threads && (u != t ==> r.threads[u].call == s.threads[u].call))
    && (forall n <- s.mutexes :: n in r.mutexes && (n != m ==> r.mutexes[n] == s.mutexes[n]))
  }

  lemma LockIsAside(s: Sys, t: nat, m: Id)
    requires t in s.threads && m in s.mutexes
    ensures Aside(s, Lock(s, t, m), t, m) && Aside(s, Resume(s, t, m), t, m)
  {
  }

  /** The locks of `m` that thread `t` has called for and not given back: those that
      returned, and one it may still be suspended in. */
  ghost function Claims(s: Sys, t: nat, m: Id): int
    requires t in s.threads && m in s.mutexes
  {
    s.mutexes[m].inside[t] + if s.threads[t].call == Some(m) then 1 else 0
  }

  function Weight(op: Op, t: nat, m: Id): int {
    if op == OpLock(t, m) then 1 else if op == OpUnlock(t, m) then -1 else 0
  }

  function Weights(ops: seq<Op>, t: nat, m: Id): int {
    if ops == [] then 0 else Weight(ops[0], t, m) + Weights(ops[1..], t, m)
  }

  /** What a step of `u` on `n` from s to r does to the claims of `u` on `n`. */
  ghost predicate Claimed(s: Sys, r: Sys, u: nat, n: Id, d: int) {
    && Aside(s, r, u, n)
    && s.threads[u].call in {None, Some(n)} && r.threads[u].call in {None, Some(n)}
    && (forall v :: v != u ==> r.mutexes[n].inside[v] == s.mutexes[n].inside[v])
    && Claims(r, u, n) == Claims(s, u, n) + d
  }

  /** It does nothing to any others. */
  lemma OtherClaims(s: Sys, r: Sys, u: nat, n: Id, d: int, t: nat, m: Id)
    requires Claimed(s, r, u, n, d) && t in s.threads && m in s.mutexes
    ensures t in r.threads && m in r.mutexes
    ensures Claims(r, t, m) == Claims(s, t, m) + if t == u && m == n then d else 0
  {
  }

  lemma LockClaims(s: Sys, u: nat, n: Id)
    requires Inv(s) && CanLock(s, u, n)
    ensures Claimed(s, Lock(s, u, n), u, n, 1)
  {
    LockCounts(s, u, n);
    LockIsAside(s, u, n);
  }

  lemma ResumeClaims(s: Sys, u: nat, n: Id)
    requires Inv(s) && CanResume(s, u, n)
    ensures Claimed(s, Resume(s, u, n), u, n, 0)
  {
    ResumeCounts(s, u, n);
    LockIsAside(s, u, n);
  }

  lemma UnlockClaims(s: Sys, u: nat, n: Id)
    requires Inv(s) && CanUnlock(s, u, n)
    ensures forall w <- s.mutexes[n].waitSet :: w in s.threads
    ensures Claimed(s, Unlock(s, u, n), u, n, -1)
  {
    UnlockCounts(s, u, n);
  }

  lemma StepClaims(s: Sys, op: Op)
    requires Inv(s) && Enabled(s, op)
    ensures Claimed(s, Apply(s, op), op.t, op.m, Weight(op, op.t, op.m))
  {
    match op
    case OpLock(u, n) => LockClaims(s, u, n);
    case OpResume(u, n) => ResumeClaims(s, u, n);
    case OpUnlock(u, n) => UnlockClaims(s, u, n);
  }

  lemma StepCounts(s: Sys, op: Op, r: Sys, t: nat, m: Id)
    requires Claimed(s, r, op.t, op.m, Weight(op, op.t, op.m)) && t in s.threads && m in s.mutexes
    ensures t in r.threads && m in r.mutexes
    ensures Claims(r, t, m) == Claims(s, t, m) + Weight(op, t, m)
  {
    OtherClaims(s, r, op.t, op.m, Weight(op, op.t, op.m), t, m);
  }

  /** Over any run a thread has called for as many locks more as the run has lock calls of
      it more than unlock calls: nothing is lost in nesting, blocking and handing over. */
  lemma {:induction false} RunCounts(s: Sys, ops: seq<Op>, t: nat, m: Id)
    requires Inv(s) && RunOk(s, ops) && t in s.threads && m in s.mutexes
    ensures t in Run(s, ops).threads && m in Run(s, ops).mutexes
    ensures Claims(Run(s, ops), t, m) == Claims(s, t, m) + Weights(ops, t, m)
    decreases |ops|
  {
    if ops != [] {
      StepKeepsInv(s, ops[0]);
      var r := Apply(s, ops[0]);
      StepClaims(s, ops[0]);
      StepCounts(s, ops[0], r, t, m);
      RunCounts(r, ops[1..], t, m);
    }
  }

  /** So a thread that runs is inside as often as it locked and did not unlock, and is then
      the holder, nested as deeply; otherwise it is not the holder. */
  lemma RunCountsNesting(s: Sys, ops: seq<Op>, t: nat, m: Id)
    requires Inv(s) && RunOk(s, ops) && t in s.threads && m in s.mutexes && Claims(s, t, m) == 0
    ensures var r := Run(s, ops);
            && t in r.threads && m in r.mutexes
            && (r.threads[t].call == None ==>
                  && r.mutexes[m].inside[t] == Weights(ops, t, m)
                  && (r.mutexes[m].holder == t <==> Weights(ops, t, m) > 0)
                  && (r.mutexes[m].holder == t ==> r.mutexes[m].lockNest == Weights(ops, t, m)))
  {
    RunCounts(s, ops, t, m);
    var r := Run(s, ops);
    assert MutexOk(m, r.mutexes[m], r.threads, r.active) && ThreadOk(t, r.threads[t], r.mutexes);
  }

  /** Mutual exclusion after any run. */
  lemma RunKeepsMutualExclusion(s: Sys, ops: seq<Op>, m: Id, t: nat, u: nat)
    requires Inv(s) && RunOk(s, ops) && m in Run(s, ops).mutexes
    requires Run(s, ops).mutexes[m].inside[t] > 0 && Run(s, ops).mutexes[m].inside[u] > 0
    ensures t == u
  {
    MutualExclusion(Run(s, ops), m, t, u);
  }
}

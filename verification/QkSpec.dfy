/** The preemptive QK kernel (qk.c) as a state machine.  The C call stack of nested
    QK_activate_ calls is `stack`; a frame remembers the priority it preempted (`pin`),
    the active object it runs (`p`) and whether that object has taken its event (`got`).
    Scheduler-lock brackets that are still open are `locks`.  Steps are the sections
    executed with interrupts disabled, so runs include every preemption by interrupts. */
module QkSpec {
  import opened Basics
  import opened PrioSet

  datatype Frame = Frame(pin: nat, p: nat, got: bool)

  /** An open bracket: taken at nesting `depth` by the object at `holder`; `raised`
      unless QK_schedLock returned 0xFF; the status saved for QK_schedUnlock. */
  datatype Lock = Lock(depth: nat, raised: bool, ceiling: nat, holder: nat, prevPrio: nat, prevHolder: nat)

  /** `queue` counts the events of the active object at each priority, `isr` the nested
      interrupts. */
  datatype Qk = Qk(actPrio: nat, lockPrio: nat, lockHolder: nat, ready: set<nat>, queue: seq<nat>,
                   stack: seq<Frame>, locks: seq<Lock>, isr: nat)

  // ------------------------------------------------------------------
  // The sections of the source

  /** QK_sched_: the highest-priority ready object if it is above both the active
      priority and the lock ceiling, otherwise 0. */
  ghost function Sched(s: Qk): nat {
    var p := MaxOf(s.ready);
    if p <= s.actPrio || p <= s.lockPrio then 0 else p
  }

  /** Entry of QK_activate_ for the priority QK_sched_ found, if any. */
  ghost function Resched(s: Qk): Qk {
    var p := Sched(s);
    if p == 0 then s else s.(stack := s.stack + [Frame(s.actPrio, p, false)], actPrio := p)
  }

  /** Posting to the object at `a`; QACTIVE_EQUEUE_SIGNAL_ when its queue was empty. */
  ghost function Post(s: Qk, a: nat): Qk
    requires a < |s.queue|
  {
    var t := s.(queue := s.queue[a := s.queue[a] + 1]);
    if s.queue[a] != 0 then t
    else
      var u := t.(ready := s.ready + {a});
      if s.isr > 0 then u else Resched(u)
  }

  function IsrEntry(s: Qk): Qk {
    s.(isr := s.isr + 1)
  }

  /** Scheduling is left to the outermost interrupt. */
  ghost function IsrExit(s: Qk): Qk
    requires s.isr > 0
  {
    if s.isr > 1 then s.(isr := s.isr - 1) else Resched(s.(isr := 0))
  }

  function Top(s: Qk): Frame
    requires s.stack != []
  {
    s.stack[|s.stack| - 1]
  }

  /** The activated object takes its event (QActive_get_ in QK_activate_). */
  function Take(s: Qk): Qk
    requires s.stack != [] && Top(s).p < |s.queue| && s.queue[Top(s).p] > 0
  {
    s.(queue := s.queue[Top(s).p := s.queue[Top(s).p] - 1],
       stack := s.stack[|s.stack| - 1 := Top(s).(got := true)])
  }

  /** The end of the run-to-completion step: the rest of the loop body of
      QK_activate_, and its exit (qk.c:417-438). */
  ghost function Finish(s: Qk): Qk
    requires s.stack != [] && Top(s).p < |s.queue|
  {
    var f := Top(s);
    var ready := if s.queue[f.p] == 0 then s.ready - {f.p} else s.ready;
    var p := MaxOf(ready);
    if p <= f.pin || p <= s.lockPrio then
      s.(ready := ready, stack := s.stack[..|s.stack| - 1], actPrio := f.pin)
    else
      s.(ready := ready, stack := s.stack[|s.stack| - 1 := Frame(f.pin, p, false)], actPrio := p)
  }

  /** QK_schedLock. */
  function LockTo(s: Qk, ceiling: nat): Qk {
    if s.lockPrio < ceiling then
      s.(locks := s.locks + [Lock(|s.stack|, true, ceiling, s.actPrio, s.lockPrio, s.lockHolder)],
         lockPrio := ceiling, lockHolder := s.actPrio)
    else
      s.(locks := s.locks + [Lock(|s.stack|, false, ceiling, s.actPrio, 0, 0)])
  }

  /** QK_schedUnlock with the status of the innermost bracket. */
  ghost function Unlock(s: Qk): Qk
    requires s.locks != []
  {
    var l := s.locks[|s.locks| - 1];
    var t := s.(locks := s.locks[..|s.locks| - 1]);
    if l.raised then Resched(t.(lockPrio := l.prevPrio, lockHolder := l.prevHolder)) else t
  }

  // ------------------------------------------------------------------
  // What every run keeps

  /** The frame preempted exactly the one below it. */
  ghost predicate FrameOk(stack: seq<Frame>, i: nat)
    requires i < |stack|
  {
    stack[i].pin < stack[i].p && stack[i].pin == Active(stack[..i])
  }

  /** Hence the active priorities increase strictly up the stack. */
  ghost predicate FramesOk(stack: seq<Frame>) {
    forall i :: 0 <= i < |stack| ==> FrameOk(stack, i)
  }

  ghost function Active(stack: seq<Frame>): nat {
    if stack == [] then 0 else stack[|stack| - 1].p
  }

  /** The object at `a` is inside its run-to-completion step. */
  ghost predicate MidStep(stack: seq<Frame>, a: nat) {
    exists i :: 0 <= i < |stack| && stack[i].p == a && stack[i].got
  }

  /** The lock priority and lock holder that open brackets account for. */
  ghost function LockPrioOf(locks: seq<Lock>): nat {
    if locks == [] then 0
    else var l := locks[|locks| - 1]; if l.raised then l.ceiling else LockPrioOf(locks[..|locks| - 1])
  }

  ghost function LockHolderOf(locks: seq<Lock>): nat {
    if locks == [] then 0
    else var l := locks[|locks| - 1]; if l.raised then l.holder else LockHolderOf(locks[..|locks| - 1])
  }

  /** Each bracket saved the status left by the brackets outside it. */
  ghost predicate LocksOk(locks: seq<Lock>, depth: nat, n: nat)
    decreases |locks|
  {
    locks == [] ||
    var l := locks[|locks| - 1];
    var outer := locks[..|locks| - 1];
    && l.depth <= depth && l.ceiling <= n && l.holder <= n
    && (if l.raised then
          l.prevPrio == LockPrioOf(outer) < l.ceiling && l.prevHolder == LockHolderOf(outer)
        else
          l.ceiling <= LockPrioOf(outer))
    && LocksOk(outer, l.depth, n)
  }

  /** Events, ready set and stack agree. */
  ghost predicate ReadyOk(ready: set<nat>, queue: seq<nat>, stack: seq<Frame>) {
    && |queue| > 0 && queue[0] == 0
    && (forall a <- ready :: 1 <= a < |queue|)
    && (forall a :: 0 <= a < |queue| && queue[a] > 0 ==> a in ready)
    && (forall a <- ready :: queue[a] == 0 ==> MidStep(stack, a))
    && (forall i :: 0 <= i < |stack| ==> stack[i].p in ready && (!stack[i].got ==> queue[stack[i].p] > 0))
  }

  ghost predicate Inv(s: Qk) {
    && FramesOk(s.stack)
    && s.actPrio == Active(s.stack)
    && ReadyOk(s.ready, s.queue, s.stack)
    && LocksOk(s.locks, |s.stack|, |s.queue|)
    && s.lockPrio == LockPrioOf(s.locks)
    && s.lockHolder == LockHolderOf(s.locks)
    && (s.isr == 0 ==> NothingWaits(s))
  }

  /** Every ready object is at or below what runs, or at or below the lock ceiling. */
  ghost predicate NothingWaits(s: Qk) {
    forall a <- s.ready :: a <= s.actPrio || a <= s.lockPrio
  }

  lemma {:induction false} FramesBelow(stack: seq<Frame>, i: nat)
    requires FramesOk(stack) && i < |stack|
    ensures stack[i].p <= Active(stack)
    ensures i < |stack| - 1 ==> stack[i].p <= stack[|stack| - 1].pin
    decreases |stack| - i
  {
    if i < |stack| - 1 {
      assert FrameOk(stack, i + 1) && stack[..i + 1][|stack[..i + 1]| - 1] == stack[i];
      FramesBelow(stack, i + 1);
    }
  }

  /** Nested activations run at strictly increasing priorities. */
  lemma ActivePrioritiesIncrease(s: Qk, i: nat, j: nat)
    requires Inv(s) && i < j < |s.stack|
    ensures s.stack[i].p < s.stack[j].p
  {
    FramesHead(s.stack, j + 1);
    FramesBelow(s.stack[..j + 1], i);
    assert FrameOk(s.stack, j);
  }

  lemma FramesHead(stack: seq<Frame>, n: nat)
    requires FramesOk(stack) && n <= |stack|
    ensures FramesOk(stack[..n])
  {
    forall i | 0 <= i < n ensures FrameOk(stack[..n], i) {
      assert FrameOk(stack, i) && stack[..n][..i] == stack[..i];
    }
  }

  lemma FramesPush(stack: seq<Frame>, f: Frame)
    requires FramesOk(stack) && f.pin == Active(stack) < f.p
    ensures FramesOk(stack + [f])
  {
    var t := stack + [f];
    forall i | 0 <= i < |t| ensures FrameOk(t, i) {
      assert t[..i] == stack[..i];
      assert i < |stack| ==> FrameOk(stack, i);
      assert i == |stack| ==> t[..i] == stack;
    }
  }

  lemma {:induction false} LocksDeeper(locks: seq<Lock>, d: nat, d': nat, n: nat)
    requires LocksOk(locks, d, n) && d <= d'
    ensures LocksOk(locks, d', n)
  {
  }

  /** The state before the final scheduling decision of a section. */
  ghost predicate InvExceptSched(s: Qk) {
    Inv(s.(isr := 1))
  }

  /** What QK_sched_ finds is the highest-priority ready object, above the preempted
      priority and the lock ceiling, not in the middle of a step, and with an event to
      take. */
  lemma SchedFindsRunnable(s: Qk)
    requires InvExceptSched(s) && Sched(s) != 0
    ensures var p := Sched(s);
            && p == MaxOf(s.ready) && p in s.ready
            && p > s.actPrio && p > s.lockPrio
            && p < |s.queue| && s.queue[p] > 0 && !MidStep(s.stack, p)
  {
    var p := Sched(s);
    assert p in s.ready;
    if MidStep(s.stack, p) {
      var i :| 0 <= i < |s.stack| && s.stack[i].p == p && s.stack[i].got;
      FramesBelow(s.stack, i);
      assert false;
    }
  }

  lemma ReschedKeepsInv(s: Qk)
    requires InvExceptSched(s) && s.isr == 0
    ensures Inv(Resched(s))
  {
    var t := Resched(s);
    if Sched(s) != 0 {
      SchedFindsRunnable(s);
      var f := Frame(s.actPrio, Sched(s), false);
      FramesPush(s.stack, f);
      LocksDeeper(s.locks, |s.stack|, |t.stack|, |s.queue|);
      forall a | a in s.ready && s.queue[a] == 0 ensures MidStep(t.stack, a) {
        var i :| 0 <= i < |s.stack| && s.stack[i].p == a && s.stack[i].got;
        assert t.stack[i] == s.stack[i];
      }
    }
  }

  /** Is some thread's code, or an interrupt's, running? */
  ghost predicate CodeRuns(s: Qk) {
    s.isr > 0 || s.stack == [] || Top(s).got
  }

  datatype Op =
    | OpPost(a: nat)
    | OpIsrEntry
    | OpIsrExit
    | OpTake
    | OpFinish
    | OpLock(ceiling: nat)
    | OpUnlock

  /** When a section can be executed: brackets are closed by the context that opened
      them, before its run-to-completion step ends. */
  ghost predicate Enabled(s: Qk, op: Op) {
    match op
    case OpPost(a) => 1 <= a < |s.queue| && CodeRuns(s)
    case OpIsrEntry => true
    case OpIsrExit => s.isr > 0
    case OpTake => s.isr == 0 && s.stack != [] && !Top(s).got
    case OpFinish => s.isr == 0 && s.stack != [] && Top(s).got && (s.locks != [] ==> LastLock(s).depth < |s.stack|)
    case OpLock(c) => s.isr == 0 && CodeRuns(s) && c < |s.queue|
    case OpUnlock => s.isr == 0 && CodeRuns(s) && s.locks != [] && LastLock(s).depth == |s.stack|
  }

  function LastLock(s: Qk): Lock
    requires s.locks != []
  {
    s.locks[|s.locks| - 1]
  }

  /** The activated object always finds an event: QActive_get_ does not assert. */
  lemma TopHasEvent(s: Qk)
    requires Inv(s) && s.stack != []
    ensures Top(s).p < |s.queue| && Top(s).p in s.ready
    ensures !Top(s).got ==> s.queue[Top(s).p] > 0
  {
    assert s.stack[|s.stack| - 1].p in s.ready;
  }

  ghost function Apply(s: Qk, op: Op): Qk
    requires Inv(s) && Enabled(s, op)
  {
    match op
    case OpPost(a) => Post(s, a)
    case OpIsrEntry => IsrEntry(s)
    case OpIsrExit => IsrExit(s)
    case OpTake => TopHasEvent(s); Take(s)
    case OpFinish => TopHasEvent(s); Finish(s)
    case OpLock(c) => LockTo(s, c)
    case OpUnlock => Unlock(s)
  }

  lemma PostKeepsInv(s: Qk, a: nat)
    requires Inv(s) && Enabled(s, OpPost(a))
    ensures Inv(Post(s, a))
  {
    var t := s.(queue := s.queue[a := s.queue[a] + 1]);
    if s.queue[a] == 0 {
      var u := t.(ready := s.ready + {a});
      PostBeforeSched(s, a);
      if s.isr == 0 {
        ReschedKeepsInv(u);
      }
    }
  }

  lemma TakeKeepsInv(s: Qk)
    requires Inv(s) && Enabled(s, OpTake)
    ensures Top(s).p < |s.queue| && s.queue[Top(s).p] > 0
    ensures Inv(Take(s))
  {
    TopHasEvent(s);
    var t := Take(s);
    var n := |s.stack| - 1;
    forall i | 0 <= i < |t.stack| ensures FrameOk(t.stack, i) {
      assert FrameOk(s.stack, i) && t.stack[..i] == s.stack[..i];
    }
    forall a | a in t.ready && t.queue[a] == 0 ensures MidStep(t.stack, a) {
      if a == Top(s).p {
        assert t.stack[n].p == a && t.stack[n].got;
      } else {
        var i :| 0 <= i < |s.stack| && s.stack[i].p == a && s.stack[i].got;
        assert t.stack[i] == s.stack[i];
      }
    }
    forall i | 0 <= i < |t.stack| ensures t.stack[i].p in t.ready && (!t.stack[i].got ==> t.queue[t.stack[i].p] > 0) {
      if i < n {
        ActivePrioritiesIncrease(s, i, n);
      }
    }
  }

  /** After a step the loop runs the next eligible object or returns to the preempted
      priority, leaving nothing ready above it and the lock ceiling. */
  lemma FinishKeepsInv(s: Qk)
    requires Inv(s) && Enabled(s, OpFinish)
    ensures Top(s).p < |s.queue| && Inv(Finish(s))
    ensures |Finish(s).stack| < |s.stack| ==>
              && Finish(s).actPrio == Top(s).pin
              && forall a <- Finish(s).ready :: a <= Top(s).pin || a <= s.lockPrio
  {
    TopHasEvent(s);
    FinishReady(s);
    FramesHead(s.stack, |s.stack| - 1);
    if |Finish(s).stack| < |s.stack| {
      FinishReturns(s);
    } else {
      FinishGoesOn(s);
    }
  }

  lemma FinishReturns(s: Qk)
    requires Inv(s) && Enabled(s, OpFinish) && Top(s).p < |s.queue| && |Finish(s).stack| < |s.stack|
    requires FramesOk(s.stack[..|s.stack| - 1]) && ReadyOk(Finish(s).ready, s.queue, s.stack[..|s.stack| - 1])
    ensures Inv(Finish(s)) && Finish(s).actPrio == Top(s).pin
    ensures forall a <- Finish(s).ready :: a <= Top(s).pin || a <= s.lockPrio
  {
    assert FrameOk(s.stack, |s.stack| - 1);
    LocksShallower(s.locks, |s.stack|, |s.stack| - 1, |s.queue|);
  }

  lemma FinishGoesOn(s: Qk)
    requires Inv(s) && Enabled(s, OpFinish) && Top(s).p < |s.queue| && |Finish(s).stack| >= |s.stack|
    requires FramesOk(s.stack[..|s.stack| - 1]) && ReadyOk(Finish(s).ready, s.queue, s.stack[..|s.stack| - 1])
    ensures Inv(Finish(s))
  {
    var t, below := Finish(s), s.stack[..|s.stack| - 1];
    assert FrameOk(s.stack, |s.stack| - 1);
    var f := Frame(Top(s).pin, t.actPrio, false);
    NextIsRunnable(s, below, t.ready, f.p);
    assert t.stack == below + [f];
    FramesPush(below, f);
    ReadyPush(t.ready, s.queue, below, f);
  }

  lemma LocksShallower(locks: seq<Lock>, d: nat, d': nat, n: nat)
    requires LocksOk(locks, d, n) && (locks != [] ==> locks[|locks| - 1].depth <= d')
    ensures LocksOk(locks, d', n)
  {
  }

  /** Removing the finished frame, and its object if it has no more events. */
  lemma FinishReady(s: Qk)
    requires Inv(s) && Enabled(s, OpFinish)
    ensures Top(s).p < |s.queue| && ReadyOk(Finish(s).ready, s.queue, s.stack[..|s.stack| - 1])
  {
    TopHasEvent(s);
    var f, n := Top(s), |s.stack| - 1;
    var below := s.stack[..n];
    var ready := Finish(s).ready;
    forall a | a in ready && s.queue[a] == 0 ensures MidStep(below, a) {
      var i :| 0 <= i < |s.stack| && s.stack[i].p == a && s.stack[i].got;
      assert i < n && below[i] == s.stack[i];
    }
    forall i | 0 <= i < n ensures below[i].p in ready {
      ActivePrioritiesIncrease(s, i, n);
    }
  }

  lemma NextIsRunnable(s: Qk, below: seq<Frame>, ready: set<nat>, p: nat)
    requires FramesOk(below) && ReadyOk(ready, s.queue, below) && p in ready && p > Active(below)
    ensures s.queue[p] > 0
  {
    if s.queue[p] == 0 {
      assert MidStep(below, p);
      var i :| 0 <= i < |below| && below[i].p == p && below[i].got;
      FramesBelow(below, i);
      assert false;
    }
  }

  lemma ReadyPush(ready: set<nat>, queue: seq<nat>, stack: seq<Frame>, f: Frame)
    requires ReadyOk(ready, queue, stack) && f.p in ready && queue[f.p] > 0
    ensures ReadyOk(ready, queue, stack + [f])
  {
    forall a | a in ready && queue[a] == 0 ensures MidStep(stack + [f], a) {
      var i :| 0 <= i < |stack| && stack[i].p == a && stack[i].got;
      assert (stack + [f])[i] == stack[i];
    }
  }

  lemma LockKeepsInv(s: Qk, c: nat)
    requires Inv(s) && Enabled(s, OpLock(c))
    ensures Inv(LockTo(s, c))
  {
    var t := LockTo(s, c);
    assert t.locks[..|t.locks| - 1] == s.locks;
    if s.stack != [] {
      TopHasEvent(s);
    }
  }

  /** The outer status comes back, and precondition 700 of QK_schedUnlock holds. */
  lemma UnlockKeepsInv(s: Qk)
    requires Inv(s) && Enabled(s, OpUnlock)
    ensures Inv(Unlock(s))
    ensures LastLock(s).raised ==> s.lockPrio > LastLock(s).prevPrio
    ensures Unlock(s).lockPrio == LockPrioOf(s.locks[..|s.locks| - 1])
    ensures Unlock(s).lockHolder == LockHolderOf(s.locks[..|s.locks| - 1])
  {
    var l := LastLock(s);
    var t := s.(locks := s.locks[..|s.locks| - 1]);
    if l.raised {
      UnlockBeforeSched(s);
      ReschedKeepsInv(t.(lockPrio := l.prevPrio, lockHolder := l.prevHolder));
    }
  }

  lemma StepKeepsInv(s: Qk, op: Op)
    requires Inv(s) && Enabled(s, op)
    ensures Inv(Apply(s, op)) && |Apply(s, op).queue| == |s.queue|
  {
    match op
    case OpPost(a) => PostKeepsInv(s, a);
    case OpIsrEntry =>
    case OpIsrExit => if s.isr == 1 { ReschedKeepsInv(s.(isr := 0)); }
    case OpTake => TakeKeepsInv(s);
    case OpFinish => FinishKeepsInv(s);
    case OpLock(c) => LockKeepsInv(s, c);
    case OpUnlock => UnlockKeepsInv(s);
  }

  // ------------------------------------------------------------------
  // Whole runs

  /** The object whose run-to-completion step an executed section starts, if any. */
  ghost function Started(s: Qk, op: Op): seq<nat>
    requires Inv(s) && Enabled(s, op)
  {
    var t := Apply(s, op);
    if op.OpTake? || |t.stack| < |s.stack| || t.stack == s.stack then [] else [t.actPrio]
  }

  lemma ReschedStartsMax(s: Qk)
    ensures var t := Resched(s);
            t.stack == s.stack ||
            (t.stack == s.stack + [Frame(s.actPrio, t.actPrio, false)] && t.actPrio == MaxOf(t.ready) && t.actPrio > t.lockPrio)
  {
  }

  lemma StartedIsMax(s: Qk, op: Op)
    requires Inv(s) && Enabled(s, op) && Started(s, op) != []
    ensures var t := Apply(s, op);
            t.stack != [] && !Top(t).got && t.actPrio == MaxOf(t.ready) && t.actPrio > t.lockPrio
  {
    match op
    case OpPost(a) =>
      ReschedStartsMax(s.(queue := s.queue[a := s.queue[a] + 1], ready := s.ready + {a}));
    case OpIsrEntry =>
    case OpIsrExit => ReschedStartsMax(s.(isr := 0));
    case OpTake =>
    case OpFinish => TopHasEvent(s);
    case OpLock(c) =>
    case OpUnlock =>
      var l := LastLock(s);
      ReschedStartsMax(s.(locks := s.locks[..|s.locks| - 1], lockPrio := l.prevPrio, lockHolder := l.prevHolder));
  }

  /** Whatever starts is the highest-priority ready object, above what it preempts and
      above the ceiling of every scheduler lock that is open. */
  lemma StartedIsHighest(s: Qk, op: Op)
    requires Inv(s) && Enabled(s, op) && Started(s, op) != []
    ensures var t, p := Apply(s, op), Started(s, op)[0];
            && Inv(t) && t.stack != [] && p == Top(t).p == t.actPrio
            && p == MaxOf(t.ready) && t.queue[p] > 0
            && p > Top(t).pin && p > t.lockPrio
            && forall l <- t.locks :: p > l.ceiling
  {
    StepKeepsInv(s, op);
    var t := Apply(s, op);
    StartedIsMax(s, op);
    TopHasEvent(t);
    assert FrameOk(t.stack, |t.stack| - 1);
    forall l | l in t.locks ensures t.actPrio > l.ceiling {
      var i :| 0 <= i < |t.locks| && t.locks[i] == l;
      OpenCeilingsCovered(t.locks, |t.stack|, |t.queue|, i);
    }
  }

  /** The lock priority is at least the ceiling of every open bracket. */
  lemma {:induction false} OpenCeilingsCovered(locks: seq<Lock>, d: nat, n: nat, i: nat)
    requires LocksOk(locks, d, n) && i < |locks|
    ensures locks[i].ceiling <= LockPrioOf(locks)
    decreases |locks|
  {
    var outer := locks[..|locks| - 1];
    if i < |outer| {
      OpenCeilingsCovered(outer, locks[|outer|].depth, n, i);
    }
  }

  ghost predicate RunOk(s: Qk, ops: seq<Op>)
    requires Inv(s)
    decreases |ops|
  {
    ops == [] || (Enabled(s, ops[0]) && (StepKeepsInv(s, ops[0]); RunOk(Apply(s, ops[0]), ops[1..])))
  }

  ghost function Run(s: Qk, ops: seq<Op>): (t: Qk)
    requires Inv(s) && RunOk(s, ops)
    ensures Inv(t) && |t.queue| == |s.queue|
    decreases |ops|
  {
    if ops == [] then s else StepKeepsInv(s, ops[0]); Run(Apply(s, ops[0]), ops[1..])
  }

  /** Everything a run starts, in order. */
  ghost function RunStarted(s: Qk, ops: seq<Op>): seq<nat>
    requires Inv(s) && RunOk(s, ops)
    decreases |ops|
  {
    if ops == [] then []
    else StepKeepsInv(s, ops[0]); Started(s, ops[0]) + RunStarted(Apply(s, ops[0]), ops[1..])
  }

  /** The bracket `l` stays open all through the run. */
  ghost predicate HeldThroughout(s: Qk, ops: seq<Op>, l: Lock)
    requires Inv(s) && RunOk(s, ops)
    decreases |ops|
  {
    l in s.locks && (ops != [] ==> (StepKeepsInv(s, ops[0]); HeldThroughout(Apply(s, ops[0]), ops[1..], l)))
  }

  /** While a scheduler lock is held, no object at or below its ceiling starts a step,
      however interrupts and higher-priority objects come in between.  QF_publish_
      locks to its highest subscriber, so no subscriber runs between the first and the
      last delivery. */
  lemma {:induction false} NothingStartsUnderLock(s: Qk, ops: seq<Op>, l: Lock)
    requires Inv(s) && RunOk(s, ops) && HeldThroughout(s, ops, l)
    ensures forall p <- RunStarted(s, ops) :: p > l.ceiling
    decreases |ops|
  {
    if ops != [] {
      StepKeepsInv(s, ops[0]);
      var t := Apply(s, ops[0]);
      assert l in t.locks;
      NothingStartsUnderLock(t, ops[1..], l);
      if Started(s, ops[0]) != [] {
        StartedIsHighest(s, ops[0]);
      }
    }
  }

  /** A run under a lock taken in state `s` and not yet released. */
  ghost predicate LockedRun(s: Qk, c: nat, ops: seq<Op>)
    requires Inv(s) && Enabled(s, OpLock(c))
  {
    LockKeepsInv(s, c);
    var t := LockTo(s, c);
    RunOk(t, ops) && HeldThroughout(t, ops, LastLock(t))
  }

  /** As long as a run stays inside interrupts, nested or not, nothing starts at all. */
  ghost predicate StaysInIsr(s: Qk, ops: seq<Op>)
    requires Inv(s) && RunOk(s, ops)
    decreases |ops|
  {
    s.isr > 0 && (ops != [] ==> (StepKeepsInv(s, ops[0]); StaysInIsr(Apply(s, ops[0]), ops[1..])))
  }

  lemma {:induction false} NothingStartsInIsr(s: Qk, ops: seq<Op>)
    requires Inv(s) && RunOk(s, ops) && StaysInIsr(s, ops)
    ensures RunStarted(s, ops) == []
    decreases |ops|
  {
    if ops != [] {
      StepKeepsInv(s, ops[0]);
      NothingStartsInIsr(Apply(s, ops[0]), ops[1..]);
      assert Started(s, ops[0]) == [];
    }
  }

  /** What QF_SCHED_LOCK_ does: inside an interrupt nothing. */
  ghost function PublishLock(s: Qk, c: nat): Qk {
    if s.isr > 0 then s else LockTo(s, c)
  }

  /** A run between QF_SCHED_LOCK_(c) in state `s` and the matching QF_SCHED_UNLOCK_: the
      publisher is an interrupt that has not returned, or holds the lock. */
  ghost predicate PublishingRun(s: Qk, c: nat, ops: seq<Op>) {
    Inv(s) && if s.isr > 0 then RunOk(s, ops) && StaysInIsr(s, ops) else Enabled(s, OpLock(c)) && LockedRun(s, c, ops)
  }

  /** QF_publish_, from an object or from an interrupt, with its lock raised or already
      covered: no subscriber starts before the last delivery. */
  lemma PublishIsNotInterrupted(s: Qk, subscribers: set<nat>, ops: seq<Op>)
    requires PublishingRun(s, MaxOf(subscribers), ops)
    ensures var t := PublishLock(s, MaxOf(subscribers));
            Inv(t) && RunOk(t, ops) && forall p <- RunStarted(t, ops) :: p !in subscribers
  {
    if s.isr > 0 {
      NothingStartsInIsr(s, ops);
    } else {
      var t := LockTo(s, MaxOf(subscribers));
      LockKeepsInv(s, MaxOf(subscribers));
      NothingStartsUnderLock(t, ops, LastLock(t));
    }
  }

  /** What an operation does to the number of open brackets. */
  function Delta(op: Op): int {
    match op
    case OpLock(_) => 1
    case OpUnlock => -1
    case _ => 0
  }

  /** Starting with n brackets of its own open, the run closes only its own brackets and
      leaves `end` of them open. */
  predicate Balanced(ops: seq<Op>, n: int, end: int) {
    n >= 0 && if ops == [] then n == end else Balanced(ops[1..], n + Delta(ops[0]), end)
  }

  lemma StepLocks(s: Qk, op: Op)
    requires Inv(s) && Enabled(s, op)
    ensures var t := Apply(s, op).locks;
            match op
            case OpLock(_) => |t| == |s.locks| + 1 && t[..|s.locks|] == s.locks
            case OpUnlock => s.locks != [] && t == s.locks[..|s.locks| - 1]
            case _ => t == s.locks
  {
  }

  lemma {:induction false} BalancedKeepsOuter(s: Qk, ops: seq<Op>, outer: seq<Lock>, n: int, end: int)
    requires Inv(s) && RunOk(s, ops) && Balanced(ops, n, end)
    requires |s.locks| == |outer| + n && s.locks[..|outer|] == outer
    ensures |Run(s, ops).locks| == |outer| + end && end >= 0 && Run(s, ops).locks[..|outer|] == outer
    decreases |ops|
  {
    if ops != [] {
      StepKeepsInv(s, ops[0]);
      StepLocks(s, ops[0]);
      var t := Apply(s, ops[0]);
      OuterKept(s.locks, t.locks, outer, n + Delta(ops[0]));
      BalancedKeepsOuter(t, ops[1..], outer, n + Delta(ops[0]), end);
    }
  }

  lemma OuterKept<T>(a: seq<T>, b: seq<T>, outer: seq<T>, n: int)
    requires |outer| <= |a| && a[..|outer|] == outer && |b| == |outer| + n
    requires b == a || (|b| == |a| + 1 && b[..|a|] == a) || (a != [] && b == a[..|a| - 1])
    ensures n >= 0 ==> b[..|outer|] == outer
  {
    if n >= 0 && |b| == |a| + 1 {
      assert b[..|outer|] == b[..|a|][..|outer|];
    }
  }

  /** Well-bracketed locking restores the lock priority and the lock holder, whatever ran
      in between: posts, interrupts, preemptions and other brackets. */
  lemma BalancedLocksRestore(s: Qk, ops: seq<Op>)
    requires Inv(s) && RunOk(s, ops) && Balanced(ops, 0, 0)
    ensures Run(s, ops).locks == s.locks
    ensures Run(s, ops).lockPrio == s.lockPrio && Run(s, ops).lockHolder == s.lockHolder
  {
    assert s.locks[..|s.locks|] == s.locks;
    BalancedKeepsOuter(s, ops, s.locks, 0, 0);
    var t := Run(s, ops);
    assert t.locks[..|s.locks|] == t.locks;
  }

  // ------------------------------------------------------------------
  // The state counts what the run did

  /** An event posted outside interrupts makes its object run at once if and only if the
      object is above both what runs and the lock ceiling; otherwise what runs goes on. */
  lemma PostRunsAtOnceIff(s: Qk, a: nat)
    requires Inv(s) && Enabled(s, OpPost(a)) && s.isr == 0
    ensures var t := Post(s, a);
            if a > s.actPrio && a > s.lockPrio then t.stack == s.stack + [Frame(s.actPrio, a, false)] && t.actPrio == a
            else t.stack == s.stack && t.actPrio == s.actPrio
  {
    if s.queue[a] == 0 {
      PostBeforeSched(s, a);
      var u := s.(queue := s.queue[a := 1], ready := s.ready + {a});
      assert Post(s, a) == Resched(u);
      MaxUnique(u.ready, MaxOf(u.ready));
    } else {
      assert a in s.ready;
    }
  }

  /** The object that takes an event, if any. */
  function Taken(s: Qk, op: Op): seq<nat> {
    if op.OpTake? then [s.actPrio] else []
  }

  ghost function RunTaken(s: Qk, ops: seq<Op>): seq<nat>
    requires Inv(s) && RunOk(s, ops)
    decreases |ops|
  {
    if ops == [] then [] else StepKeepsInv(s, ops[0]); Taken(s, ops[0]) + RunTaken(Apply(s, ops[0]), ops[1..])
  }

  lemma CountFirst(p: seq<nat>, q: seq<nat>, a: nat)
    requires |p| <= 1
    ensures Count(p + q, a) == Count(p, a) + Count(q, a)
  {
    if p == [] {
      assert p + q == q;
    } else {
      assert (p + q)[1..] == q;
    }
  }

  lemma StepCounts(s: Qk, op: Op, a: nat)
    requires Inv(s) && Enabled(s, op) && a < |s.queue|
    ensures |Apply(s, op).queue| == |s.queue|
    ensures Apply(s, op).queue[a] + Count(Taken(s, op), a) == s.queue[a] + Count([op], OpPost(a))
    ensures Apply(s, op).isr + Count([op], OpIsrExit) == s.isr + Count([op], OpIsrEntry)
  {
    assert [op][1..] == [];
    if op.OpTake? {
      TopHasEvent(s);
    }
  }

  /** No event is lost or made up, and interrupts nest as they were entered and left: what
      waits in a queue is what was posted to it and not yet taken. */
  lemma {:induction false} RunCounts(s: Qk, ops: seq<Op>, a: nat)
    requires Inv(s) && RunOk(s, ops) && a < |s.queue|
    ensures Run(s, ops).queue[a] + Count(RunTaken(s, ops), a) == s.queue[a] + Count(ops, OpPost(a))
    ensures Run(s, ops).isr + Count(ops, OpIsrExit) == s.isr + Count(ops, OpIsrEntry)
    decreases |ops|
  {
    if ops != [] {
      StepKeepsInv(s, ops[0]);
      StepCounts(s, ops[0], a);
      var t := Apply(s, ops[0]);
      RunCounts(t, ops[1..], a);
      assert [ops[0]][1..] == [];
      CountFirst(Taken(s, ops[0]), RunTaken(t, ops[1..]), a);
    }
  }

  /** The activations of `a` that have not taken their event yet. */
  function Activated(stack: seq<Frame>, a: nat): nat {
    if stack == [] then 0
    else
      var f := stack[|stack| - 1];
      Activated(stack[..|stack| - 1], a) + if f.p == a && !f.got then 1 else 0
  }

  lemma ActivatedPush(stack: seq<Frame>, f: Frame, a: nat)
    ensures Activated(stack + [f], a) == Activated(stack, a) + if f.p == a && !f.got then 1 else 0
  {
    assert (stack + [f])[..|stack|] == stack;
  }

  /** Either nothing was activated, or one object on top. */
  ghost predicate Pushed(s: Qk, t: Qk) {
    t.stack == s.stack || t.stack == s.stack + [Frame(s.actPrio, t.actPrio, false)]
  }

  lemma StepPushes(s: Qk, op: Op)
    requires Inv(s) && Enabled(s, op) && !op.OpTake? && !op.OpFinish?
    ensures Pushed(s, Apply(s, op))
  {
  }

  lemma PushActivates(s: Qk, t: Qk, a: nat)
    requires Pushed(s, t)
    ensures Count(if t.stack == s.stack then [] else [t.actPrio], a) + Activated(s.stack, a) == Activated(t.stack, a)
  {
    if t.stack != s.stack {
      ActivatedPush(s.stack, Frame(s.actPrio, t.actPrio, false), a);
      CountOne(t.actPrio, a);
    }
  }

  lemma CountOne(p: nat, a: nat)
    ensures Count([p], a) == if p == a then 1 else 0
  {
    assert [p][1..] == [];
  }

  lemma TakeActivates(s: Qk, a: nat)
    requires Inv(s) && Enabled(s, OpTake)
    ensures Activated(s.stack, a) == Count([s.actPrio], a) + Activated(Apply(s, OpTake).stack, a)
  {
    TopHasEvent(s);
    var below, f := s.stack[..|s.stack| - 1], Top(s);
    assert s.stack == below + [f] && Take(s).stack == below + [f.(got := true)];
    ActivatedPush(below, f, a);
    ActivatedPush(below, f.(got := true), a);
    CountOne(s.actPrio, a);
  }

  lemma StepActivates(s: Qk, op: Op, a: nat)
    requires Inv(s) && Enabled(s, op)
    ensures Count(Started(s, op), a) + Activated(s.stack, a) == Count(Taken(s, op), a) + Activated(Apply(s, op).stack, a)
  {
    if op.OpTake? {
      TakeActivates(s, a);
    } else if op.OpFinish? {
      FinishActivates(s, a);
    } else {
      var t := Apply(s, op);
      StepPushes(s, op);
      assert Started(s, op) == if t.stack == s.stack then [] else [t.actPrio];
      PushActivates(s, t, a);
    }
  }

  lemma FinishActivates(s: Qk, a: nat)
    requires Inv(s) && Enabled(s, OpFinish)
    ensures Count(Started(s, OpFinish), a) + Activated(s.stack, a) == Activated(Apply(s, OpFinish).stack, a)
  {
    TopHasEvent(s);
    var t, below := Finish(s), s.stack[..|s.stack| - 1];
    assert s.stack == below + [Top(s)];
    ActivatedPush(below, Top(s), a);
    if |t.stack| == |s.stack| {
      var f := Frame(Top(s).pin, t.actPrio, false);
      assert t.stack == below + [f];
      assert !Top(t).got && Top(s).got;
      ActivatedPush(below, f, a);
      CountOne(t.actPrio, a);
    }
  }

  /** Each start takes exactly one event: what a run starts is what it takes, and the
      activations that have still to take theirs. */
  lemma {:induction false} RunActivates(s: Qk, ops: seq<Op>, a: nat)
    requires Inv(s) && RunOk(s, ops)
    ensures Count(RunStarted(s, ops), a) + Activated(s.stack, a)
         == Count(RunTaken(s, ops), a) + Activated(Run(s, ops).stack, a)
    decreases |ops|
  {
    if ops != [] {
      StepKeepsInv(s, ops[0]);
      StepActivates(s, ops[0], a);
      var t := Apply(s, ops[0]);
      RunActivates(t, ops[1..], a);
      CountFirst(Taken(s, ops[0]), RunTaken(t, ops[1..]), a);
      CountFirst(Started(s, ops[0]), RunStarted(t, ops[1..]), a);
    }
  }

  /** The ceilings of the brackets a run has opened and not closed, innermost last. */
  function OpenCeilings(outer: seq<nat>, ops: seq<Op>): seq<nat>
    decreases |ops|
  {
    if ops == [] then outer
    else
      match ops[0]
      case OpLock(c) => OpenCeilings(outer + [c], ops[1..])
      case OpUnlock => OpenCeilings(if outer == [] then [] else outer[..|outer| - 1], ops[1..])
      case _ => OpenCeilings(outer, ops[1..])
  }

  ghost function CeilingsOf(locks: seq<Lock>): (cs: seq<nat>)
    ensures |cs| == |locks| && forall i :: 0 <= i < |locks| ==> cs[i] == locks[i].ceiling
  {
    if locks == [] then [] else CeilingsOf(locks[..|locks| - 1]) + [locks[|locks| - 1].ceiling]
  }

  lemma {:induction false} RunCeilings(s: Qk, ops: seq<Op>)
    requires Inv(s) && RunOk(s, ops)
    ensures CeilingsOf(Run(s, ops).locks) == OpenCeilings(CeilingsOf(s.locks), ops)
    decreases |ops|
  {
    if ops != [] {
      StepKeepsInv(s, ops[0]);
      StepCeilings(s, ops[0]);
      RunCeilings(Apply(s, ops[0]), ops[1..]);
    }
  }

  lemma StepCeilings(s: Qk, op: Op)
    requires Inv(s) && Enabled(s, op)
    ensures var cs, t := CeilingsOf(s.locks), CeilingsOf(Apply(s, op).locks);
            match op
            case OpLock(c) => t == cs + [c]
            case OpUnlock => cs != [] && t == cs[..|cs| - 1]
            case _ => t == cs
  {
    StepLocks(s, op);
    if op.OpLock? {
      assert Apply(s, op).locks[..|s.locks|] == s.locks;
    }
  }

  /** The highest of the ceilings, 0 if there are none. */
  function Highest(cs: seq<nat>): (c: nat)
    ensures forall i :: 0 <= i < |cs| ==> cs[i] <= c
    ensures c == 0 || c in cs
  {
    if cs == [] then 0
    else var c := Highest(cs[..|cs| - 1]); if cs[|cs| - 1] > c then cs[|cs| - 1] else c
  }

  lemma {:induction false} LockPrioIsHighest(locks: seq<Lock>, d: nat, n: nat)
    requires LocksOk(locks, d, n)
    ensures LockPrioOf(locks) == Highest(CeilingsOf(locks))
    decreases |locks|
  {
    if locks != [] {
      var outer := locks[..|locks| - 1];
      LockPrioIsHighest(outer, locks[|locks| - 1].depth, n);
      var cs := CeilingsOf(locks);
      assert cs[..|cs| - 1] == CeilingsOf(outer);
    }
  }

  /** From an unlocked scheduler, the lock ceiling is at every moment the highest of the
      ceilings asked for by the brackets that are open, and 0 when none is. */
  lemma CeilingIsHighestOpen(s: Qk, ops: seq<Op>)
    requires Inv(s) && s.locks == [] && RunOk(s, ops)
    ensures Run(s, ops).lockPrio == Highest(OpenCeilings([], ops))
  {
    RunCeilings(s, ops);
    var t := Run(s, ops);
    LockPrioIsHighest(t.locks, |t.stack|, |t.queue|);
  }

  /** Each bracket was opened by the object that runs at its depth. */
  ghost predicate HoldersOk(s: Qk) {
    forall i :: 0 <= i < |s.locks| ==>
      s.locks[i].depth <= |s.stack| && s.locks[i].holder == Active(s.stack[..s.locks[i].depth])
  }

  lemma {:induction false} DepthsBelow(locks: seq<Lock>, d: nat, n: nat, i: nat)
    requires LocksOk(locks, d, n) && i < |locks|
    ensures locks[i].depth <= locks[|locks| - 1].depth <= d
    decreases |locks|
  {
    var outer := locks[..|locks| - 1];
    if i < |outer| {
      DepthsBelow(outer, locks[|outer|].depth, n, i);
    }
  }

  lemma StepKeepsHolders(s: Qk, op: Op)
    requires Inv(s) && Enabled(s, op) && HoldersOk(s)
    ensures HoldersOk(Apply(s, op))
  {
    var t := Apply(s, op);
    StepLocks(s, op);
    forall i | 0 <= i < |t.locks|
      ensures t.locks[i].depth <= |t.stack| && t.locks[i].holder == Active(t.stack[..t.locks[i].depth])
    {
      if i < |s.locks| {
        assert t.locks[i] == s.locks[i];
        DepthsBelow(s.locks, |s.stack|, |s.queue|, i);
        StackBelowKept(s, op, s.locks[i].depth);
      } else {
        assert s.stack[..|s.stack|] == s.stack;
      }
    }
  }

  /** A section changes at most the innermost activation, and the object it runs only when
      its step ends. */
  lemma StackBelowKept(s: Qk, op: Op, d: nat)
    requires Inv(s) && Enabled(s, op) && d <= |s.stack| && (op.OpFinish? ==> d < |s.stack|)
    ensures d <= |Apply(s, op).stack| && Active(Apply(s, op).stack[..d]) == Active(s.stack[..d])
  {
    var t := Apply(s, op);
    if op.OpFinish? {
      assert t.stack[..d] == s.stack[..d];
    } else if !op.OpTake? {
      assert t.stack[..d] == s.stack[..d];
    }
  }

  lemma {:induction false} RunKeepsHolders(s: Qk, ops: seq<Op>)
    requires Inv(s) && RunOk(s, ops) && HoldersOk(s)
    ensures HoldersOk(Run(s, ops))
    decreases |ops|
  {
    if ops != [] {
      StepKeepsInv(s, ops[0]);
      StepKeepsHolders(s, ops[0]);
      RunKeepsHolders(Apply(s, ops[0]), ops[1..]);
    }
  }

  /** The bracket that sets the ceiling, if any does. */
  lemma {:induction false} BracketInForce(locks: seq<Lock>, d: nat, n: nat) returns (i: nat)
    requires LocksOk(locks, d, n)
    ensures LockPrioOf(locks) == 0 ==> LockHolderOf(locks) == 0
    ensures LockPrioOf(locks) > 0 ==>
              i < |locks| && locks[i].ceiling == LockPrioOf(locks) && locks[i].holder == LockHolderOf(locks)
    decreases |locks|
  {
    i := 0;
    if locks != [] {
      if locks[|locks| - 1].raised {
        i := |locks| - 1;
      } else {
        i := BracketInForce(locks[..|locks| - 1], locks[|locks| - 1].depth, n);
      }
    }
  }

  /** From an unlocked scheduler, the lock holder is at every moment the object whose
      activation opened the bracket that sets the ceiling, or 0 when none does. */
  lemma HolderOpenedBracket(s: Qk, ops: seq<Op>) returns (i: nat)
    requires Inv(s) && s.locks == [] && RunOk(s, ops)
    ensures var t := Run(s, ops);
            && (t.lockPrio == 0 ==> t.lockHolder == 0)
            && (t.lockPrio > 0 ==>
                  && i < |t.locks| && t.locks[i].ceiling == t.lockPrio && t.locks[i].depth <= |t.stack|
                  && t.lockHolder == Active(t.stack[..t.locks[i].depth]))
  {
    RunKeepsHolders(s, ops);
    var t := Run(s, ops);
    i := BracketInForce(t.locks, |t.stack|, |t.queue|);
  }

  /** Locking changes nothing but the lock status, and unlocking right away brings back the
      very state before. */
  lemma UnlockUndoesLock(s: Qk, c: nat)
    requires Inv(s) && Enabled(s, OpLock(c))
    ensures var t := LockTo(s, c);
            && Inv(t) && Enabled(t, OpUnlock) && Unlock(t) == s
            && (if c > s.lockPrio then t.lockPrio == c && t.lockHolder == s.actPrio
                else t.lockPrio == s.lockPrio && t.lockHolder == s.lockHolder)
  {
    LockKeepsInv(s, c);
    var t := LockTo(s, c);
    assert t.locks[..|t.locks| - 1] == s.locks;
    MaxUnique(s.ready, MaxOf(s.ready));
  }

  /** The end of QF_run's start-up (initial_events): the scheduler is unlocked with
      whatever was posted during initialization. */
  ghost function NonEmpty(queue: seq<nat>): set<nat> {
    set a | 0 <= a < |queue| && queue[a] > 0
  }

  ghost function Initial(queue: seq<nat>): Qk {
    Resched(Qk(0, 0, 0, NonEmpty(queue), queue, [], [], 0))
  }

  lemma InitialInv(queue: seq<nat>)
    requires |queue| > 0 && queue[0] == 0
    ensures Inv(Initial(queue))
    ensures Initial(queue).queue == queue && Initial(queue).locks == [] && Initial(queue).isr == 0
  {
    ReschedKeepsInv(Qk(0, 0, 0, NonEmpty(queue), queue, [], [], 0));
  }

  // ------------------------------------------------------------------
  // The packed lock status

  /** The status word of a raised lock: previous lock priority in the high byte, previous
      holder in the low byte. */
  function Pack(prevPrio: nat, prevHolder: nat): nat {
    prevPrio * 0x100 + prevHolder
  }

  /** No raised lock packs to the "not locked" value 0xFF, and unpacking is exact. */
  lemma PackIsFaithful(prevPrio: nat, prevHolder: nat)
    requires prevHolder <= 65
    ensures Pack(prevPrio, prevHolder) != 0xFF
    ensures Pack(prevPrio, prevHolder) / 0x100 == prevPrio
    ensures Pack(prevPrio, prevHolder) % 0x100 == prevHolder
  {
  }

  /** What QK_schedLock returned for a bracket. */
  function Status(l: Lock): nat {
    if l.raised then Pack(l.prevPrio, l.prevHolder) else 0xFF
  }

  lemma {:induction false} HolderInRange(locks: seq<Lock>, d: nat, n: nat)
    requires LocksOk(locks, d, n)
    ensures LockHolderOf(locks) <= n && LockPrioOf(locks) <= n
    decreases |locks|
  {
    if locks != [] {
      HolderInRange(locks[..|locks| - 1], locks[|locks| - 1].depth, n);
    }
  }

  /** The status tells raised brackets from others and gives back what was saved. */
  lemma StatusIsFaithful(s: Qk)
    requires Inv(s) && s.locks != [] && |s.queue| <= 65
    ensures var l := LastLock(s);
            && (Status(l) == 0xFF <==> !l.raised)
            && (l.raised ==> Status(l) / 0x100 == l.prevPrio && Status(l) % 0x100 == l.prevHolder)
  {
    var l := LastLock(s);
    HolderInRange(s.locks[..|s.locks| - 1], l.depth, |s.queue|);
    if l.raised {
      PackIsFaithful(l.prevPrio, l.prevHolder);
    }
  }

  lemma ActiveInRange(s: Qk)
    requires InvExceptSched(s)
    ensures s.actPrio < |s.queue|
  {
    if s.stack != [] {
      assert s.stack[|s.stack| - 1].p in s.ready;
    }
  }

  lemma PostBeforeSched(s: Qk, a: nat)
    requires Inv(s) && Enabled(s, OpPost(a)) && s.queue[a] == 0
    ensures InvExceptSched(s.(queue := s.queue[a := 1], ready := s.ready + {a}))
  {
  }

  lemma UnlockBeforeSched(s: Qk)
    requires Inv(s) && Enabled(s, OpUnlock) && LastLock(s).raised
    ensures InvExceptSched(s.(locks := s.locks[..|s.locks| - 1],
                              lockPrio := LastLock(s).prevPrio, lockHolder := LastLock(s).prevHolder))
  {
  }
}

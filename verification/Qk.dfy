/** The QK kernel's functions on its attributes (qk.c).  The ready set is the bit set of
    qpset.h, and lock status travels packed in one word as in the source. */
module Qk {
  import opened PrioSet
  import opened QkSpec

  class Kernel {
    /** Q_DIM(QF_active_) */
    const size: nat
    const readySet: QPSet
    var actPrio: nat
    var nextPrio: nat
    var lockPrio: nat
    var lockHolder: nat
    var isrNest: nat
    var queue: seq<nat>
    ghost var stack: seq<Frame>
    ghost var locks: seq<Lock>

    ghost function State(): QkSpec.Qk
      reads this, readySet
    {
      QkSpec.Qk(actPrio, lockPrio, lockHolder, readySet.Elems(), queue, stack, locks, isrNest)
    }

    ghost predicate Valid()
      reads this, readySet
    {
      readySet.Valid() && |queue| == size <= 65 && Inv(State())
    }

    /** After initial_events with nothing posted yet. */
    constructor (size: nat)
      requires 1 <= size <= 65
      ensures Valid() && fresh(readySet) && queue == seq(size, _ => 0) && stack == [] && locks == [] && isrNest == 0
    {
      this.size := size;
      readySet := new QPSet();
      actPrio, nextPrio, lockPrio, lockHolder, isrNest := 0, 0, 0, 0, 0;
      queue := seq(size, _ => 0);
      stack, locks := [], [];
    }

    /** QK_sched_. */
    method Sched() returns (p: nat)
      requires readySet.Valid() && InvExceptSched(State()) && |queue| <= 65
      modifies this`nextPrio
      ensures p == QkSpec.Sched(State())
      ensures p != 0 ==> nextPrio == p && IsMax(readySet.Elems(), p) && p > actPrio && p > lockPrio
      ensures p == 0 ==> NothingWaits(State())
    {
      p := readySet.Max();
      MaxUnique(readySet.Elems(), p);
      if p <= actPrio {
        p := 0;
      } else if p <= lockPrio {
        p := 0;
      } else {
        // assertion 410
        assert p in readySet.Elems() && p < |queue|;
        nextPrio := p;
      }
    }

    /** Entry of QK_activate_ for the object QK_sched_ found: with that object on top of the
        activations, nothing eligible is left waiting. */
    method Activate()
      requires readySet.Valid() && InvExceptSched(State()) && isrNest == 0 && |queue| == size <= 65
      requires nextPrio == QkSpec.Sched(State()) != 0
      modifies this`nextPrio, this`actPrio, this`stack
      ensures Valid() && nextPrio == 0 && stack != [] && actPrio == stack[|stack| - 1].p
      ensures State() == QkSpec.Resched(old(State()))
    {
      ReschedKeepsInv(State());
      ActiveInRange(State());
      SchedFindsRunnable(State());
      // assertion 500
      assert actPrio < size && 0 < nextPrio < size;
      var pin := actPrio;
      var p := nextPrio;
      nextPrio := 0;
      stack := stack + [Frame(pin, p, false)];
      actPrio := p;
    }

    method Resched()
      requires readySet.Valid() && InvExceptSched(State()) && isrNest == 0 && |queue| == size <= 65
      modifies this`nextPrio, this`actPrio, this`stack
      ensures Valid() && State() == QkSpec.Resched(old(State()))
    {
      ReschedKeepsInv(State());
      var p := Sched();
      if p != 0 {
        Activate();
      }
    }

    /** An interrupt begins. */
    method IsrEntry()
      requires Valid()
      modifies this`isrNest
      ensures Valid() && State() == QkSpec.IsrEntry(old(State()))
    {
      isrNest := isrNest + 1;
    }

    /** An interrupt ends; the outermost one schedules. */
    method IsrExit()
      requires Valid() && isrNest > 0
      modifies this`isrNest, this`nextPrio, this`actPrio, this`stack
      ensures Valid() && State() == QkSpec.IsrExit(old(State()))
    {
      isrNest := isrNest - 1;
      if isrNest == 0 {
        Resched();
      }
    }

    /** The part of QActive_post_ that concerns the kernel. */
    method Post(a: nat)
      requires Valid() && Enabled(State(), OpPost(a))
      modifies this, readySet
      ensures Valid() && State() == QkSpec.Post(old(State()), a)
      ensures isrNest == 0 ==> actPrio == if a > old(actPrio) && a > lockPrio then a else old(actPrio)
    {
      PostKeepsInv(State(), a);
      if isrNest == 0 {
        PostRunsAtOnceIff(State(), a);
      }
      var wasEmpty := queue[a] == 0;
      ghost var s := State();
      queue := queue[a := queue[a] + 1];
      if wasEmpty {
        readySet.Insert(a);
        PostBeforeSched(s, a);
        if isrNest == 0 {
          Resched();
        }
      }
    }

    /** QK_schedLock. */
    method SchedLock(ceiling: nat) returns (stat: nat)
      requires Valid() && Enabled(State(), OpLock(ceiling))
      modifies this
      ensures Valid() && State() == LockTo(old(State()), ceiling)
      ensures stat == Status(LastLock(State()))
    {
      LockKeepsInv(State(), ceiling);
      if lockPrio < ceiling {
        stat := lockPrio * 0x100;
        locks := locks + [Lock(|stack|, true, ceiling, actPrio, lockPrio, lockHolder)];
        lockPrio := ceiling;
        stat := stat + lockHolder;
        lockHolder := actPrio;
      } else {
        stat := 0xFF;
        locks := locks + [Lock(|stack|, false, ceiling, actPrio, 0, 0)];
      }
    }

    /** QK_schedUnlock with the status its SchedLock returned. */
    method SchedUnlock(stat: nat)
      requires Valid() && Enabled(State(), OpUnlock) && stat == Status(LastLock(State()))
      modifies this
      ensures Valid() && State() == Unlock(old(State()))
    {
      ghost var s := State();
      UnlockKeepsInv(s);
      StatusIsFaithful(s);
      locks := locks[..|locks| - 1];
      if stat != 0xFF {
        var prevPrio := stat / 0x100;
        // precondition 700
        assert lockPrio > prevPrio;
        lockPrio := prevPrio;
        lockHolder := stat % 0x100;
        UnlockBeforeSched(s);
        Resched();
      }
    }

    /** QActive_get_ inside QK_activate_. */
    method Take()
      requires Valid() && Enabled(State(), OpTake)
      modifies this
      ensures Valid() && State() == Apply(old(State()), OpTake)
    {
      TakeKeepsInv(State());
      var p := actPrio;
      // QActive_get_ asserts that the queue is not empty
      assert queue[p] > 0;
      queue := queue[p := queue[p] - 1];
      stack := stack[|stack| - 1 := stack[|stack| - 1].(got := true)];
    }

    /** Take the object at `p` off the ready set if it has no event left, and find what
        to run above `pin`; 0 is nothing. */
    method FindNext(p0: nat, pin: nat) returns (p: nat)
      requires readySet.Valid() && 1 <= p0 <= 64 && p0 < |queue|
      modifies readySet
      ensures readySet.Valid()
      ensures readySet.Elems() == if queue[p0] == 0 then old(readySet.Elems()) - {p0} else old(readySet.Elems())
      ensures var m := MaxOf(readySet.Elems()); p == if m <= pin || m <= lockPrio then 0 else m
    {
      if queue[p0] == 0 {
        readySet.Remove(p0);
      }
      p := readySet.Max();
      MaxUnique(readySet.Elems(), p);
      if p <= pin {
        p := 0;
      } else if p <= lockPrio {
        p := 0;
      }
    }

    method Advance(pin: nat)
      requires readySet.Valid() && stack != [] && 1 <= actPrio <= 64 && actPrio < |queue|
      requires stack[|stack| - 1].p == actPrio && stack[|stack| - 1].pin == pin
      modifies this`stack, this`actPrio, readySet
      ensures readySet.Valid() && State() == QkSpec.Finish(old(State()))
    {
      var p := FindNext(actPrio, pin);
      if p != 0 {
        stack := stack[|stack| - 1 := Frame(pin, p, false)];
        actPrio := p;
      } else {
        stack := stack[..|stack| - 1];
        actPrio := pin;
      }
    }

    /** The loop body of QK_activate_ after the dispatch, and its exit.  `pin` is the
        local variable holding the preempted priority. */
    method Finish(pin: nat)
      requires Valid() && Enabled(State(), OpFinish) && pin == stack[|stack| - 1].pin
      modifies this`stack, this`actPrio, readySet
      ensures Valid() && State() == Apply(old(State()), OpFinish)
    {
      FinishKeepsInv(State());
      TopHasEvent(State());
      Advance(pin);
    }
  }
}

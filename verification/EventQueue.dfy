/** The native event queue of qf_qeq.c: a ring buffer whose indices run backwards,
    with one extra slot `frontEvt` for the event delivered next.  It refines a bounded
    deque of capacity qLen + 1. */
module EventQueue {
  import opened Basics

  const NO_MARGIN: nat := 0xFFFF

  /** Whether a post succeeds.  The margin is compared after truncation to the counter. */
  predicate Accepts(nFree: nat, margin: nat, range: nat)
    requires range > 0
  {
    (margin == NO_MARGIN && nFree > 0) || Grants(nFree, margin, range)
  }

  /** A post succeeds exactly when more than `margin` slots are free, unless the margin
      exceeds the counter range and truncation lets the event in; without a margin, 0xFFFF,
      exactly when any slot is free. */
  lemma AcceptsMeansMoreThanMargin(nFree: nat, margin: nat, range: nat)
    requires nFree < range
    ensures margin != 0xFFFF ==>
              ((Accepts(nFree, margin, range) <==> nFree > margin) <==> margin < range || nFree <= margin % range)
    ensures Accepts(nFree, 0xFFFF, range) <==> nFree > 0
  {
    if margin < range {
      assert margin % range == margin;
    }
  }

  /** With 8-bit counters and two free slots, a demand for 256 spare slots is met. */
  lemma TruncatedMarginAccepts()
    ensures Accepts(2, 0x100, 0x100)
  {
  }

  class QEQueue<T(==)> {
    /** The number of values of the counter type QEQueueCtr: 2^8, 2^16 or 2^32. */
    const range: nat
    const ring: array<T>
    var front: Option<T>
    var head: nat
    var tail: nat
    var nFree: nat
    var nMin: nat

    /** The queued events, next one first, and every value nFree has had. */
    ghost var items: seq<T>
    ghost var history: seq<nat>

    ghost predicate Valid()
      reads this, ring
    {
      var end := ring.Length;
      && end + 1 < range
      && |items| + nFree == end + 1
      && front == (if items == [] then None else Some(items[0]))
      && (end > 0 ==> tail < end)
      && (end > 0 ==> head == Slot(tail, if items == [] then 0 else |items| - 1, end))
      && (forall i :: 1 <= i < |items| ==> items[i] == ring[Slot(tail, i - 1, end)])
      && LowWater(history, nFree, nMin)
    }

    /** QEQueue_init; qLen may be 0. */
    constructor (qSto: array<T>, range: nat)
      requires qSto.Length + 1 < range
      ensures Valid() && items == [] && history == [qSto.Length + 1]
      ensures ring == qSto && this.range == range
    {
      this.range := range;
      ring := qSto;
      front := None;
      head := 0;
      tail := 0;
      nFree := qSto.Length + 1;
      nMin := qSto.Length + 1;
      items := [];
      history := [qSto.Length + 1];
    }

    /** One slot fewer: the free count and its low-water mark. */
    method CountUsed()
      requires nFree > 0 && LowWater(history, nFree, nMin)
      modifies `nFree, `nMin, `history
      ensures nFree == old(nFree) - 1 && history == old(history) + [nFree] && LowWater(history, nFree, nMin)
    {
      LowWaterStep(history, nFree, nMin, nFree - 1);
      nFree := nFree - 1;
      if nMin > nFree {
        nMin := nFree;
      }
      history := history + [nFree];
    }

    /** QEQueue_post.  The source casts `margin` to the counter type; an overflow with
        NO_MARGIN is assertion 210. */
    method Post(e: T, margin: nat) returns (status: bool)
      requires Valid() && margin <= NO_MARGIN
      requires margin == NO_MARGIN ==> nFree > 0
      modifies this, ring
      ensures Valid()
      ensures status <==> Accepts(old(nFree), margin, range)
      ensures items == if status then old(items) + [e] else old(items)
      ensures history == if status then old(history) + [nFree] else old(history)
    {
      if (margin == NO_MARGIN && nFree > 0) || nFree > margin % range {
        CountUsed();
        if front == None {
          front := Some(e);
        } else {
          ring[head] := e;
          if head == 0 {
            head := ring.Length;
          }
          head := head - 1;
        }
        items := items + [e];
        status := true;
      } else {
        status := false;
      }
    }

    /** QEQueue_postLIFO; a full queue violates precondition 300. */
    method PostLifo(e: T)
      requires Valid() && nFree > 0
      modifies this, ring
      ensures Valid()
      ensures items == [e] + old(items)
      ensures history == old(history) + [nFree]
    {
      CountUsed();
      var frontEvt := front;
      front := Some(e);
      if frontEvt != None {
        tail := tail + 1;
        if tail == ring.Length {
          tail := 0;
        }
        ring[tail] := frontEvt.value;
      }
      items := [e] + items;
    }

    /** QEQueue_get. */
    method Get() returns (e: Option<T>)
      requires Valid()
      modifies this
      ensures Valid()
      ensures e == if old(items) == [] then None else Some(old(items)[0])
      ensures items == if old(items) == [] then [] else old(items)[1..]
      ensures history == if old(items) == [] then old(history) else old(history) + [nFree]
    {
      e := front;
      if e != None {
        LowWaterStep(history, nFree, nMin, nFree + 1);
        nFree := nFree + 1;
        if nFree <= ring.Length {
          front := Some(ring[tail]);
          if tail == 0 {
            tail := ring.Length;
          }
          tail := tail - 1;
        } else {
          front := None;
          // assertion 410
          assert nFree == ring.Length + 1;
        }
        items := items[1..];
        history := history + [nFree];
      }
    }
  }
}

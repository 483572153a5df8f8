/** The queue functions of thread.h, which change links, queue heads and bitmap words in
    place. */
module ThreadQueues {
  import opened Basics
  import opened LinkSpec
  import opened ThreadSpec

  /** struct tcb_queue */
  datatype Queue = Queue(head: Option<Id>, tail: Option<Id>)

  ghost predicate Ends(q: Queue, s: seq<Id>) {
    q.head == At(s, 0) && q.tail == At(s, |s| - 1)
  }

  ghost predicate AllEnds(queues: seq<Queue>, lists: seq<seq<Id>>) {
    |queues| <= |lists| && forall k :: 0 <= k < |queues| ==> Ends(queues[k], lists[k])
  }

  lemma AllEndsStep(queues: seq<Queue>, lists: seq<seq<Id>>, k: nat, q: Queue, s: seq<Id>)
    requires AllEnds(queues, lists) && k < |queues| && Ends(q, s)
    ensures AllEnds(queues[k := q], lists[k := s])
  {
  }

  /** Every thread has links, a domain and a priority. */
  ghost predicate Configured(attr: map<Id, Attr>, mem: Memory, domains: nat) {
    forall t <- attr :: t in mem && attr[t].dom < domains && attr[t].prio < NUM_PRIORITIES
  }

  /** A queued thread is on the release queue or on the ready queue of its own domain and
      priority. */
  ghost predicate Homed(attr: map<Id, Attr>, home: map<Id, nat>, release: nat) {
    forall t <- home :: t in attr && (home[t] == release || home[t] == Index(attr[t].dom, attr[t].prio))
  }

  class Kernel {
    const domains: nat
    var attr: map<Id, Attr>
    var mem: Memory
    var queues: seq<Queue>
    var l1: seq<Word>
    var l2: seq<Level2>
    var releaseQueue: Option<Id>
    var reprogram: bool

    /** One list per (domain, priority), then the release queue; `home` maps every queued
        thread to its list. */
    ghost var lists: seq<seq<Id>>
    ghost var home: map<Id, nat>

    /** The list number of the release queue. */
    ghost function Release(): nat {
      domains * NUM_PRIORITIES
    }

    ghost predicate Shape()
      reads this
    {
      && |queues| == Release() && |lists| == Release() + 1
      && |l1| == domains && |l2| == domains
      && Configured(attr, mem, domains) && Homed(attr, home, Release())
    }

    ghost predicate Threaded()
      reads this
      requires Shape()
    {
      && Inv(mem, lists, home)
      && AllEnds(queues, lists)
      && releaseQueue == At(lists[Release()], 0)
    }

    ghost predicate Ordered()
      reads this
      requires Shape()
    {
      Known(attr, lists[Release()]) && Sorted(attr, lists[Release()])
    }

    ghost predicate Valid()
      reads this
    {
      Shape() && Threaded() && Ordered() && BitmapOk(l1, l2, lists)
    }

    /** Nothing is queued. */
    constructor (domains: nat, attr: map<Id, Attr>, mem: Memory)
      requires Configured(attr, mem, domains)
      ensures Valid() && this.domains == domains && this.attr == attr && home == map[]
      ensures forall s <- lists :: s == []
    {
      this.domains := domains;
      this.attr := attr;
      this.mem := mem;
      queues := seq(domains * NUM_PRIORITIES, _ => Queue(None, None));
      l1 := seq(domains, _ => ZERO);
      l2 := seq(domains, _ => ZEROS);
      releaseQueue := None;
      reprogram := false;
      lists := seq(domains * NUM_PRIORITIES + 1, _ => []);
      home := map[];
    }

    /** A thread may change its domain, priority or refill time while it is not queued. */
    method SetAttr(t: Id, a: Attr)
      requires Valid() && t in mem && t !in home && a.dom < domains && a.prio < NUM_PRIORITIES
      modifies `attr
      ensures Valid() && attr == old(attr)[t := a]
    {
      NotOnList(Release(), t);
      attr := attr[t := a];
    }

    lemma IndexInRange(t: Id)
      requires Shape() && t in attr
      ensures Index(attr[t].dom, attr[t].prio) < Release()
      ensures DomOf(Index(attr[t].dom, attr[t].prio)) == attr[t].dom
    {
      IndexCoordinates(attr[t].dom, attr[t].prio);
    }

    /** add_to_bitmap, called when the queue becomes non-empty. */
    method AddToBitmap(dom: nat, prio: nat, ghost s: seq<Id>)
      requires prio < NUM_PRIORITIES && Index(dom, prio) < |lists| && dom < |l1|
      requires BitmapOk(l1, l2, lists) && s != []
      modifies `l1, `l2
      ensures BitmapOk(l1, l2, lists[Index(dom, prio) := s])
      ensures |l1| == |old(l1)| && |l2| == |old(l2)|
    {
      ghost var k := Index(dom, prio);
      IndexCoordinates(dom, prio);
      SetBitMatches(l2, k, lists, s);
      SetBitNonZero(l2, k);
      SummaryStep(l1, l2, l1[dom := l1[dom][prio / WORD_BITS := true]], k, true);
      var l1index := prio / WORD_BITS;
      var inverted := L2_BITMAP_BITS - 1 - l1index;
      l1 := l1[dom := l1[dom][l1index := true]];
      l2 := l2[dom := l2[dom][inverted := l2[dom][inverted][prio % WORD_BITS := true]]];
    }

    /** remove_from_bitmap, called when the queue becomes empty. */
    method RemoveFromBitmap(dom: nat, prio: nat)
      requires prio < NUM_PRIORITIES && Index(dom, prio) < |lists| && dom < |l1|
      requires BitmapOk(l1, l2, lists)
      requires lists[Index(dom, prio)] != []
      modifies `l1, `l2
      ensures BitmapOk(l1, l2, lists[Index(dom, prio) := []])
      ensures |l1| == |old(l1)| && |l2| == |old(l2)|
    {
      ghost var k := Index(dom, prio);
      IndexCoordinates(dom, prio);
      SetBitMatches(l2, k, lists, []);
      assert Summary(l1, l2, dom);
      StillNonZero(l1, l2, k);
      ghost var was1, was2 := l1, l2;
      var l1index := prio / WORD_BITS;
      var inverted := L2_BITMAP_BITS - 1 - l1index;
      l2 := l2[dom := l2[dom][inverted := l2[dom][inverted][prio % WORD_BITS := false]]];
      if !NonZero(l2[dom][inverted]) {
        l1 := l1[dom := l1[dom][l1index := false]];
      }
      SummaryStep(was1, was2, l1, k, false);
    }

    /** A queue that stays non-empty keeps the bitmap right. */
    lemma BitmapUnaffected(k: nat, s: seq<Id>)
      requires BitmapOk(l1, l2, lists) && k < |lists| && (DomOf(k) < |l2| ==> (lists[k] != [] <==> s != []))
      ensures BitmapOk(l1, l2, lists[k := s])
    {
    }

    /** What remains to be shown once the links are spliced and the ends are set. */
    ghost predicate Spliced(was: Memory, k: nat, i: nat, t: Id)
      reads this
    {
      && Shape() && Ordered() && Inv(was, lists, home) && t in attr && t !in home
      && k < |lists| && i <= |lists[k]| && mem == Splice(was, lists[k], i, t)
      && BitmapOk(l1, l2, lists[k := Inserted(lists[k], i, t)])
      && (k == Release() || k == Index(attr[t].dom, attr[t].prio))
      && (k == Release() ==> Place(attr, lists[k], i, attr[t].time))
      && AllEnds(queues, lists[k := Inserted(lists[k], i, t)])
      && releaseQueue == At(lists[k := Inserted(lists[k], i, t)][Release()], 0)
    }

    /** Record the insertion in the ghost lists. */
    ghost method Inserting(was: Memory, k: nat, i: nat, t: Id)
      requires Spliced(was, k, i, t)
      modifies `lists, `home
      ensures Valid()
      ensures lists == old(lists)[k := Inserted(old(lists)[k], i, t)] && home == old(home)[t := k]
    {
      SpliceKeepsInv(was, lists, home, k, i, t);
      if k == Release() {
        InsertedSorted(attr, lists[k], i, t);
      }
      lists, home := lists[k := Inserted(lists[k], i, t)], home[t := k];
    }

    /** The ends of a list are threads with links. */
    lemma EndsHaveLinks(k: nat)
      requires Shape() && Threaded() && k < |lists|
      ensures forall i :: 0 <= i < |lists[k]| ==> lists[k][i] in mem
      ensures k < |queues| ==> Ends(queues[k], lists[k])
    {
      assert ListOk(mem, lists[k], home, k);
      forall i | 0 <= i < |lists[k]|
        ensures lists[k][i] in mem
      {
        assert LinkedAt(mem, lists[k], i);
      }
    }

    /** The body of sched_enqueue. */
    method PushFront(t: Id, dom: nat, prio: nat, ghost s: seq<Id>) returns (queue: Queue)
      requires prio < NUM_PRIORITIES && dom < |l1| && Index(dom, prio) < |queues| && Index(dom, prio) < |lists|
      requires s == lists[Index(dom, prio)] && Ends(queues[Index(dom, prio)], s) && (s != [] ==> s[0] in mem)
      requires BitmapOk(l1, l2, lists)
      modifies `mem, `queues, `l1, `l2
      ensures mem == Splice(old(mem), s, 0, t)
      ensures queues == old(queues)[Index(dom, prio) := queue] && Ends(queue, [t] + s)
      ensures BitmapOk(l1, l2, lists[Index(dom, prio) := [t] + s])
      ensures |l1| == |old(l1)| && |l2| == |old(l2)|
    {
      var idx := Index(dom, prio);
      queue := queues[idx];
      if queue.tail == None {
        queue := queue.(tail := Some(t));
        AddToBitmap(dom, prio, [t] + s);
      } else {
        var h := queue.head.value;
        mem := mem[h := mem[h].(prev := Some(t))];
        BitmapUnaffected(idx, [t] + s);
      }
      mem := mem[t := Links(None, queue.head)];
      queue := queue.(head := Some(t));
      queues := queues[idx := queue];
    }

    /** sched_enqueue: at the head of its ready queue. */
    method Enqueue(t: Id)
      requires Valid() && t in attr && t !in home
      modifies `mem, `queues, `l1, `l2, `lists, `home
      ensures Valid()
      ensures var k := Index(attr[t].dom, attr[t].prio);
              k < |old(lists)| && lists == old(lists)[k := [t] + old(lists)[k]] && home == old(home)[t := k]
    {
      ghost var was, k := mem, Index(attr[t].dom, attr[t].prio);
      IndexInRange(t);
      EndsHaveLinks(k);
      assert Inserted(lists[k], 0, t) == [t] + lists[k];
      ghost var before := queues;
      var queue := PushFront(t, attr[t].dom, attr[t].prio, lists[k]);
      AllEndsStep(before, lists, k, queue, [t] + lists[k]);
      Inserting(was, k, 0, t);
    }

    /** The body of sched_append. */
    method PushBack(t: Id, dom: nat, prio: nat, ghost s: seq<Id>) returns (queue: Queue)
      requires prio < NUM_PRIORITIES && dom < |l1| && Index(dom, prio) < |queues| && Index(dom, prio) < |lists|
      requires s == lists[Index(dom, prio)] && Ends(queues[Index(dom, prio)], s)
      requires s != [] ==> s[|s| - 1] in mem
      requires BitmapOk(l1, l2, lists)
      modifies `mem, `queues, `l1, `l2
      ensures mem == Splice(old(mem), s, |s|, t)
      ensures queues == old(queues)[Index(dom, prio) := queue] && Ends(queue, s + [t])
      ensures BitmapOk(l1, l2, lists[Index(dom, prio) := s + [t]])
      ensures |l1| == |old(l1)| && |l2| == |old(l2)|
    {
      var idx := Index(dom, prio);
      queue := queues[idx];
      if queue.head == None {
        queue := queue.(head := Some(t));
        AddToBitmap(dom, prio, s + [t]);
      } else {
        var b := queue.tail.value;
        mem := mem[b := mem[b].(next := Some(t))];
        BitmapUnaffected(idx, s + [t]);
      }
      mem := mem[t := Links(queue.tail, None)];
      queue := queue.(tail := Some(t));
      queues := queues[idx := queue];
    }

    /** sched_append: at the tail of its ready queue. */
    method Append(t: Id)
      requires Valid() && t in attr && t !in home
      modifies `mem, `queues, `l1, `l2, `lists, `home
      ensures Valid()
      ensures var k := Index(attr[t].dom, attr[t].prio);
              k < |old(lists)| && lists == old(lists)[k := old(lists)[k] + [t]] && home == old(home)[t := k]
    {
      ghost var was, k := mem, Index(attr[t].dom, attr[t].prio);
      IndexInRange(t);
      EndsHaveLinks(k);
      ghost var s := lists[k];
      assert Inserted(s, |s|, t) == s + [t];
      ghost var before := queues;
      var queue := PushBack(t, attr[t].dom, attr[t].prio, s);
      AllEndsStep(before, lists, k, queue, s + [t]);
      Inserting(was, k, |s|, t);
    }

    /** What remains to be shown once position i of list k is bypassed. */
    ghost predicate Bypassed(was: Memory, k: nat, i: nat)
      reads this
    {
      && Shape() && Ordered() && Inv(was, lists, home)
      && k < |lists| && i < |lists[k]| && SameBut(Bypass(was, lists[k], i), mem, lists[k][i])
      && BitmapOk(l1, l2, lists[k := RemoveAt(lists[k], i)])
      && AllEnds(queues, lists[k := RemoveAt(lists[k], i)])
      && releaseQueue == At(lists[k := RemoveAt(lists[k], i)][Release()], 0)
    }

    ghost method Removing(was: Memory, k: nat, i: nat)
      requires Bypassed(was, k, i)
      modifies `lists, `home
      ensures Valid()
      ensures lists == old(lists)[k := RemoveAt(old(lists)[k], i)] && home == old(home) - {old(lists)[k][i]}
    {
      ghost var shorter, without := lists[k := RemoveAt(lists[k], i)], home - {lists[k][i]};
      BypassedInOrder(was, k, i, shorter, without);
      lists, home := shorter, without;
    }

    lemma BypassedInOrder(was: Memory, k: nat, i: nat, shorter: seq<seq<Id>>, without: map<Id, nat>)
      requires Bypassed(was, k, i) && shorter == lists[k := RemoveAt(lists[k], i)] && without == home - {lists[k][i]}
      ensures Inv(mem, shorter, without) && Homed(attr, without, Release())
      ensures Known(attr, shorter[Release()]) && Sorted(attr, shorter[Release()])
    {
      BypassKeepsInv(was, lists, home, k, i, mem);
      if k == Release() {
        RemovedSorted(attr, lists[k], i);
      }
    }

    /** The body of sched_dequeue.  The links of t itself are left as they are. */
    method Unlink(t: Id, dom: nat, prio: nat, ghost s: seq<Id>, ghost i: nat) returns (queue: Queue)
      requires prio < NUM_PRIORITIES && dom < |l1| && Index(dom, prio) < |queues| && Index(dom, prio) < |lists|
      requires s == lists[Index(dom, prio)] && Ends(queues[Index(dom, prio)], s)
      requires i < |s| && s[i] == t && t in mem && mem[t] == Links(At(s, i - 1), At(s, i + 1)) && NoDup(s)
      requires (i > 0 ==> s[i - 1] in mem) && (i + 1 < |s| ==> s[i + 1] in mem)
      requires BitmapOk(l1, l2, lists)
      modifies `mem, `queues, `l1, `l2
      ensures mem == Bypass(old(mem), s, i)
      ensures queues == old(queues)[Index(dom, prio) := queue] && Ends(queue, RemoveAt(s, i))
      ensures BitmapOk(l1, l2, lists[Index(dom, prio) := RemoveAt(s, i)])
      ensures |l1| == |old(l1)| && |l2| == |old(l2)|
    {
      var idx := Index(dom, prio);
      queue := queues[idx];
      if mem[t].prev != None {
        var b := mem[t].prev.value;
        mem := mem[b := mem[b].(next := mem[t].next)];
        BitmapUnaffected(idx, RemoveAt(s, i));
      } else {
        queue := queue.(head := mem[t].next);
        if mem[t].next == None {
          RemoveFromBitmap(dom, prio);
          assert RemoveAt(s, i) == [];
        } else {
          BitmapUnaffected(idx, RemoveAt(s, i));
        }
      }
      if mem[t].next != None {
        var a := mem[t].next.value;
        mem := mem[a := mem[a].(prev := mem[t].prev)];
      } else {
        queue := queue.(tail := mem[t].prev);
      }
      queues := queues[idx := queue];
    }

    /** Where a queued thread is. */
    lemma Position(t: Id) returns (k: nat, i: nat)
      requires Shape() && Threaded() && t in home
      ensures k == home[t] < |lists| && i < |lists[k]| && lists[k][i] == t
      ensures NoDup(lists[k]) && t in mem && mem[t] == Links(At(lists[k], i - 1), At(lists[k], i + 1))
    {
      k := home[t];
      i :| 0 <= i < |lists[k]| && lists[k][i] == t;
      assert ListOk(mem, lists[k], home, k) && LinkedAt(mem, lists[k], i);
    }

    /** sched_dequeue: from wherever it is on its ready queue. */
    method Dequeue(t: Id) returns (ghost i: nat)
      requires Valid() && t in home && home[t] != Release()
      modifies `mem, `queues, `l1, `l2, `lists, `home
      ensures Valid()
      ensures var k := Index(attr[t].dom, attr[t].prio);
              && k < |old(lists)| && i < |old(lists)[k]| && old(lists)[k][i] == t
              && lists == old(lists)[k := RemoveAt(old(lists)[k], i)] && home == old(home) - {t}
    {
      ghost var k;
      k, i := Position(t);
      IndexInRange(t);
      EndsHaveLinks(k);
      ghost var was, before, s := mem, queues, lists[k];
      var queue := Unlink(t, attr[t].dom, attr[t].prio, s, i);
      AllEndsStep(before, lists, k, queue, RemoveAt(s, i));
      Removing(was, k, i);
    }

    /** The release queue is not one of the ready queues. */
    lemma ReadyUnaffected(s: seq<Id>)
      requires Shape() && AllEnds(queues, lists) && BitmapOk(l1, l2, lists)
      ensures AllEnds(queues, lists[Release() := s]) && BitmapOk(l1, l2, lists[Release() := s])
    {
      assert DomOf(Release()) == domains;
      BitmapUnaffected(Release(), s);
    }

    /** The walk of release_enqueue. */
    method FindPlace(t: Id) returns (before: Option<Id>, after: Option<Id>, ghost i: nat)
      requires Valid() && t in attr
      ensures Place(attr, lists[Release()], i, attr[t].time)
      ensures before == At(lists[Release()], i - 1) && after == At(lists[Release()], i)
    {
      ghost var s := lists[Release()];
      assert ListOk(mem, s, home, Release());
      before, after, i := None, releaseQueue, 0;
      while after != None && attr[t].time >= attr[after.value].time
        invariant i <= |s| && before == At(s, i - 1) && after == At(s, i)
        invariant forall j :: 0 <= j < i ==> attr[s[j]].time <= attr[t].time
        decreases |s| - i
      {
        assert LinkedAt(mem, s, i);
        before := after;
        after := mem[after.value].next;
        i := i + 1;
      }
    }

    /** The stores of release_enqueue. */
    method LinkBetween(t: Id, before: Option<Id>, after: Option<Id>, ghost s: seq<Id>, ghost i: nat)
      requires i <= |s| && before == At(s, i - 1) && after == At(s, i)
      requires (before != None ==> before.value in mem) && (after != None ==> after.value in mem)
      requires NoDup(s) && t !in s && releaseQueue == At(s, 0)
      modifies `mem, `releaseQueue, `reprogram
      ensures mem == Splice(old(mem), s, i, t)
      ensures releaseQueue == At(Inserted(s, i, t), 0)
      ensures reprogram == (old(reprogram) || releaseQueue != old(releaseQueue))
    {
      if before == None {
        releaseQueue := Some(t);
        reprogram := true;
      } else {
        mem := mem[before.value := mem[before.value].(next := Some(t))];
      }
      if after != None {
        mem := mem[after.value := mem[after.value].(prev := Some(t))];
      }
      mem := mem[t := Links(before, after)];
    }

    /** release_enqueue: in order of refill time, after those due at the same time; the
        timer is reprogrammed exactly when the head changes. */
    method ReleaseEnqueue(t: Id) returns (ghost i: nat)
      requires Valid() && t in attr && t !in home
      modifies `mem, `releaseQueue, `reprogram, `lists, `home
      ensures Valid()
      ensures Place(attr, old(lists)[Release()], i, attr[t].time)
      ensures lists == old(lists)[Release() := Inserted(old(lists)[Release()], i, t)]
      ensures home == old(home)[t := Release()]
      ensures reprogram == (old(reprogram) || releaseQueue != old(releaseQueue))
    {
      var before, after;
      before, after, i := FindPlace(t);
      ghost var was, s := mem, lists[Release()];
      EndsHaveLinks(Release());
      NotOnList(Release(), t);
      LinkBetween(t, before, after, s, i);
      ReadyUnaffected(Inserted(s, i, t));
      Inserting(was, Release(), i, t);
    }

    lemma NotOnList(k: nat, t: Id)
      requires Shape() && Threaded() && k < |lists| && t !in home
      ensures NoDup(lists[k]) && t !in lists[k]
    {
      assert ListOk(mem, lists[k], home, k);
    }

    /** The stores of release_dequeue. */
    method DetachHead(ghost s: seq<Id>) returns (t: Id)
      requires s != [] && releaseQueue == At(s, 0) && NoDup(s)
      requires s[0] in mem && mem[s[0]] == Links(None, At(s, 1)) && (|s| > 1 ==> s[1] in mem)
      modifies `mem, `releaseQueue, `reprogram
      ensures t == s[0] && SameBut(Bypass(old(mem), s, 0), mem, t) && mem[t] == Links(None, None)
      ensures releaseQueue == At(RemoveAt(s, 0), 0) && reprogram
    {
      t := releaseQueue.value;
      releaseQueue := mem[t].next;
      if releaseQueue != None {
        mem := mem[releaseQueue.value := mem[releaseQueue.value].(prev := None)];
      }
      if mem[t].next != None {
        var a := mem[t].next.value;
        mem := mem[a := mem[a].(prev := None)];
        mem := mem[t := mem[t].(next := None)];
      }
      reprogram := true;
    }

    /** release_dequeue: the thread due first. */
    method ReleaseDequeue() returns (t: Id)
      requires Valid() && lists[Release()] != []
      modifies `mem, `releaseQueue, `reprogram, `lists, `home
      ensures Valid() && reprogram
      ensures t == old(lists)[Release()][0] && t in attr
      ensures forall u <- old(lists)[Release()] :: u in attr && attr[t].time <= attr[u].time
      ensures lists == old(lists)[Release() := old(lists)[Release()][1..]] && home == old(home) - {t}
    {
      ghost var was, s := mem, lists[Release()];
      EndsHaveLinks(Release());
      assert ListOk(mem, s, home, Release()) && LinkedAt(mem, s, 0);
      assert RemoveAt(s, 0) == s[1..];
      t := DetachHead(s);
      ReadyUnaffected(RemoveAt(s, 0));
      Removing(was, Release(), 0);
    }

    /** The stores of release_remove. */
    method Detach(t: Id, ghost s: seq<Id>, ghost i: nat)
      requires i < |s| && s[i] == t && t in mem && mem[t] == Links(At(s, i - 1), At(s, i + 1)) && NoDup(s)
      requires (i > 0 ==> s[i - 1] in mem) && (i + 1 < |s| ==> s[i + 1] in mem) && releaseQueue == At(s, 0)
      modifies `mem, `releaseQueue, `reprogram
      ensures SameBut(Bypass(old(mem), s, i), mem, t) && mem[t] == Links(None, None)
      ensures releaseQueue == At(RemoveAt(s, i), 0)
      ensures reprogram == (old(reprogram) || releaseQueue != old(releaseQueue))
    {
      if mem[t].prev != None {
        var b := mem[t].prev.value;
        mem := mem[b := mem[b].(next := mem[t].next)];
      } else {
        releaseQueue := mem[t].next;
        reprogram := true;
      }
      if mem[t].next != None {
        var a := mem[t].next.value;
        mem := mem[a := mem[a].(prev := mem[t].prev)];
      }
      mem := mem[t := Links(None, None)];
    }

    /** release_remove: from anywhere. */
    method ReleaseRemove(t: Id) returns (ghost i: nat)
      requires Valid() && t in home && home[t] == Release()
      modifies `mem, `releaseQueue, `reprogram, `lists, `home
      ensures Valid()
      ensures i < |old(lists)[Release()]| && old(lists)[Release()][i] == t
      ensures lists == old(lists)[Release() := RemoveAt(old(lists)[Release()], i)] && home == old(home) - {t}
      ensures reprogram == (old(reprogram) || releaseQueue != old(releaseQueue))
    {
      ghost var k;
      k, i := Position(t);
      EndsHaveLinks(k);
      ghost var was, s := mem, lists[k];
      Detach(t, s, i);
      ReadyUnaffected(RemoveAt(s, i));
      Removing(was, k, i);
    }
  }
}

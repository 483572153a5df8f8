/** qf_time.c with its pointers: time events linked through `next`, the main list
    hanging off the list-head event, the freshly armed list off the head's `act`
    field, and the `prev` pointer of the tick scan.  Every method is one critical
    section and is proved to be the corresponding operation of TimerSpec; Valid() is
    what any interleaving of them keeps.

    A QTimeEvt is an identifier and `mem` holds the structs. */
module TimeEvt {
  import opened Basics
  import opened ListSpec
  import opened TimerSpec

  type Evt = nat
  /** &QF_timeEvtHead_[tickRate] */
  const HEAD: Evt := 0

  /** `linked` and `wasDisarmed` are the TE_IS_LINKED and TE_WAS_DISARMED bits. */
  datatype QTimeEvt = QTimeEvt(next: Option<Evt>, ctr: nat, interval: nat, linked: bool, wasDisarmed: bool)

  type Memory = map<Evt, QTimeEvt>

  /** The next fields. */
  ghost function Nexts(mem: Memory): map<Evt, Option<Evt>> {
    map e | e in mem :: mem[e].next
  }

  // ------------------------------------------------------------------
  // Memory and abstract state

  ghost predicate Fields(m: QTimeEvt, w: Wheel<Evt>, e: Evt)
    requires e in w.timers
  {
    Timer(m.ctr, m.interval) == w.timers[e] && (m.linked <==> e in w.main + w.newly)
  }

  /** The memory, the freshly-armed pointer and the scan pointer represent `w`. */
  ghost predicate Represents(mem: Memory, act: Option<Evt>, prev: Evt, w: Wheel<Evt>) {
    && Inv(w)
    && HEAD !in w.timers
    && mem.Keys == w.timers.Keys + {HEAD}
    && (forall e <- w.timers :: Fields(mem[e], w, e))
    && Chained(Nexts(mem), [HEAD] + w.main)
    && Chained(Nexts(mem), w.newly)
    && act == At(w.newly, 0)
    && prev == ([HEAD] + w.main)[w.pos]
  }

  /** Setting a counter keeps the representation when armed events stay linked. */
  lemma SetTimerRepresents(mem: Memory, act: Option<Evt>, prev: Evt, w: Wheel<Evt>, t: Evt, m: QTimeEvt)
    requires Represents(mem, act, prev, w) && t in w.timers
    requires m.next == mem[t].next && m.linked == mem[t].linked
    requires m.ctr > 0 ==> t in w.main + w.newly
    ensures Represents(mem[t := m], act, prev, w.(timers := w.timers[t := Timer(m.ctr, m.interval)]))
  {
    var mem', w' := mem[t := m], w.(timers := w.timers[t := Timer(m.ctr, m.interval)]);
    ChainedFrame(Nexts(mem), Nexts(mem'), [HEAD] + w.main);
    ChainedFrame(Nexts(mem), Nexts(mem'), w.newly);
    forall e | e in w'.timers ensures Fields(mem'[e], w', e) {
      assert Fields(mem[e], w, e);
    }
  }

  lemma LinkRepresents(mem: Memory, act: Option<Evt>, prev: Evt, w: Wheel<Evt>, t: Evt)
    requires Represents(mem, act, prev, w) && t in w.timers && !mem[t].linked
    ensures Represents(mem[t := mem[t].(next := act, linked := true)], Some(t), prev, Link(w, t))
  {
    var mem', v := mem[t := mem[t].(next := act, linked := true)], Link(w, t);
    assert Fields(mem[t], w, t);
    LinkKeepsLists(w, t);
    ChainedFrame(Nexts(mem), Nexts(mem'), [HEAD] + w.main);
    ChainedFrame(Nexts(mem), Nexts(mem'), w.newly);
    ChainedPrepend(Nexts(mem'), t, w.newly);
    forall e | e in v.timers ensures Fields(mem'[e], v, e) {
      assert Fields(mem[e], w, e);
      assert e in v.main + v.newly <==> e in w.main + w.newly || e == t;
    }
  }

  lemma NodesNoDup(w: Wheel<Evt>)
    requires Inv(w) && HEAD !in w.timers
    ensures NoDup([HEAD] + w.main + w.newly) && NoDup([HEAD] + w.main)
  {
    var both, all := w.main + w.newly, [HEAD] + w.main + w.newly;
    assert forall i :: 0 < i < |all| ==> all[i] == both[i - 1] && both[i - 1] in both;
    assert forall i :: 0 <= i < |w.main| + 1 ==> ([HEAD] + w.main)[i] == all[i];
  }

  lemma SpliceRepresents(mem: Memory, act: Option<Evt>, prev: Evt, w: Wheel<Evt>)
    requires Represents(mem, act, prev, w) && w.pos == |w.main|
    ensures Represents(mem[prev := mem[prev].(next := act)], None, prev, Splice(w))
  {
    var mem', v := mem[prev := mem[prev].(next := act)], Splice(w);
    SpliceKeepsInv(w);
    NodesNoDup(w);
    var nodes := [HEAD] + w.main;
    assert LinkedAt(Nexts(mem), nodes, w.pos);
    ChainedAppend(Nexts(mem), Nexts(mem'), nodes, w.newly);
    assert nodes + w.newly == [HEAD] + v.main;
    forall e | e in v.timers ensures Fields(mem'[e], v, e) {
      assert Fields(mem[e], w, e);
    }
  }

  /** Memory after `t`, the node behind `prev`, has been unlinked and disarmed. */
  function UnlinkedMemory(mem: Memory, prev: Evt, t: Evt): (r: Memory)
    requires t in mem && prev in mem
    ensures r.Keys == mem.Keys
    ensures prev != t ==> r[prev] == mem[prev].(next := mem[t].next) && r[t] == mem[t].(ctr := 0, linked := false)
    ensures forall e <- mem :: e != prev && e != t ==> r[e] == mem[e]
  {
    var mem' := mem[prev := mem[prev].(next := mem[t].next)];
    mem'[t := mem'[t].(ctr := 0, linked := false)]
  }

  /** The node at the scan position and the one before it. */
  lemma UnlinkEnds(mem: Memory, act: Option<Evt>, prev: Evt, w: Wheel<Evt>, t: Evt)
    requires Represents(mem, act, prev, w) && w.pos < |w.main| && t == w.main[w.pos]
    ensures t in mem && prev in mem && prev != t && prev !in w.newly && t !in w.newly
    ensures mem[t].next == At([HEAD] + w.main, w.pos + 2)
  {
    var nodes := [HEAD] + w.main;
    assert LinkedAt(Nexts(mem), nodes, w.pos) && LinkedAt(Nexts(mem), nodes, w.pos + 1);
    NodesNoDup(w);
    var all := nodes + w.newly;
    assert nodes[w.pos] == all[w.pos] == prev && nodes[w.pos + 1] == all[w.pos + 1] == t;
    assert forall j :: 0 <= j < |w.newly| ==> w.newly[j] == all[|nodes| + j];
  }

  lemma UnlinkKeepsMain(mem: Memory, prev: Evt, w: Wheel<Evt>, t: Evt)
    requires w.pos < |w.main| && t == w.main[w.pos] && prev == ([HEAD] + w.main)[w.pos]
    requires t in mem && prev in mem && prev != t && mem[t].next == At([HEAD] + w.main, w.pos + 2)
    requires Chained(Nexts(mem), [HEAD] + w.main) && NoDup([HEAD] + w.main)
    ensures Chained(Nexts(UnlinkedMemory(mem, prev, t)), [HEAD] + RemoveAt(w.main, w.pos))
  {
    var nodes := [HEAD] + w.main;
    ChainedUnlink(Nexts(mem), Nexts(UnlinkedMemory(mem, prev, t)), nodes, w.pos);
    assert RemoveAt(nodes, w.pos + 1) == [HEAD] + RemoveAt(w.main, w.pos);
  }

  lemma UnlinkKeepsChains(mem: Memory, act: Option<Evt>, prev: Evt, w: Wheel<Evt>, t: Evt)
    requires Represents(mem, act, prev, w) && w.pos < |w.main| && t == w.main[w.pos]
    ensures t in mem && prev in mem && prev != t
    ensures Chained(Nexts(UnlinkedMemory(mem, prev, t)), [HEAD] + RemoveAt(w.main, w.pos))
    ensures Chained(Nexts(UnlinkedMemory(mem, prev, t)), w.newly)
  {
    UnlinkEnds(mem, act, prev, w, t);
    NodesNoDup(w);
    UnlinkKeepsMain(mem, prev, w, t);
    ChainedFrame(Nexts(mem), Nexts(UnlinkedMemory(mem, prev, t)), w.newly);
  }

  lemma UnlinkRepresents(mem: Memory, act: Option<Evt>, prev: Evt, w: Wheel<Evt>, t: Evt)
    requires Represents(mem, act, prev, w) && w.pos < |w.main| && t == w.main[w.pos]
    ensures t in mem && prev in mem && prev != t
    ensures Represents(UnlinkedMemory(mem, prev, t), act, prev, Unlinked(w, Timer(0, mem[t].interval)))
  {
    UnlinkKeepsChains(mem, act, prev, w, t);
    var mem', v := UnlinkedMemory(mem, prev, t), Unlinked(w, Timer(0, mem[t].interval));
    UnlinkKeepsInv(w, Timer(0, mem[t].interval));
    forall e | e in v.timers ensures Fields(mem'[e], v, e) {
      assert Fields(mem[e], w, e);
    }
  }

  /** One element of QF_timeEvtHead_, with the scan state of QF_tickX_ for that rate. */
  class TickRate {
    var mem: Memory
    var act: Option<Evt>
    var prev: Evt
    ghost var wheel: Wheel<Evt>

    ghost predicate Valid()
      reads this
    {
      Represents(mem, act, prev, wheel)
    }

    /** All events constructed (QTimeEvt_ctorX) and none armed. */
    constructor (evts: set<Evt>)
      requires HEAD !in evts
      ensures Valid()
      ensures wheel == Wheel([], [], map e | e in evts :: Timer(0, 0), 0)
    {
      mem := map e | e in evts + {HEAD} :: QTimeEvt(None, 0, 0, false, false);
      act := None;
      prev := HEAD;
      wheel := Wheel([], [], map e | e in evts :: Timer(0, 0), 0);
    }

    /** QTimeEvt_armX. */
    method Arm(t: Evt, nTicks: nat, interval: nat)
      requires Valid() && t in wheel.timers && mem[t].ctr == 0 && nTicks != 0
      modifies this
      ensures Valid() && wheel == TimerSpec.Arm(old(wheel), t, nTicks, interval)
      ensures t in mem && mem[t].wasDisarmed == old(mem[t].wasDisarmed)
    {
      ghost var w := wheel;
      assert Fields(mem[t], w, t);
      if mem[t].linked {
        mem := mem[t := mem[t].(ctr := nTicks, interval := interval)];
        SetTimerRepresents(old(mem), act, prev, w, t, mem[t]);
      } else {
        LinkRepresents(mem, act, prev, w, t);
        LinkKeepsLists(w, t);
        mem := mem[t := mem[t].(next := act, linked := true)];
        act := Some(t);
        SetTimerRepresents(mem, act, prev, Link(w, t), t, mem[t].(ctr := nTicks, interval := interval));
        mem := mem[t := mem[t].(ctr := nTicks, interval := interval)];
      }
      wheel := TimerSpec.Arm(w, t, nTicks, interval);
    }

    /** QTimeEvt_disarm: true iff the event was armed. */
    method Disarm(t: Evt) returns (wasArmed: bool)
      requires Valid() && t in wheel.timers
      modifies this
      ensures Valid() && wheel == TimerSpec.Disarm(old(wheel), t)
      ensures wasArmed <==> old(wheel).timers[t].ctr > 0
      ensures t in mem && mem[t].wasDisarmed == wasArmed
    {
      ghost var w := wheel;
      assert Fields(mem[t], w, t);
      if mem[t].ctr != 0 {
        wasArmed := true;
        mem := mem[t := mem[t].(wasDisarmed := true, ctr := 0)];
      } else {
        wasArmed := false;
        mem := mem[t := mem[t].(wasDisarmed := false)];
      }
      SetTimerRepresents(old(mem), act, prev, w, t, mem[t]);
      wheel := TimerSpec.Disarm(w, t);
    }

    /** QTimeEvt_rearm: true iff the event was armed. */
    method Rearm(t: Evt, nTicks: nat) returns (wasArmed: bool)
      requires Valid() && t in wheel.timers && nTicks != 0
      modifies this
      ensures Valid() && wheel == TimerSpec.Rearm(old(wheel), t, nTicks)
      ensures wasArmed <==> old(wheel).timers[t].ctr > 0
      ensures t in mem && mem[t].wasDisarmed == old(mem[t].wasDisarmed)
    {
      ghost var w := wheel;
      assert Fields(mem[t], w, t);
      LinkKeepsLists(w, t);
      if mem[t].ctr == 0 {
        wasArmed := false;
        if !mem[t].linked {
          LinkRepresents(mem, act, prev, w, t);
          mem := mem[t := mem[t].(next := act, linked := true)];
          act := Some(t);
        }
      } else {
        wasArmed := true;
      }
      SetTimerRepresents(mem, act, prev, Link(w, t), t, mem[t].(ctr := nTicks));
      mem := mem[t := mem[t].(ctr := nTicks)];
      wheel := TimerSpec.Rearm(w, t, nTicks);
    }

    /** QF_noTimeEvtsActiveX: nothing is linked, hence nothing is armed. */
    method NoTimeEvtsActive() returns (inactive: bool)
      requires Valid()
      ensures inactive <==> wheel.main == [] && wheel.newly == []
      ensures inactive ==> forall t <- wheel.timers :: wheel.timers[t].ctr == 0
    {
      assert LinkedAt(Nexts(mem), [HEAD] + wheel.main, 0);
      if mem[HEAD].next != None {
        inactive := false;
      } else if act != None {
        inactive := false;
      } else {
        inactive := true;
      }
    }

    /** Entry of QF_tickX_. */
    method Begin()
      requires Valid()
      modifies this
      ensures Valid() && wheel == TimerSpec.Begin(old(wheel))
    {
      prev := HEAD;
      wheel := TimerSpec.Begin(wheel);
    }

    /** qf_time.c:96-113: advance, appending the freshly armed list at the end. */
    method Advance() returns (t: Option<Evt>)
      requires Valid()
      modifies this
      ensures Valid()
      ensures t.None? <==> ScanDone(old(wheel))
      ensures wheel == if t.None? then old(wheel) else Splice(old(wheel))
      ensures t.Some? ==> wheel.pos < |wheel.main| && t.value == wheel.main[wheel.pos]
    {
      assert LinkedAt(Nexts(mem), [HEAD] + wheel.main, wheel.pos);
      t := mem[prev].next;
      if t == None {
        if act != None {
          SpliceRepresents(mem, act, prev, wheel);
          wheel := Splice(wheel);
          mem := mem[prev := mem[prev].(next := act)];
          act := None;
          assert LinkedAt(Nexts(mem), [HEAD] + wheel.main, wheel.pos);
          t := mem[prev].next;
        }
      }
    }

    /** Take the node behind `prev` off the main list and disarm it. */
    method UnlinkNext(t: Evt)
      requires Valid() && wheel.pos < |wheel.main| && t == wheel.main[wheel.pos] && t in wheel.timers
      modifies this
      ensures Valid()
      ensures wheel == Unlinked(old(wheel), Timer(0, old(wheel).timers[t].interval))
    {
      UnlinkRepresents(mem, act, prev, wheel, t);
      assert Fields(mem[t], wheel, t);
      wheel := Unlinked(wheel, Timer(0, mem[t].interval));
      mem := mem[prev := mem[prev].(next := mem[t].next)];
      mem := mem[t := mem[t].(ctr := 0, linked := false)];
    }

    /** Load the counter of the node behind `prev` and step onto it. */
    method StepOnto(t: Evt, ctr: nat)
      requires Valid() && wheel.pos < |wheel.main| && t == wheel.main[wheel.pos] && t in wheel.timers
      modifies this
      ensures Valid()
      ensures wheel == old(wheel).(timers := old(wheel).timers[t := Timer(ctr, old(wheel).timers[t].interval)],
                                   pos := old(wheel).pos + 1)
    {
      assert Fields(mem[t], wheel, t);
      assert t in wheel.main + wheel.newly;
      SetTimerRepresents(mem, act, prev, wheel, t, mem[t].(ctr := ctr));
      mem := mem[t := mem[t].(ctr := ctr)];
      prev := t;
      wheel := wheel.(timers := wheel.timers[t := Timer(ctr, mem[t].interval)], pos := wheel.pos + 1);
    }

    /** One pass of the scan loop of QF_tickX_ (qf_time.c:95-174). */
    method ScanStep() returns (done: bool, posted: Option<Evt>)
      requires Valid()
      modifies this
      ensures Valid()
      ensures done <==> ScanDone(old(wheel))
      ensures done ==> wheel == old(wheel) && posted == None
      ensures !done ==> (wheel, posted) == Scan(old(wheel))
    {
      posted := None;
      var next := Advance();
      if next == None {
        return true, None;
      }
      done := false;
      var t := next.value;
      ghost var v := wheel;
      assert t in v.main + v.newly && Fields(mem[t], v, t);
      if mem[t].ctr == 0 {
        assert v.timers[t := v.timers[t]] == v.timers;
        UnlinkNext(t);
      } else {
        var ctr := mem[t].ctr - 1;
        if ctr == 0 {
          posted := Some(t);
          if mem[t].interval != 0 {
            StepOnto(t, mem[t].interval);
          } else {
            UnlinkNext(t);
          }
        } else {
          StepOnto(t, ctr);
        }
      }
    }

    /** QF_tickX_ without interleaving. */
    method Tick() returns (posts: seq<Evt>)
      requires Valid()
      modifies this
      ensures Valid() && (wheel, posts) == TimerSpec.Tick(old(wheel))
    {
      posts := [];
      Begin();
      ghost var b := wheel;
      assert [] + ScanAll(b).1 == ScanAll(b).1;
      var done := false;
      while !done
        invariant Valid() && (done ==> ScanDone(wheel))
        invariant ScanAll(b).0 == ScanAll(wheel).0
        invariant ScanAll(b).1 == posts + ScanAll(wheel).1
        decreases |Pending(wheel)|, !done
      {
        ScanAllUnfolds(wheel, posts);
        var posted;
        done, posted := ScanStep();
        if posted.Some? {
          posts := posts + [posted.value];
        }
      }
      ScanAllUnfolds(wheel, posts);
    }
  }
}

/** The event processor of qep_hsm.c: QHsm_init_, QHsm_dispatch_, QHsm_tran_,
    QHsm_isIn and QHsm_childState_, statement by statement.  Every handler call may
    overwrite `temp`, and `trace` records every signal sent except the empty probe.

    Method contracts tie each operation to the step specified in HsmChart.  That the
    six-slot path array is never indexed out of range and that assertions 220, 410,
    510 and 520 hold is part of verifying the bodies. */
module Hsm {
  import opened Basics
  import opened HsmChart

  class QHsm {
    const chart: Chart
    var state: State
    var temp: State
    ghost var trace: seq<Sent>

    /** Between run-to-completion steps: a stable configuration in a real state. */
    ghost predicate Stable()
      reads this
    {
      WellFormed(chart) && state in chart.parent && temp == state
    }

    /** QHsm_ctor: `initial` is the top-most initial pseudostate. */
    constructor (c: Chart, initial: State)
      requires WellFormed(c)
      ensures chart == c && state == TOP && temp == initial && trace == []
    {
      chart := c;
      state := TOP;
      temp := initial;
      trace := [];
    }

    /** Invoke a state handler: Q_SUPER, Q_TRAN and Q_TRAN_HIST leave their operand
        in `temp`, the other answers leave it alone. */
    method Trig(h: Handlers, s: State, sig: Signal) returns (r: Answer)
      modifies this
      ensures r == h(s, sig)
      ensures temp == match r
                      case Super(p) => p
                      case Tran(t) => t
                      case TranHist(t) => t
                      case _ => old(temp)
      ensures state == old(state)
      ensures trace == if sig == Empty then old(trace) else old(trace) + [Sent(s, sig)]
    {
      r := h(s, sig);
      match r {
        case Super(p) => temp := p;
        case Tran(t) => temp := t;
        case TranHist(t) => temp := t;
        case _ =>
      }
      if sig != Empty {
        trace := trace + [Sent(s, sig)];
      }
    }

    /** QEP_TRIG_(s, QEP_EMPTY_SIG_): find the superstate of `s`. */
    method Probe(h: Handlers, s: State) returns (r: Answer)
      requires WellFormed(chart) && WellBehaved(chart, h) && s in chart.level
      modifies this
      ensures r == if s == TOP then Ignored else Super(chart.parent[s])
      ensures temp == if s == TOP then old(temp) else chart.parent[s]
      ensures state == old(state) && trace == old(trace)
    {
      r := Trig(h, s, Empty);
    }

    /** The loops at qep_hsm.c:193-201 and 368-378: record in `path` the states from
        `temp` up to, but not including, the source `t`. */
    method FillPath(h: Handlers, path: array<State>, t: State, ghost chain: seq<State>) returns (ip: int)
      requires WellFormed(chart) && WellBehaved(chart, h) && path.Length == MAX_NEST_DEPTH
      requires Climb(chart, chain) && 1 < |chain| <= MAX_NEST_DEPTH
      requires chain[0] == temp && chain[|chain| - 1] == t
      modifies this, path
      ensures 0 <= ip < |chain| - 1 && chain[ip + 1] == t
      ensures path[..ip + 1] == chain[..ip + 1]
      ensures temp == old(temp) && state == old(state) && trace == old(trace)
    {
      ip := 0;
      path[0] := temp;
      assert Rises(chart, chain, 0);
      var _ := Probe(h, temp);
      while temp != t
        invariant 0 <= ip < |chain| - 1
        invariant temp == chain[ip + 1]
        invariant forall i :: 0 <= i <= ip ==> path[i] == chain[i]
        invariant state == old(state) && trace == old(trace)
        decreases |chain| - ip
      {
        ip := ip + 1;
        // assertion 220
        assert ip < MAX_NEST_DEPTH;
        path[ip] := temp;
        assert Rises(chart, chain, ip);
        var _ := Probe(h, temp);
      }
      temp := path[0];
    }

    /** Retrace the entry path in reverse order (qep_hsm.c:204-207, 352-354, 384-387). */
    method EnterPath(h: Handlers, path: array<State>, ip0: int, ghost entered: seq<State>)
      requires WellFormed(chart) && WellBehaved(chart, h)
      requires -1 <= ip0 < path.Length
      requires path[..ip0 + 1] == entered && forall s <- entered :: s in chart.parent
      modifies this
      ensures state == old(state)
      ensures trace == old(trace) + Signals(Reverse(entered), Entry)
    {
      var ip := ip0;
      ghost var all, todo := Signals(Reverse(entered), Entry), Signals(Reverse(entered), Entry);
      assert entered[..ip + 1] == entered;
      while ip >= 0
        invariant -1 <= ip <= ip0
        invariant state == old(state)
        invariant todo == Signals(Reverse(entered[..ip + 1]), Entry)
        invariant old(trace) + all == trace + todo
      {
        LastEntry(entered[..ip + 1]);
        assert entered[..ip + 1][..ip] == entered[..ip];
        assert path[ip] == path[..ip0 + 1][ip];
        ghost var rest := Signals(Reverse(entered[..ip]), Entry);
        MoveOver(trace, Sent(entered[ip], Entry), rest);
        todo := rest;
        var _ := Trig(h, path[ip], Entry);
        ip := ip - 1;
      }
    }

    /** QEP_EXIT_, then the superstate: after an exit signal `temp` is the superstate
        of `t` whether or not the handler had an exit action (qep_hsm.c:323-330, 546-555). */
    method ExitToSuper(h: Handlers, t: State)
      requires WellFormed(chart) && WellBehaved(chart, h) && t in chart.parent
      modifies this
      ensures temp == chart.parent[t] && state == old(state)
      ensures trace == old(trace) + [Sent(t, Exit)]
    {
      var r := Trig(h, t, Exit);
      if r == Handled {
        var _ := Probe(h, t);
      }
    }

    /** Case (e): store the superstates of the target in `path` until the source or
        top turns up. */
    method ClimbTarget(h: Handlers, path: array<State>, s: State, ghost chain: seq<State>)
      returns (ip: int, found: bool)
      requires WellFormed(chart) && WellBehaved(chart, h) && path.Length == MAX_NEST_DEPTH
      requires Climb(chart, chain) && 1 < |chain| <= MAX_NEST_DEPTH && chain[|chain| - 1] == TOP
      requires path[0] == chain[0] && path[1] == chain[1] && s != chain[0] && s != chain[1]
      modifies this, path
      ensures state == old(state) && trace == old(trace)
      ensures 1 <= ip < |chain| && path[..ip + 1] == chain[..ip + 1]
      ensures found ==> ip + 1 < |chain| && chain[ip + 1] == s
      ensures !found ==> ip + 1 == |chain| && s !in chain
    {
      found := false;
      ip := 1;
      assert |chain| > 2 ==> Rises(chart, chain, 1);
      var r := Probe(h, path[1]);
      while r.Super?
        invariant 1 <= ip < |chain|
        invariant state == old(state) && trace == old(trace)
        invariant forall i :: 0 <= i <= ip ==> path[i] == chain[i] && chain[i] != s
        invariant found ==> r == Handled && ip + 1 < |chain| && chain[ip + 1] == s
        invariant !found && r.Super? ==> ip + 1 < |chain| && temp == chain[ip + 1]
        invariant !found && !r.Super? ==> ip + 1 == |chain|
        decreases |chain| - ip, r.Super?
      {
        ip := ip + 1;
        path[ip] := temp;
        if temp == s {
          found := true;
          // assertion 510
          assert ip < MAX_NEST_DEPTH;
          ip := ip - 1;
          r := Handled;
        } else {
          assert ip + 1 < |chain| ==> Rises(chart, chain, ip);
          r := Probe(h, temp);
        }
      }
    }

    /** The downward scans of cases (f) and (g): the part of the path before `t`. */
    method FindOnPath(path: array<State>, ip0: int, t: State) returns (found: bool, ip: int)
      requires 0 <= ip0 < path.Length
      ensures found <==> t in path[..ip0 + 1]
      ensures found ==> -1 <= ip < ip0 && path[ip + 1] == t
      ensures !found ==> ip == ip0
    {
      ip := ip0;
      found := false;
      var iq := ip;
      while iq >= 0
        invariant -1 <= iq <= ip0
        invariant !found ==> ip == ip0 && forall i :: iq < i <= ip0 ==> path[i] != t
        invariant found ==> iq == -1 && -1 <= ip < ip0 && path[ip + 1] == t
      {
        if t == path[iq] {
          found := true;
          ip := iq - 1;
          iq := -1;
        } else {
          iq := iq - 1;
        }
      }
      assert found ==> path[..ip0 + 1][ip + 1] == t;
    }

    /** Is `t` on the path to top, and if so which part of the path lies below it? */
    method ScanPath(path: array<State>, ip0: int, t: State) returns (found: bool, ip: int)
      requires WellFormed(chart) && path.Length == MAX_NEST_DEPTH
      requires 0 <= ip0 < path.Length && path[0] in chart.parent
      requires Climb(chart, path[..ip0 + 1]) && path[ip0] == TOP
      ensures found <==> Contains(chart, t, path[0])
      ensures -1 <= ip <= ip0
      ensures found ==> path[..ip + 1] == Up(chart, path[0], t)
      ensures !found ==> ip == ip0
    {
      found, ip := FindOnPath(path, ip0, t);
      ghost var chain := path[..ip0 + 1];
      ClimbMeetsContainers(chart, chain, t);
      if found {
        UpOnClimb(chart, chain, ip + 1);
        assert path[..ip + 1] == chain[..ip + 1];
      }
    }

    /** Cases (f) and (g): leave the source, then climb from its superstate `super` until
        the path is met. */
    method ClimbSource(h: Handlers, path: array<State>, ip0: int, s: State, super: State) returns (ip: int)
      requires WellFormed(chart) && WellBehaved(chart, h) && path.Length == MAX_NEST_DEPTH
      requires s in chart.parent && super == chart.parent[s]
      requires path[0] in chart.parent && !Contains(chart, s, path[0])
      requires 0 <= ip0 < path.Length && Climb(chart, path[..ip0 + 1]) && path[ip0] == TOP
      modifies this
      ensures state == old(state)
      ensures -1 <= ip < MAX_NEST_DEPTH
      ensures path[..ip + 1] == Up(chart, path[0], Lca(chart, s, path[0]))
      ensures trace == old(trace) + Exits(chart, s, Lca(chart, s, path[0]))
    {
      ghost var u := path[0];
      // assertion 520
      assert ip0 < MAX_NEST_DEPTH;
      var _ := Trig(h, s, Exit);
      var t := super;
      ExitsGrow(chart, s, s);
      assert Exits(chart, s, s) == [];
      var found;
      found, ip := ScanPath(path, ip0, t);
      while !found
        invariant t in chart.level && Contains(chart, t, s) && state == old(state)
        invariant Lca(chart, t, u) == Lca(chart, s, u)
        invariant trace == old(trace) + Exits(chart, s, t)
        invariant found <==> Contains(chart, t, u)
        invariant -1 <= ip <= ip0 && (found ==> path[..ip + 1] == Up(chart, u, t)) && (!found ==> ip == ip0)
        decreases chart.level[t], !found
      {
        TopContains(chart, u);
        ExitsGrow(chart, s, t);
        ExitToSuper(h, t);
        t := temp;
        found, ip := ScanPath(path, ip0, t);
      }
    }

    /** Cases (e) to (g), entered with `path[1]` the superstate of the target and
        neither state the other's superstate nor their superstates the same. */
    method TranFar(h: Handlers, path: array<State>, s: State, super: State) returns (ip: int)
      requires WellFormed(chart) && WellBehaved(chart, h) && path.Length == MAX_NEST_DEPTH
      requires path[0] in chart.parent && s in chart.parent && path[1] == chart.parent[path[0]]
      requires s != path[0] && s != path[1] && super == chart.parent[s]
      modifies this, path
      ensures state == old(state) && path[0] == old(path[0])
      ensures -1 <= ip < MAX_NEST_DEPTH
      ensures path[..ip + 1] == Up(chart, path[0], Lca(chart, s, path[0]))
      ensures trace == old(trace) + Exits(chart, s, Lca(chart, s, path[0]))
    {
      TopContains(chart, path[0]);
      ghost var chain := ClimbTo(chart, path[0], TOP);
      assert Rises(chart, chain, 0);
      var found;
      ip, found := ClimbTarget(h, path, s, chain);
      assert path[0] == chain[..ip + 1][0];
      ClimbMeetsContainers(chart, chain, s);
      if !found {
        assert path[..ip + 1] == chain;
        ip := ClimbSource(h, path, ip, s, super);
      } else {
        UpOnClimb(chart, chain, ip + 1);
        assert Exits(chart, s, s) == [];
      }
    }

    /** QHsm_tran_: leave the source as far as necessary, and return the entry path
        for the target. */
    method Transit(h: Handlers, path: array<State>) returns (ip: int)
      requires WellFormed(chart) && WellBehaved(chart, h) && path.Length == MAX_NEST_DEPTH
      requires path[0] in chart.parent && path[2] in chart.parent
      modifies this, path
      ensures state == old(state) && path[0] == old(path[0])
      ensures -1 <= ip < MAX_NEST_DEPTH
      ensures path[..ip + 1] == Up(chart, path[0], Domain(chart, old(path[2]), path[0]))
      ensures trace == old(trace) + Exits(chart, old(path[2]), Domain(chart, old(path[2]), path[0]))
    {
      ip := -1;
      var t := path[0];
      var s := path[2];
      NearDomains(chart, s, path[0]);
      if s == t { // (a)
        var _ := Trig(h, s, Exit);
        ip := 0;
      } else {
        var _ := Probe(h, t);
        t := temp;
        if s == t { // (b)
          ip := 0;
        } else {
          var _ := Probe(h, s);
          if temp == t { // (c)
            var _ := Trig(h, s, Exit);
            ip := 0;
          } else if temp == path[0] { // (d)
            var _ := Trig(h, s, Exit);
          } else { // (e), (f), (g)
            path[1] := t;
            t := temp;
            ip := TranFar(h, path, s, t);
          }
        }
      }
    }

    /** Exit the current state up to the transition source (qep_hsm.c:322-331). */
    method ExitToSource(h: Handlers, t0: State, s: State)
      requires WellFormed(chart) && WellBehaved(chart, h)
      requires t0 in chart.parent && Contains(chart, s, t0)
      modifies this
      ensures state == old(state)
      ensures trace == old(trace) + Exits(chart, t0, s)
    {
      var t := t0;
      assert Exits(chart, t0, t0) == [];
      while t != s
        invariant t in chart.level && Contains(chart, s, t) && Contains(chart, t, t0)
        invariant state == old(state) && trace == old(trace) + Exits(chart, t0, t)
        decreases chart.level[t]
      {
        ExitsGrow(chart, t0, t);
        ExitToSuper(h, t);
        t := temp;
      }
    }

    /** Enter everything from below `t` down to `temp` (qep_hsm.c:193-207, 368-387). */
    method EnterBelow(h: Handlers, path: array<State>, t: State)
      requires WellFormed(chart) && WellBehaved(chart, h) && path.Length == MAX_NEST_DEPTH
      requires temp in chart.parent && temp != t && Contains(chart, t, temp)
      modifies this, path
      ensures path[0] == old(temp) && state == old(state)
      ensures trace == old(trace) + Entries(chart, old(temp), t)
    {
      ghost var u := temp;
      ghost var chain := ClimbTo(chart, u, t);
      var ip := FillPath(h, path, t, chain);
      // assertion 410
      assert ip < MAX_NEST_DEPTH;
      UpOnClimb(chart, chain, ip + 1);
      assert path[0] == path[..ip + 1][0];
      EnterPath(h, path, ip, Up(chart, u, t));
    }

    /** Ask a state for its initial transition. */
    method AskInit(h: Handlers, t: State) returns (r: Answer)
      requires WellFormed(chart) && WellBehaved(chart, h) && t in chart.parent
      modifies this
      ensures r == h(t, Init) && state == old(state) && trace == old(trace) + [Sent(t, Init)]
      ensures r.Tran? ==> temp == r.target && temp in chart.parent && temp != t && Contains(chart, t, temp)
      ensures r.Tran? ==> chart.level[temp] > chart.level[t]
    {
      r := Trig(h, t, Init);
      if r.Tran? {
        ContainsLevel(chart, t, temp);
      }
    }

    /** Drill into the target with initial transitions (qep_hsm.c:360-390). */
    method DrillDown(h: Handlers, path: array<State>, t0: State) returns (t: State)
      requires WellFormed(chart) && WellBehaved(chart, h) && path.Length == MAX_NEST_DEPTH
      requires t0 in chart.parent
      modifies this, path
      ensures t == Leaf(chart, h, t0) && state == old(state)
      ensures trace == old(trace) + Drill(chart, h, t0)
    {
      ghost var goal, leaf := trace + Drill(chart, h, t0), Leaf(chart, h, t0);
      DrillBegins(chart, h, t0, trace);
      t := t0;
      var r := AskInit(h, t);
      while r.Tran?
        invariant t in chart.parent && r == h(t, Init) && state == old(state)
        invariant r.Tran? ==> temp == r.target && temp in chart.parent && temp != t && Contains(chart, t, temp)
        invariant r.Tran? ==> chart.level[temp] > chart.level[t]
        invariant Leaf(chart, h, t) == leaf
        invariant trace + DrillRest(chart, h, t) == goal
        decreases MAX_NEST_DEPTH - chart.level[t]
      {
        DrillGoesOn(chart, h, t, temp, trace);
        EnterBelow(h, path, t);
        t := path[0];
        r := AskInit(h, t);
      }
      DrillEnds(chart, h, t);
    }

    /** Offer the event to one state; an unhandled event goes to the superstate. */
    method Ask(h: Handlers, s: State) returns (r: Answer)
      requires WellFormed(chart) && WellBehaved(chart, h) && s in chart.level
      modifies this
      ensures state == old(state) && trace == old(trace) + [Sent(s, User)]
      ensures Passes(h(s, User)) ==> s in chart.parent && r.Super? && temp == chart.parent[s]
      ensures !Passes(h(s, User)) ==> r == h(s, User) && (r.IsTran() ==> temp == r.target)
    {
      r := Trig(h, s, User);
      if r == Unhandled {
        r := Probe(h, s);
      }
    }

    /** Process the event hierarchically (qep_hsm.c:296-310). */
    method Bubble(h: Handlers) returns (s: State, r: Answer)
      requires Stable() && WellBehaved(chart, h)
      modifies this
      ensures state == old(state)
      ensures s == Source(chart, h, state) && r == h(s, User)
      ensures r.IsTran() ==> temp == r.target
      ensures trace == old(trace) + Asked(chart, h, state)
    {
      s := temp;
      AskedFirst(chart, h, s);
      r := Ask(h, s);
      while r.Super?
        invariant state == old(state) && s in chart.level && Contains(chart, s, state)
        invariant Source(chart, h, s) == Source(chart, h, state)
        invariant trace == old(trace) + Signals(Up(chart, state, s) + [s], User)
        invariant Passes(h(s, User)) ==> s in chart.parent && r.Super? && temp == chart.parent[s]
        invariant !Passes(h(s, User)) ==> r == h(s, User) && (r.IsTran() ==> temp == r.target)
        decreases chart.level[s]
      {
        AskedGrow(chart, state, s);
        s := temp;
        r := Ask(h, s);
      }
    }

    /** The transition taken branch of QHsm_dispatch_ (qep_hsm.c:313-399): `temp` is
        the target, `s` the source. */
    method TakeTransition(h: Handlers, s: State) returns (t: State)
      requires WellFormed(chart) && WellBehaved(chart, h)
      requires state in chart.parent && temp in chart.parent && s in chart.parent && Contains(chart, s, state)
      modifies this
      ensures state == old(state)
      ensures t == Leaf(chart, h, old(temp))
      ensures trace == old(trace) + Moves(chart, h, state, s, old(temp))
    {
      t := state;
      var path := new State[MAX_NEST_DEPTH];
      path[0] := temp;
      path[1] := t;
      path[2] := s;
      ghost var a := Domain(chart, s, temp);
      ghost var leave, climb, enter := Exits(chart, t, s), Exits(chart, s, a), Entries(chart, temp, a);
      MovesUnfold(chart, h, t, s, temp, trace);
      ExitToSource(h, t, s);
      var ip := Transit(h, path);
      EnterPath(h, path, ip, Up(chart, path[0], a));
      assert trace == old(trace) + leave + climb + enter;
      t := path[0];
      temp := t;
      t := DrillDown(h, path, t);
    }

    /** QHsm_dispatch_. */
    method Dispatch(h: Handlers)
      requires Stable() && WellBehaved(chart, h)
      modifies this
      ensures Stable()
      ensures state == NextState(chart, h, old(state))
      ensures trace == old(trace) + Step(chart, h, old(state))
    {
      var t := state;
      StepUnfolds(chart, h, t, trace);
      var s, r := Bubble(h);
      if r.IsTran() {
        t := TakeTransition(h, s);
      }
      state := t;
      temp := t;
    }

    /** QHsm_init_: `temp` is the initial pseudostate, whose transition must be taken
        (assertion 210). */
    method Start(h: Handlers)
      requires WellFormed(chart) && WellBehaved(chart, h) && state == TOP
      requires h(temp, User).Tran? && h(temp, User).target in chart.parent
      modifies this
      ensures Stable()
      ensures state == Leaf(chart, h, h(old(temp), User).target)
      ensures trace == old(trace) + [Sent(old(temp), User)] + HsmChart.Start(chart, h, h(old(temp), User).target)
    {
      var t := state;
      var r := Trig(h, temp, User);
      TopContains(chart, temp);
      StartUnfolds(chart, h, temp, trace);
      var path := new State[MAX_NEST_DEPTH];
      EnterBelow(h, path, t);
      t := DrillDown(h, path, path[0]);
      state := t;
      temp := t;
    }

    /** A machine's life: one initialization, then any events.  The states entered and
        not yet exited are at every moment exactly the active state and its superstates. */
    method Run(h: Handlers, steps: seq<Handlers>)
      requires WellFormed(chart) && WellBehaved(chart, h) && state == TOP && trace == []
      requires h(temp, User).Tran? && h(temp, User).target in chart.parent
      requires forall i :: 0 <= i < |steps| ==> WellBehaved(chart, steps[i])
      modifies this
      ensures Stable()
      ensures Replay(chart, [], trace) == Some(Configuration(chart, state))
    {
      ghost var t, first := h(temp, User).target, [Sent(temp, User)];
      StartEntersConfiguration(chart, h, t);
      ReplayIdle(chart, [], first);
      ReplayJoin(chart, [], first, HsmChart.Start(chart, h, t));
      Start(h);
      for n := 0 to |steps|
        invariant Stable() && Replay(chart, [], trace) == Some(Configuration(chart, state))
      {
        StepKeepsConfiguration(chart, steps[n], state);
        ReplayJoin(chart, [], trace, Step(chart, steps[n], state));
        Dispatch(steps[n]);
      }
    }

    /** QHsm_isIn: is `s` the active state or one of its superstates?  `temp` is used
        as scratch and restored. */
    method IsIn(h: Handlers, s: State) returns (inState: bool)
      requires Stable() && WellBehaved(chart, h)
      modifies this
      ensures Stable() && state == old(state) && trace == old(trace)
      ensures inState <==> Contains(chart, s, state)
    {
      inState := false;
      var r := Handled;
      while r != Ignored
        invariant temp in chart.level && state == old(state) && trace == old(trace)
        invariant r != Ignored ==> !inState && (Contains(chart, s, state) <==> Contains(chart, s, temp))
        invariant r == Ignored ==> (inState <==> Contains(chart, s, state))
        decreases r != Ignored, chart.level[temp]
      {
        if temp == s {
          inState := true;
          r := Ignored;
        } else {
          r := Probe(h, temp);
        }
      }
      temp := state;
    }

    /** QHsm_childState_: the substate of `parent` that contains the active state, or
        `parent` when it is the active state itself.  Postcondition 810 of the source
        demands `found`. */
    method ChildState(h: Handlers, parent: State) returns (child: State, found: bool)
      requires WellFormed(chart) && WellBehaved(chart, h) && state in chart.parent
      modifies this
      ensures Stable() && state == old(state) && trace == old(trace)
      ensures found <==> Contains(chart, parent, state)
      ensures found && parent == state ==> child == state
      ensures found && parent != state ==>
                child in chart.parent && chart.parent[child] == parent && Contains(chart, child, state)
    {
      child := state;
      found := false;
      temp := state;
      var r := Handled;
      while r != Ignored
        invariant temp in chart.level && state == old(state) && trace == old(trace)
        invariant child in chart.level && Contains(chart, child, state) && Contains(chart, temp, state)
        invariant found || r != Ignored ==>
                    || (temp == state && child == state)
                    || (parent != state && child in chart.parent && temp == chart.parent[child])
        invariant r != Ignored ==> !found && (Contains(chart, parent, state) <==> Contains(chart, parent, temp))
        invariant r == Ignored ==> (found <==> Contains(chart, parent, state))
        invariant found ==> temp == parent
        decreases r != Ignored, chart.level[temp]
      {
        if temp == parent {
          found := true;
          r := Ignored;
        } else {
          child := temp;
          r := Probe(h, temp);
          ContainsTransitive(chart, temp, child, state);
        }
      }
      temp := state;
    }
  }

  /** The part of a climb below its k-th state. */
  lemma UpOnClimb(c: Chart, chain: seq<State>, k: nat)
    requires WellFormed(c) && Climb(c, chain) && k < |chain|
    ensures chain[0] in c.level && Contains(c, chain[k], chain[0])
    ensures Up(c, chain[0], chain[k]) == chain[..k]
  {
    ClimbHead(c, chain, k);
    ClimbIsUp(c, chain[..k + 1]);
    assert chain[..k + 1][..k] == chain[..k];
  }

  /** The last recorded path state is the first to be entered. */
  lemma LastEntry(p: seq<State>)
    requires p != []
    ensures Signals(Reverse(p), Entry) ==
            [Sent(p[|p| - 1], Entry)] + Signals(Reverse(p[..|p| - 1]), Entry)
  {
    var q, x := p[..|p| - 1], p[|p| - 1];
    assert p == q + [x];
    ReverseAppend(q, x);
    assert ([x] + Reverse(q))[1..] == Reverse(q);
  }

  /** Exiting one more level. */
  lemma ExitsGrow(c: Chart, s: State, t: State)
    requires WellFormed(c) && s in c.level && t in c.parent && Contains(c, t, s)
    ensures Contains(c, c.parent[t], s)
    ensures Exits(c, s, c.parent[t]) == Exits(c, s, t) + [Sent(t, Exit)]
  {
    UpJoin(c, s, t, c.parent[t]);
    assert Up(c, t, c.parent[t]) == [t];
    SignalsJoin(Up(c, s, t), [t], Exit);
  }

  /** What cases (a) to (d) exit and enter. */
  lemma NearDomains(c: Chart, s: State, t: State)
    requires WellFormed(c) && s in c.parent && t in c.parent
    ensures var a := Domain(c, s, t);
            && (s == t ==> Exits(c, s, a) == [Sent(s, Exit)] && Up(c, t, a) == [t])
            && (s == c.parent[t] ==> Exits(c, s, a) == [] && Up(c, t, a) == [t])
            && (s != t && c.parent[s] == c.parent[t] ==> Exits(c, s, a) == [Sent(s, Exit)] && Up(c, t, a) == [t])
            && (c.parent[s] == t ==> Exits(c, s, a) == [Sent(s, Exit)] && Up(c, t, a) == [])
  {
    UpOne(c, s);
    UpOne(c, t);
    assert Exits(c, s, s) == [];
    if s != t && (c.parent[s] == c.parent[t] || c.parent[s] == t) {
      if Contains(c, s, t) {
        ContainsLevel(c, s, t);
        assert false;
      }
      assert Lca(c, s, t) == Lca(c, c.parent[s], t) == c.parent[s];
    }
  }

  lemma UpOne(c: Chart, s: State)
    requires WellFormed(c) && s in c.parent
    ensures Contains(c, c.parent[s], s)
    ensures Up(c, s, c.parent[s]) == [s] && Exits(c, s, c.parent[s]) == [Sent(s, Exit)]
  {
    ExitsGrow(c, s, s);
    assert Exits(c, s, s) == [];
  }

  /** What an initial transition of `t`, if it has one, sets off. */
  ghost function DrillRest(c: Chart, h: Handlers, t: State): seq<Sent>
    requires WellFormed(c) && WellBehaved(c, h) && t in c.parent
  {
    if h(t, Init).Tran? then Entries(c, h(t, Init).target, t) + Drill(c, h, h(t, Init).target) else []
  }

  lemma DrillBegins(c: Chart, h: Handlers, t: State, before: seq<Sent>)
    requires WellFormed(c) && WellBehaved(c, h) && t in c.parent
    ensures before + [Sent(t, Init)] + DrillRest(c, h, t) == before + Drill(c, h, t)
  {
    MoveOver(before, Sent(t, Init), DrillRest(c, h, t));
  }

  lemma DrillGoesOn(c: Chart, h: Handlers, t: State, u: State, before: seq<Sent>)
    requires WellFormed(c) && WellBehaved(c, h) && t in c.parent && h(t, Init) == Tran(u)
    ensures u in c.parent && Contains(c, t, u) && Leaf(c, h, t) == Leaf(c, h, u)
    ensures before + Entries(c, u, t) + [Sent(u, Init)] + DrillRest(c, h, u) == before + DrillRest(c, h, t)
  {
    assert InitAnswer(c, t, h(t, Init));
    DrillBegins(c, h, u, []);
    Regroup(before, Entries(c, u, t), [Sent(u, Init)], DrillRest(c, h, u));
  }

  lemma DrillEnds(c: Chart, h: Handlers, t: State)
    requires WellFormed(c) && WellBehaved(c, h) && t in c.parent && !h(t, Init).Tran?
    ensures Leaf(c, h, t) == t && DrillRest(c, h, t) == []
  {
  }

  lemma MoveOver<T>(a: seq<T>, x: T, b: seq<T>)
    ensures a + ([x] + b) == a + [x] + b
  {
  }

  lemma Regroup<T>(a: seq<T>, b: seq<T>, c: seq<T>, d: seq<T>)
    ensures a + (b + (c + d)) == a + b + c + d
  {
  }

  lemma AskedFirst(c: Chart, h: Handlers, s: State)
    requires WellFormed(c) && s in c.level
    ensures Up(c, s, s) == [] && Signals(Up(c, s, s) + [s], User) == [Sent(s, User)]
  {
    assert Up(c, s, s) + [s] == [s];
  }

  lemma AskedGrow(c: Chart, s: State, t: State)
    requires WellFormed(c) && s in c.level && t in c.parent && Contains(c, t, s)
    ensures Contains(c, c.parent[t], s)
    ensures Signals(Up(c, s, c.parent[t]) + [c.parent[t]], User)
         == Signals(Up(c, s, t) + [t], User) + [Sent(c.parent[t], User)]
  {
    UpJoin(c, s, t, c.parent[t]);
    UpOne(c, t);
    SignalsJoin(Up(c, s, t) + [t], [c.parent[t]], User);
  }

  lemma ExitsJoin(c: Chart, s: State, b: State, a: State)
    requires WellFormed(c) && s in c.level && b in c.level
    requires Contains(c, b, s) && Contains(c, a, b)
    ensures Contains(c, a, s)
    ensures Exits(c, s, a) == Exits(c, s, b) + Exits(c, b, a)
  {
    UpJoin(c, s, b, a);
    SignalsJoin(Up(c, s, b), Up(c, b, a), Exit);
  }

  lemma MovesUnfold(c: Chart, h: Handlers, s: State, src: State, t: State, before: seq<Sent>)
    requires WellFormed(c) && WellBehaved(c, h) && s in c.parent && src in c.parent && t in c.parent
    requires Contains(c, src, s)
    ensures before + Moves(c, h, s, src, t) ==
            before + Exits(c, s, src) + Exits(c, src, Domain(c, src, t)) + Entries(c, t, Domain(c, src, t)) + Drill(c, h, t)
  {
    var a := Domain(c, src, t);
    ExitsJoin(c, s, src, a);
    Flatten(before, Exits(c, s, src), Exits(c, src, a), Entries(c, t, a), Drill(c, h, t));
  }

  lemma Flatten<T>(a: seq<T>, b: seq<T>, c: seq<T>, d: seq<T>, e: seq<T>)
    ensures a + ((b + c) + d + e) == a + b + c + d + e
  {
  }

  lemma StartUnfolds(c: Chart, h: Handlers, t: State, before: seq<Sent>)
    requires WellFormed(c) && WellBehaved(c, h) && t in c.parent && Contains(c, TOP, t)
    ensures before + HsmChart.Start(c, h, t) == before + Entries(c, t, TOP) + Drill(c, h, t)
  {
  }

  lemma StepUnfolds(c: Chart, h: Handlers, s: State, before: seq<Sent>)
    requires WellFormed(c) && WellBehaved(c, h) && s in c.parent
    ensures var src := Source(c, h, s);
            before + Step(c, h, s) ==
            if h(src, User).IsTran() then before + Asked(c, h, s) + Moves(c, h, s, src, h(src, User).target)
            else before + Asked(c, h, s)
  {
  }
}

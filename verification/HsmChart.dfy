/** The state hierarchy of a QHsm, what one run-to-completion step of it must do,
    and what every run of it keeps.

    A state-handler function is a state identifier; QHsm_top is `TOP`.  A handler
    answers a signal with one of the QState codes, and the superstate or target it
    leaves in me->temp.fun is carried by the answer.  One `Handlers` value holds the
    answers given during one run-to-completion step.  Within a step no handler is
    sent the same signal twice (other than the empty one; NothingSentTwice), so a fresh
    table per step covers every handler, guards and extended-state variables included. */
module HsmChart {
  import opened Basics

  type State = nat
  const TOP: State := 0

  /** Including the top level (qep_hsm.c). */
  const MAX_NEST_DEPTH := 6

  datatype Signal = Empty | Entry | Exit | Init | User

  datatype Answer =
    | Super(super: State)
    | Unhandled
    | Handled
    | Ignored
    | Tran(target: State)
    | TranHist(target: State)
  {
    /** The test `r >= Q_RET_TRAN`. */
    predicate IsTran() {
      Tran? || TranHist?
    }
  }

  type Handlers = (State, Signal) -> Answer

  /** One signal, other than the empty probe, sent to one state. */
  datatype Sent = Sent(state: State, sig: Signal)

  datatype Chart = Chart(parent: map<State, State>, level: map<State, nat>)

  /** `level` counts the superstates of each state; top is the only root. */
  ghost predicate WellFormed(c: Chart) {
    && c.level.Keys == c.parent.Keys + {TOP}
    && TOP !in c.parent
    && c.level[TOP] == 0
    && (forall s {:trigger c.parent[s]} :: s in c.parent ==> c.parent[s] in c.level && c.level[s] == c.level[c.parent[s]] + 1)
    && (forall s {:trigger c.level[s]} :: s in c.level ==> c.level[s] < MAX_NEST_DEPTH)
  }

  /** `a` is `s` or one of its superstates. */
  ghost predicate Contains(c: Chart, a: State, s: State)
    requires WellFormed(c) && s in c.level
    decreases c.level[s]
  {
    a == s || (s != TOP && Contains(c, a, c.parent[s]))
  }

  /** What the framework demands of state handlers. */
  ghost predicate WellBehaved(c: Chart, h: Handlers)
    requires WellFormed(c)
  {
    && (forall sig :: h(TOP, sig) == Ignored)
    && (forall s {:trigger h(s, Empty)} :: s in c.parent ==> h(s, Empty) == Super(c.parent[s]))
    && (forall s {:trigger h(s, Entry)} :: s in c.parent ==> h(s, Entry) == Handled || h(s, Entry) == Super(c.parent[s]))
    && (forall s {:trigger h(s, Exit)} :: s in c.parent ==> h(s, Exit) == Handled || h(s, Exit) == Super(c.parent[s]))
    && (forall s {:trigger h(s, Init)} :: s in c.parent ==> InitAnswer(c, s, h(s, Init)))
    && (forall s {:trigger h(s, User)} :: s in c.parent ==> UserAnswer(c, s, h(s, User)))
  }

  /** An initial transition goes to a proper substate. */
  ghost predicate InitAnswer(c: Chart, s: State, r: Answer)
    requires WellFormed(c) && s in c.parent
  {
    match r
    case Handled => true
    case Super(p) => p == c.parent[s]
    case Tran(t) => t in c.parent && t != s && Contains(c, s, t)
    case _ => false
  }

  ghost predicate UserAnswer(c: Chart, s: State, r: Answer)
    requires WellFormed(c) && s in c.parent
  {
    match r
    case Handled => true
    case Unhandled => true
    case Ignored => false
    case Super(p) => p == c.parent[s]
    case Tran(t) => t in c.parent
    case TranHist(t) => t in c.parent
  }

  // ------------------------------------------------------------------
  // Chains of superstates

  /** Each state of `p` is followed by its superstate. */
  ghost predicate Climb(c: Chart, p: seq<State>)
    requires WellFormed(c)
  {
    && p != []
    && p[|p| - 1] in c.level
    && (forall i :: 0 <= i < |p| - 1 ==> Rises(c, p, i))
  }

  ghost predicate Rises(c: Chart, p: seq<State>, i: int)
    requires 0 <= i < |p| - 1
  {
    p[i] in c.parent && c.parent[p[i]] == p[i + 1]
  }

  /** The states from `s` upwards, up to but not including its container `a`. */
  ghost function Up(c: Chart, s: State, a: State): (p: seq<State>)
    requires WellFormed(c) && s in c.level && Contains(c, a, s)
    ensures forall x <- p :: x in c.parent
    decreases c.level[s]
  {
    if s == a then [] else [s] + Up(c, c.parent[s], a)
  }

  ghost function Reverse<T>(s: seq<T>): (r: seq<T>)
    ensures |r| == |s|
  {
    if s == [] then [] else Reverse(s[1..]) + [s[0]]
  }

  lemma {:induction false} ReverseAppend<T>(s: seq<T>, x: T)
    ensures Reverse(s + [x]) == [x] + Reverse(s)
  {
    if s != [] {
      ReverseAppend(s[1..], x);
      assert (s + [x])[1..] == s[1..] + [x];
    }
  }

  lemma ClimbFrom(c: Chart, s: State, q: seq<State>)
    requires WellFormed(c) && Climb(c, q) && s in c.parent && c.parent[s] == q[0]
    ensures Climb(c, [s] + q)
  {
    var p := [s] + q;
    forall i | 0 <= i < |p| - 1 ensures Rises(c, p, i) {
      assert i > 0 ==> Rises(c, q, i - 1);
    }
  }

  /** From `s` one can climb to every state that contains it. */
  lemma {:induction false} ClimbTo(c: Chart, s: State, a: State) returns (p: seq<State>)
    requires WellFormed(c) && s in c.level && Contains(c, a, s)
    ensures Climb(c, p) && p[0] == s && p[|p| - 1] == a
    ensures a in c.level && |p| + c.level[a] == c.level[s] + 1
    decreases c.level[s]
  {
    if s == a {
      p := [s];
    } else {
      var q := ClimbTo(c, c.parent[s], a);
      ClimbFrom(c, s, q);
      p := [s] + q;
    }
  }

  /** What is climbed over is exactly Up. */
  lemma {:induction false} ClimbIsUp(c: Chart, p: seq<State>)
    requires WellFormed(c) && Climb(c, p)
    ensures p[0] in c.level && c.level[p[0]] == c.level[p[|p| - 1]] + |p| - 1
    ensures Contains(c, p[|p| - 1], p[0])
    ensures Up(c, p[0], p[|p| - 1]) == p[..|p| - 1]
    decreases |p|
  {
    if |p| > 1 {
      assert Rises(c, p, 0);
      var q := p[1..];
      ClimbTail(c, p, 1);
      ClimbIsUp(c, q);
      assert p[..|p| - 1] == [p[0]] + q[..|q| - 1];
    }
  }

  /** A climb to top passes exactly the states that contain its start. */
  lemma {:induction false} ClimbMeetsContainers(c: Chart, p: seq<State>, a: State)
    requires WellFormed(c) && Climb(c, p) && p[|p| - 1] == TOP
    ensures p[0] in c.level
    ensures Contains(c, a, p[0]) <==> a in p
    decreases |p|
  {
    ClimbIsUp(c, p);
    if |p| > 1 {
      assert Rises(c, p, 0);
      ClimbTail(c, p, 1);
      ClimbMeetsContainers(c, p[1..], a);
      assert p == [p[0]] + p[1..];
    }
  }

  lemma ClimbTail(c: Chart, p: seq<State>, k: nat)
    requires WellFormed(c) && Climb(c, p) && k < |p|
    ensures Climb(c, p[k..])
  {
    var q := p[k..];
    forall i | 0 <= i < |q| - 1 ensures Rises(c, q, i) {
      assert Rises(c, p, i + k);
    }
  }

  lemma ClimbHead(c: Chart, p: seq<State>, k: nat)
    requires WellFormed(c) && Climb(c, p) && k < |p|
    ensures Climb(c, p[..k + 1])
  {
    var q := p[..k + 1];
    forall i | 0 <= i < |q| - 1 ensures Rises(c, q, i) {
      assert Rises(c, p, i);
    }
    if k + 1 < |p| {
      assert Rises(c, p, k);
    }
  }

  lemma {:induction false} ContainsTransitive(c: Chart, a: State, b: State, s: State)
    requires WellFormed(c) && s in c.level && b in c.level
    requires Contains(c, b, s) && Contains(c, a, b)
    ensures Contains(c, a, s)
    decreases c.level[s]
  {
    if b != s {
      ContainsTransitive(c, a, b, c.parent[s]);
    }
  }

  lemma {:induction false} ContainsLevel(c: Chart, a: State, s: State)
    requires WellFormed(c) && s in c.level && Contains(c, a, s)
    ensures a in c.level && c.level[a] <= c.level[s]
    ensures c.level[a] == c.level[s] ==> a == s
    decreases c.level[s]
  {
    if a != s {
      ContainsLevel(c, a, c.parent[s]);
    }
  }

  lemma {:induction false} TopContains(c: Chart, s: State)
    requires WellFormed(c) && s in c.level
    ensures Contains(c, TOP, s)
    decreases c.level[s]
  {
    if s != TOP {
      TopContains(c, c.parent[s]);
    }
  }

  /** Chains join end to end. */
  lemma {:induction false} UpJoin(c: Chart, s: State, b: State, a: State)
    requires WellFormed(c) && s in c.level && b in c.level
    requires Contains(c, b, s) && Contains(c, a, b)
    ensures Contains(c, a, s)
    ensures Up(c, s, a) == Up(c, s, b) + Up(c, b, a)
    decreases c.level[s]
  {
    ContainsTransitive(c, a, b, s);
    if b != s {
      UpJoin(c, c.parent[s], b, a);
      ContainsLevel(c, a, b);
      ContainsLevel(c, b, c.parent[s]);
      assert a != s;
    }
  }

  // ------------------------------------------------------------------
  // Least common ancestor

  /** The lowest state containing both: climb from `s` until `t` is inside. */
  ghost function Lca(c: Chart, s: State, t: State): (a: State)
    requires WellFormed(c) && s in c.level && t in c.level
    ensures a in c.level && Contains(c, a, s) && Contains(c, a, t)
    decreases c.level[s]
  {
    TopContains(c, t);
    if Contains(c, s, t) then s else Lca(c, c.parent[s], t)
  }

  /** Lca is the unique deepest common container, whichever side one climbs from. */
  lemma {:induction false} LcaIsDeepest(c: Chart, s: State, t: State, b: State)
    requires WellFormed(c) && s in c.level && t in c.level
    requires Contains(c, b, s) && Contains(c, b, t)
    ensures Contains(c, b, Lca(c, s, t))
    decreases c.level[s]
  {
    if !Contains(c, s, t) {
      LcaIsDeepest(c, c.parent[s], t, b);
    }
  }

  /** The state that a transition from `s` to `t` leaves untouched with everything
      above it: for a self-transition the superstate, otherwise the least common
      ancestor, which is `s` or `t` itself when one contains the other. */
  ghost function Domain(c: Chart, s: State, t: State): (a: State)
    requires WellFormed(c) && s in c.parent && t in c.parent
    ensures a in c.level && Contains(c, a, s) && Contains(c, a, t)
  {
    if s == t then c.parent[s] else Lca(c, s, t)
  }

  // ------------------------------------------------------------------
  // One run-to-completion step, specified

  ghost function Signals(states: seq<State>, sig: Signal): (r: seq<Sent>)
    ensures |r| == |states|
  {
    if states == [] then [] else [Sent(states[0], sig)] + Signals(states[1..], sig)
  }

  lemma {:induction false} SignalsJoin(p: seq<State>, q: seq<State>, sig: Signal)
    ensures Signals(p + q, sig) == Signals(p, sig) + Signals(q, sig)
  {
    if p == [] {
      assert p + q == q;
    } else {
      SignalsJoin(p[1..], q, sig);
      assert (p + q)[1..] == p[1..] + q;
      Assoc([Sent(p[0], sig)], Signals(p[1..], sig), Signals(q, sig));
    }
  }

  ghost predicate Passes(r: Answer) {
    r.Super? || r.Unhandled?
  }

  /** The state that handles the event, or TOP when nobody does. */
  ghost function Source(c: Chart, h: Handlers, s: State): (r: State)
    requires WellFormed(c) && WellBehaved(c, h) && s in c.level
    ensures r in c.level && Contains(c, r, s) && !Passes(h(r, User))
    decreases c.level[s]
  {
    if Passes(h(s, User)) then Source(c, h, c.parent[s]) else s
  }

  /** Exits innermost first, entries outermost first. */
  ghost function Exits(c: Chart, s: State, a: State): seq<Sent>
    requires WellFormed(c) && s in c.level && Contains(c, a, s)
  {
    Signals(Up(c, s, a), Exit)
  }

  ghost function Entries(c: Chart, t: State, a: State): seq<Sent>
    requires WellFormed(c) && t in c.level && Contains(c, a, t)
  {
    Signals(Reverse(Up(c, t, a)), Entry)
  }

  /** The state reached from `t` by initial transitions, and the signals on the way. */
  ghost function Leaf(c: Chart, h: Handlers, t: State): (r: State)
    requires WellFormed(c) && WellBehaved(c, h) && t in c.parent
    ensures r in c.parent && Contains(c, t, r)
    ensures !h(r, Init).Tran?
    decreases MAX_NEST_DEPTH - c.level[t]
  {
    if h(t, Init).Tran? then
      var u := h(t, Init).target;
      ContainsLevel(c, t, u);
      var r := Leaf(c, h, u);
      ContainsTransitive(c, t, u, r);
      r
    else t
  }

  ghost function Drill(c: Chart, h: Handlers, t: State): (r: seq<Sent>)
    requires WellFormed(c) && WellBehaved(c, h) && t in c.parent
    decreases MAX_NEST_DEPTH - c.level[t]
  {
    [Sent(t, Init)] +
    if h(t, Init).Tran? then
      var u := h(t, Init).target;
      ContainsLevel(c, t, u);
      Entries(c, u, t) + Drill(c, h, u)
    else []
  }

  /** The active state after dispatching one event to a machine in state `s`. */
  ghost function NextState(c: Chart, h: Handlers, s: State): (r: State)
    requires WellFormed(c) && WellBehaved(c, h) && s in c.parent
    ensures r in c.parent
  {
    var r := h(Source(c, h, s), User);
    if r.IsTran() then Leaf(c, h, r.target) else s
  }

  /** The states asked about the event, from `s` up to the one that decides. */
  ghost function Asked(c: Chart, h: Handlers, s: State): seq<Sent>
    requires WellFormed(c) && WellBehaved(c, h) && s in c.level
  {
    var src := Source(c, h, s);
    Signals(Up(c, s, src) + [src], User)
  }

  /** The exits, entries and initial transitions of a transition out of `s` that
      `src` decided. */
  ghost function Moves(c: Chart, h: Handlers, s: State, src: State, t: State): seq<Sent>
    requires WellFormed(c) && WellBehaved(c, h) && s in c.parent && src in c.parent && t in c.parent
    requires Contains(c, src, s)
  {
    var a := Domain(c, src, t);
    ContainsTransitive(c, a, src, s);
    Exits(c, s, a) + Entries(c, t, a) + Drill(c, h, t)
  }

  ghost function Step(c: Chart, h: Handlers, s: State): seq<Sent>
    requires WellFormed(c) && WellBehaved(c, h) && s in c.parent
  {
    var src := Source(c, h, s);
    Asked(c, h, s) + if h(src, User).IsTran() then Moves(c, h, s, src, h(src, User).target) else []
  }

  /** The top-most initial transition to `t`. */
  ghost function Start(c: Chart, h: Handlers, t: State): seq<Sent>
    requires WellFormed(c) && WellBehaved(c, h) && t in c.parent
  {
    TopContains(c, t);
    Entries(c, t, TOP) + Drill(c, h, t)
  }

  // ------------------------------------------------------------------
  // What every run keeps

  /** Active states, outermost first.  An entry is legal only into a substate of the
      innermost active state, an exit only out of the innermost active state. */
  ghost function Replay(c: Chart, active: seq<State>, log: seq<Sent>): Option<seq<State>>
    requires WellFormed(c)
    decreases |log|
  {
    if log == [] then Some(active)
    else
      var Sent(s, sig) := log[0];
      match sig
      case Entry =>
        if s in c.parent && c.parent[s] == Innermost(active) then Replay(c, active + [s], log[1..]) else None
      case Exit =>
        if active != [] && Innermost(active) == s then Replay(c, active[..|active| - 1], log[1..]) else None
      case _ => Replay(c, active, log[1..])
  }

  ghost function Innermost(active: seq<State>): State {
    if active == [] then TOP else active[|active| - 1]
  }

  /** The non-top states containing `s`, outermost first. */
  ghost function Configuration(c: Chart, s: State): seq<State>
    requires WellFormed(c) && s in c.level
  {
    TopContains(c, s);
    Reverse(Up(c, s, TOP))
  }

  lemma {:induction false} ReplayJoin(c: Chart, active: seq<State>, p: seq<Sent>, q: seq<Sent>)
    requires WellFormed(c)
    ensures Replay(c, active, p + q) ==
            match Replay(c, active, p)
            case None => None
            case Some(mid) => Replay(c, mid, q)
    decreases |p|
  {
    if p == [] {
      assert p + q == q;
    } else {
      assert (p + q)[0] == p[0] && (p + q)[1..] == p[1..] + q;
      var Sent(s, sig) := p[0];
      match sig
      case Entry => ReplayJoin(c, active + [s], p[1..], q);
      case Exit => if active != [] { ReplayJoin(c, active[..|active| - 1], p[1..], q); }
      case _ => ReplayJoin(c, active, p[1..], q);
    }
  }

  lemma {:induction false} ConfigurationGrows(c: Chart, s: State)
    requires WellFormed(c) && s in c.parent
    ensures Configuration(c, s) == Configuration(c, c.parent[s]) + [s]
    ensures Innermost(Configuration(c, s)) == s
  {
    TopContains(c, s);
    TopContains(c, c.parent[s]);
    var rest := Up(c, c.parent[s], TOP);
    assert Up(c, s, TOP) == [s] + rest;
    assert ([s] + rest)[1..] == rest;
  }

  lemma InnermostOfConfiguration(c: Chart, s: State)
    requires WellFormed(c) && s in c.level
    ensures Innermost(Configuration(c, s)) == s
  {
    if s != TOP {
      ConfigurationGrows(c, s);
    } else {
      assert Up(c, TOP, TOP) == [];
    }
  }

  lemma {:induction false} ReplayExits(c: Chart, s: State, a: State)
    requires WellFormed(c) && s in c.level && Contains(c, a, s)
    ensures a in c.level
    ensures Replay(c, Configuration(c, s), Exits(c, s, a)) == Some(Configuration(c, a))
    decreases c.level[s]
  {
    if s != a {
      var p := c.parent[s];
      ReplayExits(c, p, a);
      ConfigurationGrows(c, s);
      var rest := Up(c, p, a);
      assert Up(c, s, a) == [s] + rest;
      assert ([s] + rest)[1..] == rest;
      var log := Exits(c, s, a);
      assert log[1..] == Exits(c, p, a);
      var active := Configuration(c, s);
      assert active[..|active| - 1] == Configuration(c, p);
    }
  }

  lemma {:induction false} ReplayEntries(c: Chart, t: State, a: State)
    requires WellFormed(c) && t in c.level && Contains(c, a, t)
    ensures a in c.level
    ensures Replay(c, Configuration(c, a), Entries(c, t, a)) == Some(Configuration(c, t))
    decreases c.level[t]
  {
    if t != a {
      var p := c.parent[t];
      ReplayEntries(c, p, a);
      EntriesLast(c, t, a);
      ReplayJoin(c, Configuration(c, a), Entries(c, p, a), [Sent(t, Entry)]);
      InnermostOfConfiguration(c, p);
      ConfigurationGrows(c, t);
      ReplayOneEntry(c, Configuration(c, p), t);
    }
  }

  lemma ReplayOneEntry(c: Chart, active: seq<State>, t: State)
    requires WellFormed(c) && t in c.parent && c.parent[t] == Innermost(active)
    ensures Replay(c, active, [Sent(t, Entry)]) == Some(active + [t])
  {
    var log := [Sent(t, Entry)];
    assert log[1..] == [];
  }

  lemma EntriesLast(c: Chart, t: State, a: State)
    requires WellFormed(c) && t in c.parent && t != a && Contains(c, a, t)
    ensures Entries(c, t, a) == Entries(c, c.parent[t], a) + [Sent(t, Entry)]
  {
    var rest := Up(c, c.parent[t], a);
    assert Up(c, t, a) == [t] + rest && ([t] + rest)[1..] == rest;
    assert Reverse([t] + rest) == Reverse(rest) + [t];
    SignalsJoin(Reverse(rest), [t], Entry);
  }

  lemma {:induction false} ReplayIdle(c: Chart, active: seq<State>, log: seq<Sent>)
    requires WellFormed(c)
    requires forall x <- log :: x.sig != Entry && x.sig != Exit
    ensures Replay(c, active, log) == Some(active)
  {
    if log != [] {
      ReplayIdle(c, active, log[1..]);
    }
  }

  lemma {:induction false} SignalsAre(states: seq<State>, sig: Signal)
    ensures forall x <- Signals(states, sig) :: x.sig == sig
  {
    if states != [] {
      SignalsAre(states[1..], sig);
    }
  }

  lemma {:induction false} ReplayDrill(c: Chart, h: Handlers, t: State)
    requires WellFormed(c) && WellBehaved(c, h) && t in c.parent
    ensures Replay(c, Configuration(c, t), Drill(c, h, t)) == Some(Configuration(c, Leaf(c, h, t)))
    decreases MAX_NEST_DEPTH - c.level[t]
  {
    var log := Drill(c, h, t);
    var rest := log[1..];
    assert log[0] == Sent(t, Init);
    if h(t, Init).Tran? {
      var u := h(t, Init).target;
      ContainsLevel(c, t, u);
      assert rest == Entries(c, u, t) + Drill(c, h, u);
      ReplayEntries(c, u, t);
      ReplayDrill(c, h, u);
      ReplayJoin(c, Configuration(c, t), Entries(c, u, t), Drill(c, h, u));
    } else {
      assert rest == [];
    }
  }

  /** One event moves the active configuration from that of the old state to that of
      the new state, never exiting an inactive state nor entering out of order. */
  lemma StepKeepsConfiguration(c: Chart, h: Handlers, s: State)
    requires WellFormed(c) && WellBehaved(c, h) && s in c.parent
    ensures Replay(c, Configuration(c, s), Step(c, h, s)) == Some(Configuration(c, NextState(c, h, s)))
  {
    var src := Source(c, h, s);
    var asked := Asked(c, h, s);
    SignalsAre(Up(c, s, src) + [src], User);
    ReplayIdle(c, Configuration(c, s), asked);
    if h(src, User).IsTran() {
      var t := h(src, User).target;
      var a := Domain(c, src, t);
      ContainsTransitive(c, a, src, s);
      ReplayExits(c, s, a);
      ReplayEntries(c, t, a);
      ReplayDrill(c, h, t);
      var active := Configuration(c, s);
      var exits, entries, drill := Exits(c, s, a), Entries(c, t, a), Drill(c, h, t);
      ReplayJoin(c, active, exits, entries);
      ReplayJoin(c, active, exits + entries, drill);
      ReplayJoin(c, active, asked, exits + entries + drill);
    } else {
      assert Step(c, h, s) == asked;
    }
  }

  lemma StartEntersConfiguration(c: Chart, h: Handlers, t: State)
    requires WellFormed(c) && WellBehaved(c, h) && t in c.parent
    ensures Replay(c, [], Start(c, h, t)) == Some(Configuration(c, Leaf(c, h, t)))
  {
    TopContains(c, t);
    assert Configuration(c, TOP) == [];
    ReplayEntries(c, t, TOP);
    ReplayDrill(c, h, t);
    ReplayJoin(c, [], Entries(c, t, TOP), Drill(c, h, t));
  }

  // ------------------------------------------------------------------
  // What a step does, in terms of the answers alone

  /** The event was passed on by every state from `s` up to `a`, and `a` decided. */
  ghost predicate Decides(c: Chart, h: Handlers, s: State, a: State)
    requires WellFormed(c) && s in c.level && Contains(c, a, s)
  {
    && (forall x <- Up(c, s, a) :: h(x, User).Super? || h(x, User).Unhandled?)
    && (h(a, User).Handled? || h(a, User).Ignored? || h(a, User).Tran? || h(a, User).TranHist?)
  }

  /** The state that handles the event is the first one, going up, that neither names its
      superstate nor leaves the event unhandled. */
  lemma {:induction false} SourceIsFirstToDecide(c: Chart, h: Handlers, s: State, a: State)
    requires WellFormed(c) && WellBehaved(c, h) && s in c.level && Contains(c, a, s)
    ensures a == Source(c, h, s) <==> Decides(c, h, s, a)
    decreases c.level[s]
  {
    if h(s, User).Super? || h(s, User).Unhandled? {
      if a != s {
        SourceIsFirstToDecide(c, h, c.parent[s], a);
      } else {
        ContainsLevel(c, Source(c, h, s), c.parent[s]);
      }
    } else if a != s {
      assert s in Up(c, s, a);
    }
  }

  /** A path of initial transitions from `t` that cannot be continued. */
  ghost predicate InitPath(h: Handlers, path: seq<State>, t: State) {
    && path != [] && path[0] == t
    && (forall i :: 0 <= i < |path| - 1 ==> h(path[i], Init) == Tran(path[i + 1]))
    && !h(path[|path| - 1], Init).Tran?
  }

  /** Below its target a transition follows the initial transitions to their end: the
      states on the way get Init, and those between `t` and the end are entered. */
  lemma {:induction false} DrillFollowsInit(c: Chart, h: Handlers, t: State) returns (path: seq<State>)
    requires WellFormed(c) && WellBehaved(c, h) && t in c.parent
    ensures InitPath(h, path, t) && path[|path| - 1] == Leaf(c, h, t)
    ensures forall x :: Sent(x, Init) in Drill(c, h, t) <==> x in path
    ensures forall x :: Sent(x, Entry) in Drill(c, h, t) <==> x in Up(c, Leaf(c, h, t), t)
    ensures forall x :: Sent(x, Exit) !in Drill(c, h, t) && Sent(x, User) !in Drill(c, h, t)
    decreases MAX_NEST_DEPTH - c.level[t]
  {
    path := [t];
    if h(t, Init).Tran? {
      var u := h(t, Init).target;
      ContainsLevel(c, t, u);
      var rest := DrillFollowsInit(c, h, u);
      path := [t] + rest;
      InitPathLonger(h, t, rest, u);
      EntriesMembers(c, u, t);
      UpJoin(c, Leaf(c, h, u), u, t);
    }
  }

  lemma InitPathLonger(h: Handlers, t: State, rest: seq<State>, u: State)
    requires h(t, Init) == Tran(u) && InitPath(h, rest, u)
    ensures InitPath(h, [t] + rest, t) && ([t] + rest)[|[t] + rest| - 1] == rest[|rest| - 1]
  {
    var path := [t] + rest;
    forall i | 0 <= i < |path| - 1 ensures h(path[i], Init) == Tran(path[i + 1]) {
      assert i > 0 ==> h(rest[i - 1], Init) == Tran(rest[i]);
    }
  }

  lemma EntriesMembers(c: Chart, t: State, a: State)
    requires WellFormed(c) && t in c.level && Contains(c, a, t)
    ensures forall x, g :: Sent(x, g) in Entries(c, t, a) <==> g == Entry && x in Up(c, t, a)
  {
    SignalsMembers(Reverse(Up(c, t, a)), Entry);
    ReverseMembers(Up(c, t, a));
  }

  lemma {:induction false} SignalsMembers(states: seq<State>, sig: Signal)
    ensures forall x, g :: Sent(x, g) in Signals(states, sig) <==> g == sig && x in states
  {
    if states != [] {
      SignalsMembers(states[1..], sig);
      assert states == [states[0]] + states[1..];
    }
  }

  lemma {:induction false} ReverseMembers<T>(s: seq<T>)
    ensures forall x :: x in Reverse(s) <==> x in s
  {
    if s != [] {
      ReverseMembers(s[1..]);
      assert s == [s[0]] + s[1..];
    }
  }

  lemma {:induction false} UpMembers(c: Chart, s: State, a: State, x: State)
    requires WellFormed(c) && s in c.level && Contains(c, a, s)
    ensures a in c.level && (x in Up(c, s, a) <==> Contains(c, x, s) && !Contains(c, x, a))
    decreases c.level[s]
  {
    ContainsLevel(c, a, s);
    if s != a {
      UpMembers(c, c.parent[s], a, x);
      if x == s && Contains(c, x, a) {
        ContainsLevel(c, x, a);
      }
    }
  }

  /** What a transition from `src` to `t` leaves alone: the states that contain both, but
      not the state itself when it goes to itself. */
  ghost predicate Kept(c: Chart, src: State, t: State, x: State)
    requires WellFormed(c) && src in c.level && t in c.level
  {
    Contains(c, x, src) && Contains(c, x, t) && !(src == t && x == t)
  }

  lemma DomainIsKept(c: Chart, src: State, t: State, x: State)
    requires WellFormed(c) && src in c.parent && t in c.parent
    ensures Kept(c, src, t, x) <==> Contains(c, x, Domain(c, src, t))
  {
    var a := Domain(c, src, t);
    if Contains(c, x, a) {
      ContainsTransitive(c, x, a, src);
      ContainsTransitive(c, x, a, t);
      ContainsLevel(c, x, a);
    } else if Contains(c, x, src) && Contains(c, x, t) && src != t {
      LcaIsDeepest(c, src, t, x);
    }
  }

  /** The whole effect of one event, from the answers of the handlers.  The event goes to
      the states up to the one that decides.  Nothing else happens
      unless the state that decides takes a transition.  Then the machine ends where the
      initial transitions from its target end; exited are exactly the active states that
      the transition does not leave alone, entered exactly the states active afterwards
      that it does not leave alone. */
  lemma StepTouches(c: Chart, h: Handlers, s: State, src: State, x: State)
    requires WellFormed(c) && WellBehaved(c, h) && s in c.parent && Contains(c, src, s) && Decides(c, h, s, src)
    ensures src in c.level
    ensures Sent(x, User) in Step(c, h, s) <==> x == src || x in Up(c, s, src)
    ensures h(src, User).Tran? || h(src, User).TranHist? ==>
              h(src, User).target in c.level && TransitionTouches(c, h, s, src, h(src, User).target, x)
    ensures h(src, User).Handled? || h(src, User).Ignored? ==>
              NextState(c, h, s) == s && forall y <- Step(c, h, s) :: y.sig == User
  {
    SourceIsFirstToDecide(c, h, s, src);
    SignalsMembers(Up(c, s, src) + [src], User);
    ContainsLevel(c, src, s);
    if h(src, User).Tran? || h(src, User).TranHist? {
      var t := h(src, User).target;
      assert src in c.parent;
      MovesTouch(c, h, s, src, t, x);
      MovesContain(c, h, s, src, t, x);
    } else {
      assert Step(c, h, s) == Asked(c, h, s);
      SignalsAre(Up(c, s, src) + [src], User);
    }
  }

  ghost predicate TransitionTouches(c: Chart, h: Handlers, s: State, src: State, t: State, x: State)
    requires WellFormed(c) && WellBehaved(c, h) && s in c.parent && src in c.level && t in c.level
  {
    var next := NextState(c, h, s);
    && (exists path :: InitPath(h, path, t) && path[|path| - 1] == next)
    && (Sent(x, Exit) in Step(c, h, s) <==> x != TOP && Contains(c, x, s) && !Kept(c, src, t, x))
    && (Sent(x, Entry) in Step(c, h, s) <==> x != TOP && Contains(c, x, next) && !Kept(c, src, t, x))
  }

  lemma MovesTouch(c: Chart, h: Handlers, s: State, src: State, t: State, x: State)
    requires WellFormed(c) && WellBehaved(c, h) && s in c.parent && src in c.parent && t in c.parent
    requires Contains(c, src, s) && src == Source(c, h, s)
    requires h(src, User) == Tran(t) || h(src, User) == TranHist(t)
    ensures TransitionTouches(c, h, s, src, t, x)
  {
    var a, next := Domain(c, src, t), Leaf(c, h, t);
    SignalsMembers(Up(c, s, src) + [src], User);
    ContainsTransitive(c, a, src, s);
    ContainsTransitive(c, a, t, next);
    MovesContain(c, h, s, src, t, x);
    var path := DrillFollowsInit(c, h, t);
    assert InitPath(h, path, t) && path[|path| - 1] == next;
    UpMembers(c, s, a, x);
    UpMembers(c, next, a, x);
    DomainIsKept(c, src, t, x);
    TopContains(c, a);
  }

  lemma MovesContain(c: Chart, h: Handlers, s: State, src: State, t: State, x: State)
    requires WellFormed(c) && WellBehaved(c, h) && s in c.parent && src in c.parent && t in c.parent
    requires Contains(c, src, s)
    ensures var a := Domain(c, src, t);
            && Contains(c, a, s) && Contains(c, a, Leaf(c, h, t))
            && (Sent(x, Exit) in Moves(c, h, s, src, t) <==> x in Up(c, s, a))
            && (Sent(x, Entry) in Moves(c, h, s, src, t) <==> x in Up(c, Leaf(c, h, t), a))
            && Sent(x, User) !in Moves(c, h, s, src, t)
  {
    var a := Domain(c, src, t);
    ContainsTransitive(c, a, src, s);
    SignalsMembers(Up(c, s, a), Exit);
    EntriesMembers(c, t, a);
    var _ := DrillFollowsInit(c, h, t);
    UpJoin(c, Leaf(c, h, t), t, a);
  }

  // ------------------------------------------------------------------
  // No signal is sent twice

  /** Increases along a step: the event goes up, exits go up, entries and initial
      transitions go down. */
  ghost function RankOf(level: nat, sig: Signal): int {
    match sig
    case User => 0 - 20 - level
    case Exit => 0 - 10 - level
    case Init => 2 * level + 1
    case _ => 2 * level
  }

  /** Above every rank. */
  const BOTTOM: int := 2 * MAX_NEST_DEPTH

  /** The ranks increase strictly, from `lo` to below `hi`. */
  ghost predicate Ascends(c: Chart, log: seq<Sent>, lo: int, hi: int)
    decreases |log|
  {
    log != [] ==>
      && log[0].state in c.level
      && var r := RankOf(c.level[log[0].state], log[0].sig);
      lo <= r < hi && Ascends(c, log[1..], r + 1, hi)
  }

  lemma {:induction false} AscendsWiden(c: Chart, p: seq<Sent>, lo: int, hi: int, lo': int, hi': int)
    requires Ascends(c, p, lo, hi) && lo' <= lo && hi <= hi'
    ensures Ascends(c, p, lo', hi')
    decreases |p|
  {
    if p != [] {
      var r := RankOf(c.level[p[0].state], p[0].sig);
      AscendsWiden(c, p[1..], r + 1, hi, r + 1, hi');
    }
  }

  lemma {:induction false} AscendsJoin(c: Chart, p: seq<Sent>, q: seq<Sent>, lo: int, b: int, d: int, hi: int)
    requires Ascends(c, p, lo, b) && Ascends(c, q, d, hi) && b <= d && lo <= d && b <= hi
    ensures Ascends(c, p + q, lo, hi)
    decreases |p|
  {
    if p == [] {
      assert p + q == q;
      AscendsWiden(c, q, d, hi, lo, hi);
    } else {
      assert (p + q)[0] == p[0] && (p + q)[1..] == p[1..] + q;
      AscendsJoin(c, p[1..], q, RankOf(c.level[p[0].state], p[0].sig) + 1, b, d, hi);
    }
  }

  lemma AscendsOne(c: Chart, s: State, sig: Signal)
    requires s in c.level
    ensures var r := RankOf(c.level[s], sig); Ascends(c, [Sent(s, sig)], r, r + 1)
  {
    assert [Sent(s, sig)][1..] == [];
  }

  lemma {:induction false} AscendsBounds(c: Chart, log: seq<Sent>, lo: int, hi: int, i: nat)
    requires Ascends(c, log, lo, hi) && i < |log|
    ensures log[i].state in c.level && lo <= RankOf(c.level[log[i].state], log[i].sig)
    decreases |log|
  {
    if i > 0 {
      AscendsBounds(c, log[1..], RankOf(c.level[log[0].state], log[0].sig) + 1, hi, i - 1);
    }
  }

  lemma {:induction false} AscendsNoDup(c: Chart, log: seq<Sent>, lo: int, hi: int)
    requires Ascends(c, log, lo, hi)
    ensures NoDup(log)
    decreases |log|
  {
    if log != [] {
      var r := RankOf(c.level[log[0].state], log[0].sig);
      AscendsNoDup(c, log[1..], r + 1, hi);
      forall j | 0 < j < |log| ensures log[0] != log[j] {
        AscendsBounds(c, log[1..], r + 1, hi, j - 1);
      }
      NoDupFront(log);
    }
  }

  lemma NoDupFront<T>(s: seq<T>)
    requires s != [] && NoDup(s[1..]) && forall j :: 0 < j < |s| ==> s[0] != s[j]
    ensures NoDup(s)
  {
    forall i, j | 0 <= i < j < |s| ensures s[i] != s[j] {
      if i > 0 {
        assert s[1..][i - 1] == s[i] && s[1..][j - 1] == s[j];
      }
    }
  }

  /** Signals sent on the way up, between the ranks of two levels. */
  lemma {:induction false} UpAscends(c: Chart, s: State, a: State, sig: Signal, log: seq<Sent>, lo: int, hi: int)
    requires WellFormed(c) && s in c.level && Contains(c, a, s) && (sig == User || sig == Exit)
    requires log == Signals(Up(c, s, a), sig)
    requires a in c.level && lo == RankOf(c.level[s], sig) && hi == RankOf(c.level[a], sig)
    ensures Ascends(c, log, lo, hi)
    decreases c.level[s]
  {
    if s != a {
      var p, rest := c.parent[s], Signals(Up(c, c.parent[s], a), sig);
      UpAscends(c, p, a, sig, rest, lo + 1, hi);
      ContainsLevel(c, a, p);
      UpSignals(c, s, a, sig);
      OneMoreFirst(c, s, sig, rest, log, lo, hi);
    }
  }

  lemma OneMoreFirst(c: Chart, s: State, sig: Signal, rest: seq<Sent>, log: seq<Sent>, lo: int, hi: int)
    requires s in c.level && lo == RankOf(c.level[s], sig) < hi && log == [Sent(s, sig)] + rest
    requires Ascends(c, rest, lo + 1, hi)
    ensures Ascends(c, log, lo, hi)
  {
    AscendsOne(c, s, sig);
    AscendsJoin(c, [Sent(s, sig)], rest, lo, lo + 1, lo + 1, hi);
  }

  lemma UpSignals(c: Chart, s: State, a: State, sig: Signal)
    requires WellFormed(c) && s in c.parent && s != a && Contains(c, a, s)
    ensures Signals(Up(c, s, a), sig) == [Sent(s, sig)] + Signals(Up(c, c.parent[s], a), sig)
  {
    var rest := Up(c, c.parent[s], a);
    assert Up(c, s, a) == [s] + rest && ([s] + rest)[1..] == rest;
  }

  /** Entries on the way down, at levels above that of `a` and up to that of `t`. */
  lemma {:induction false} EntriesAscend(c: Chart, t: State, a: State, log: seq<Sent>, lo: int, hi: int)
    requires WellFormed(c) && t in c.level && Contains(c, a, t) && log == Entries(c, t, a)
    requires a in c.level && lo == 2 * c.level[a] + 2 && hi == 2 * c.level[t] + 1
    ensures Ascends(c, log, lo, hi)
    decreases c.level[t]
  {
    if t != a {
      var before := Entries(c, c.parent[t], a);
      EntriesAscend(c, c.parent[t], a, before, lo, hi - 2);
      ContainsLevel(c, a, c.parent[t]);
      EntriesLast(c, t, a);
      OneMoreEntry(c, before, t, log, lo, hi);
    }
  }

  lemma OneMoreEntry(c: Chart, before: seq<Sent>, t: State, log: seq<Sent>, lo: int, hi: int)
    requires t in c.level && hi == 2 * c.level[t] + 1 && lo < hi && log == before + [Sent(t, Entry)]
    requires Ascends(c, before, lo, hi - 2)
    ensures Ascends(c, log, lo, hi)
  {
    AscendsOne(c, t, Entry);
    AscendsJoin(c, before, [Sent(t, Entry)], lo, hi - 2, hi - 1, hi);
  }

  /** Entries and initial transitions go down together. */
  lemma {:induction false} DrillAscends(c: Chart, h: Handlers, t: State, log: seq<Sent>, lo: int)
    requires WellFormed(c) && WellBehaved(c, h) && t in c.parent && log == Drill(c, h, t)
    requires lo == 2 * c.level[t] + 1
    ensures Ascends(c, log, lo, BOTTOM)
    decreases MAX_NEST_DEPTH - c.level[t]
  {
    if h(t, Init).Tran? {
      var u := h(t, Init).target;
      ContainsLevel(c, t, u);
      var entries, drill, mid := Entries(c, u, t), Drill(c, h, u), 2 * c.level[u] + 1;
      DrillAscends(c, h, u, drill, mid);
      EntriesAscend(c, u, t, entries, lo + 1, mid);
      assert log == [Sent(t, Init)] + (entries + drill);
      AscendsJoin(c, entries, drill, lo + 1, mid, mid, BOTTOM);
      OneMoreFirst(c, t, Init, entries + drill, log, lo, BOTTOM);
    } else {
      assert log == [Sent(t, Init)] + [];
      OneMoreFirst(c, t, Init, [], log, lo, BOTTOM);
    }
  }

  /** The exits, entries and initial transitions of one transition. */
  lemma MovesAscend(c: Chart, h: Handlers, s: State, src: State, t: State)
    requires WellFormed(c) && WellBehaved(c, h) && s in c.parent && src in c.parent && t in c.parent
    requires Contains(c, src, s)
    ensures Ascends(c, Moves(c, h, s, src, t), -16, BOTTOM)
  {
    var a := Domain(c, src, t);
    ContainsTransitive(c, a, src, s);
    ExitsAscend(c, s, a);
    EnteringAscends(c, h, t, a);
    Regrouped(Exits(c, s, a), Entries(c, t, a), Drill(c, h, t));
    AscendsJoin(c, Exits(c, s, a), Entries(c, t, a) + Drill(c, h, t), -16, -9, 1, BOTTOM);
  }

  lemma Regrouped<T>(p: seq<T>, q: seq<T>, r: seq<T>)
    ensures p + q + r == p + (q + r)
  {
  }

  lemma ExitsAscend(c: Chart, s: State, a: State)
    requires WellFormed(c) && s in c.level && Contains(c, a, s)
    ensures Ascends(c, Exits(c, s, a), -16, -9)
  {
    ContainsLevel(c, a, s);
    var lo, hi := RankOf(c.level[s], Exit), RankOf(c.level[a], Exit);
    UpAscends(c, s, a, Exit, Exits(c, s, a), lo, hi);
    AscendsWiden(c, Exits(c, s, a), lo, hi, -16, -9);
  }

  lemma EnteringAscends(c: Chart, h: Handlers, t: State, a: State)
    requires WellFormed(c) && WellBehaved(c, h) && t in c.parent && Contains(c, a, t)
    ensures Ascends(c, Entries(c, t, a) + Drill(c, h, t), 1, BOTTOM)
  {
    ContainsLevel(c, a, t);
    var entries, drill, mid := Entries(c, t, a), Drill(c, h, t), 2 * c.level[t] + 1;
    EntriesAscend(c, t, a, entries, 2 * c.level[a] + 2, mid);
    DrillAscends(c, h, t, drill, mid);
    AscendsWiden(c, entries, 2 * c.level[a] + 2, mid, 1, mid);
    AscendsJoin(c, entries, drill, 1, mid, mid, BOTTOM);
  }

  lemma SignalsOne(s: State, sig: Signal)
    ensures Signals([s], sig) == [Sent(s, sig)]
  {
    assert [s][1..] == [];
  }

  lemma AskedAscends(c: Chart, h: Handlers, s: State)
    requires WellFormed(c) && WellBehaved(c, h) && s in c.level
    ensures Ascends(c, Asked(c, h, s), -26, -19)
  {
    var src := Source(c, h, s);
    var up, r, lo := Signals(Up(c, s, src), User), RankOf(c.level[src], User), RankOf(c.level[s], User);
    ContainsLevel(c, src, s);
    UpAscends(c, s, src, User, up, lo, r);
    SignalsJoin(Up(c, s, src), [src], User);
    SignalsOne(src, User);
    AscendsOne(c, src, User);
    AscendsJoin(c, up, [Sent(src, User)], lo, r, r, r + 1);
    AscendsWiden(c, Asked(c, h, s), lo, r + 1, -26, -19);
  }

  /** Within one step, and within initialization, no handler gets the same signal twice. */
  lemma NothingSentTwice(c: Chart, h: Handlers, s: State)
    requires WellFormed(c) && WellBehaved(c, h) && s in c.parent
    ensures NoDup(Step(c, h, s)) && NoDup(Start(c, h, s))
  {
    var src, asked := Source(c, h, s), Asked(c, h, s);
    AskedAscends(c, h, s);
    if h(src, User).IsTran() {
      var moves := Moves(c, h, s, src, h(src, User).target);
      MovesAscend(c, h, s, src, h(src, User).target);
      AscendsJoin(c, asked, moves, -26, -19, -16, BOTTOM);
      AscendsNoDup(c, asked + moves, -26, BOTTOM);
    } else {
      assert Step(c, h, s) == asked;
      AscendsNoDup(c, asked, -26, -19);
    }
    TopContains(c, s);
    EnteringAscends(c, h, s, TOP);
    AscendsNoDup(c, Start(c, h, s), 1, BOTTOM);
  }

  /** The active state, and everything sent, after a start and a list of events. */
  ghost function RunState(c: Chart, h: Handlers, t: State, steps: seq<Handlers>): (r: State)
    requires WellFormed(c) && WellBehaved(c, h) && t in c.parent
    requires forall i :: 0 <= i < |steps| ==> WellBehaved(c, steps[i])
    ensures r in c.parent
  {
    if steps == [] then Leaf(c, h, t)
    else NextState(c, steps[|steps| - 1], RunState(c, h, t, steps[..|steps| - 1]))
  }

  ghost function RunLog(c: Chart, h: Handlers, t: State, steps: seq<Handlers>): seq<Sent>
    requires WellFormed(c) && WellBehaved(c, h) && t in c.parent
    requires forall i :: 0 <= i < |steps| ==> WellBehaved(c, steps[i])
  {
    if steps == [] then Start(c, h, t)
    else
      var before := steps[..|steps| - 1];
      RunLog(c, h, t, before) + Step(c, steps[|steps| - 1], RunState(c, h, t, before))
  }

  /** After any run, the states entered and not yet exited are exactly the active
      state and its superstates below top. */
  lemma {:induction false} RunKeepsConfiguration(c: Chart, h: Handlers, t: State, steps: seq<Handlers>)
    requires WellFormed(c) && WellBehaved(c, h) && t in c.parent
    requires forall i :: 0 <= i < |steps| ==> WellBehaved(c, steps[i])
    ensures Replay(c, [], RunLog(c, h, t, steps)) == Some(Configuration(c, RunState(c, h, t, steps)))
    decreases |steps|
  {
    if steps == [] {
      StartEntersConfiguration(c, h, t);
    } else {
      var before := steps[..|steps| - 1];
      var last := steps[|steps| - 1];
      RunKeepsConfiguration(c, h, t, before);
      var s := RunState(c, h, t, before);
      StepKeepsConfiguration(c, last, s);
      ReplayJoin(c, [], RunLog(c, h, t, before), Step(c, last, s));
    }
  }
}
